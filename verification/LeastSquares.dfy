/** Least squares over the powers of x: the normal equations `LsFit::fit` sets up, and what
    solving them means. */
module LeastSquares {
  import opened Linear
  import opened Poly

  /** Sum of x^k. */
  function PowerSum(xs: Vector, k: nat): real {
    if xs == [] then 0.0 else PowerSum(xs[..|xs| - 1], k) + Pow(xs[|xs| - 1], k)
  }

  /** Sum of y*x^k. */
  function Moment(xs: Vector, ys: Vector, k: nat): real
    requires |xs| == |ys|
  {
    if xs == [] then 0.0
    else Moment(xs[..|xs| - 1], ys[..|ys| - 1], k) + MomentTerm(Pow(xs[|xs| - 1], k), ys[|ys| - 1])
  }

  function MomentTerm(p: real, y: real): real {
    p * y
  }

  /** Sum of x^k*p(x). */
  function PolyMoment(xs: Vector, c: Vector, k: nat): real {
    if xs == [] then 0.0
    else PolyMoment(xs[..|xs| - 1], c, k) + MomentTerm(Pow(xs[|xs| - 1], k), Eval(c, xs[|xs| - 1]))
  }

  /** Sum of x^k*d(x)*(c(x) - y). */
  function Cross(xs: Vector, ys: Vector, c: Vector, d: Vector, k: nat): real
    requires |xs| == |ys|
  {
    if xs == [] then 0.0
    else
      Cross(xs[..|xs| - 1], ys[..|ys| - 1], c, d, k)
      + CrossTerm(Pow(xs[|xs| - 1], k), Eval(d, xs[|xs| - 1]), Eval(c, xs[|xs| - 1]), ys[|ys| - 1])
  }

  function CrossTerm(p: real, d: real, c: real, y: real): real {
    p * d * (c - y)
  }

  /** Sum of the squared residuals of the polynomial c. */
  function Misfit(xs: Vector, ys: Vector, c: Vector): real
    requires |xs| == |ys|
  {
    if xs == [] then 0.0
    else Misfit(xs[..|xs| - 1], ys[..|ys| - 1], c) + MisfitTerm(ys[|ys| - 1], Eval(c, xs[|xs| - 1]))
  }

  function MisfitTerm(y: real, c: real): real {
    (y - c) * (y - c)
  }

  /** Sum of d(x)^2. */
  function Energy(xs: Vector, d: Vector): real {
    if xs == [] then 0.0
    else Energy(xs[..|xs| - 1], d) + EnergyTerm(Eval(d, xs[|xs| - 1]))
  }

  function EnergyTerm(d: real): real {
    d * d
  }

  // ----- The normal equations -----

  function GramRow(xs: Vector, j: nat, n: nat): (row: Vector)
    ensures |row| == n
  {
    if xs == [] then Zero(n)
    else Comb(1.0, GramRow(xs[..|xs| - 1], j, n), 1.0, Powers(xs[|xs| - 1], j, n))
  }

  lemma {:induction false} GramRowAt(xs: Vector, j: nat, n: nat, k: nat)
    requires k < n
    ensures GramRow(xs, j, n)[k] == PowerSum(xs, j + k)
  {
    hide Pow, Powers, Comb;
    if xs != [] {
      var init, x := xs[..|xs| - 1], xs[|xs| - 1];
      GramRowAt(init, j, n, k);
      PowersAt(x, j, n, k);
      CombAt(1.0, GramRow(init, j, n), 1.0, Powers(x, j, n), k);
    }
  }

  lemma GramRowPrefix(xs: Vector, j: nat, n: nat, k: nat)
    requires k <= n
    ensures GramRow(xs, j, n)[..k] == GramRow(xs, j, k)
  {
    forall i | 0 <= i < k
      ensures GramRow(xs, j, n)[i] == GramRow(xs, j, k)[i]
    {
      GramRowAt(xs, j, n, i);
      GramRowAt(xs, j, k, i);
    }
  }

  lemma {:induction false} DotZeroLeft(c: Vector)
    ensures Dot(Zero(|c|), c) == 0.0
  {
    DotZero(c);
    DotCommutes(Zero(|c|), c);
  }

  lemma {:induction false} GramRowDot(xs: Vector, j: nat, c: Vector)
    ensures Dot(GramRow(xs, j, |c|), c) == PolyMoment(xs, c, j)
  {
    hide Dot, Comb, Powers, Pow, Eval;
    if xs == [] {
      DotZeroLeft(c);
    } else {
      var init, x := xs[..|xs| - 1], xs[|xs| - 1];
      GramRowDot(init, j, c);
      DotComb(1.0, GramRow(init, j, |c|), 1.0, Powers(x, j, |c|), c);
      DotPowers(x, j, c);
    }
  }

  /** Entry (j, k) is the sum of x^(j+k). */
  function Gram(xs: Vector, n: nat): (m: Matrix)
    ensures Square(m, n)
  {
    seq(n, j requires 0 <= j < n => GramRow(xs, j, n))
  }

  function Moments(xs: Vector, ys: Vector, n: nat): (v: Vector)
    requires |xs| == |ys|
    ensures |v| == n
  {
    seq(n, k requires 0 <= k < n => Moment(xs, ys, k))
  }

  ghost predicate NormalEquations(xs: Vector, ys: Vector, c: Vector)
    requires |xs| == |ys|
  {
    forall k: nat | k < |c| :: PolyMoment(xs, c, k) == Moment(xs, ys, k)
  }

  lemma SolvesNormalEquations(xs: Vector, ys: Vector, c: Vector)
    requires |xs| == |ys|
    ensures Solves(Gram(xs, |c|), Moments(xs, ys, |c|), c) <==> NormalEquations(xs, ys, c)
  {
    hide Dot, GramRow, PolyMoment, Moment;
    var g := Gram(xs, |c|);
    forall j: nat | j < |c|
      ensures Dot(g[j], c) == PolyMoment(xs, c, j)
    {
      GramRowDot(xs, j, c);
    }
    if NormalEquations(xs, ys, c) {
      forall r | 0 <= r < |c|
        ensures Dot(g[r], c) == Moments(xs, ys, |c|)[r]
      {
      }
    }
    if Solves(g, Moments(xs, ys, |c|), c) {
      forall k: nat | k < |c|
        ensures PolyMoment(xs, c, k) == Moment(xs, ys, k)
      {
        assert Dot(g[k], c) == Moments(xs, ys, |c|)[k];
      }
    }
  }

  // ----- Optimality -----

  lemma {:induction false} CrossUnfolds(xs: Vector, ys: Vector, c: Vector, d: Vector, k: nat)
    requires |xs| == |ys| && d != []
    ensures Cross(xs, ys, c, d, k)
         == d[0] * (PolyMoment(xs, c, k) - Moment(xs, ys, k)) + Cross(xs, ys, c, d[1..], k + 1)
  {
    hide CrossTerm, MomentTerm;
    if xs != [] {
      var xt, yt, x, y := xs[..|xs| - 1], ys[..|ys| - 1], xs[|xs| - 1], ys[|ys| - 1];
      CrossUnfolds(xt, yt, c, d, k);
      assert Pow(x, k + 1) == x * Pow(x, k);
      EvalStep(d, x);
      hide Eval, Pow;
      CrossTermUnfolds(Pow(x, k), Pow(x, k + 1), x, d[0], Eval(d, x), Eval(d[1..], x), Eval(c, x), y);
      CrossSum(d[0], PolyMoment(xt, c, k), Moment(xt, yt, k), MomentTerm(Pow(x, k), Eval(c, x)),
          MomentTerm(Pow(x, k), y), PolyMoment(xs, c, k), Moment(xs, ys, k));
    }
  }

  lemma CrossTermUnfolds(p: real, q: real, x: real, d0: real, d: real, e: real, c: real, y: real)
    requires q == x * p && d == d0 + x * e
    ensures CrossTerm(p, d, c, y) == d0 * (MomentTerm(p, c) - MomentTerm(p, y)) + CrossTerm(q, e, c, y)
  {
    assert p * (x * e) == q * e;
    assert p * d == p * d0 + q * e;
    assert (p * d0 + q * e) * (c - y) == d0 * (p * c - p * y) + q * e * (c - y);
  }

  lemma CrossSum(d0: real, a: real, b: real, u: real, v: real, s: real, t: real)
    requires s == a + u && t == b + v
    ensures d0 * (s - t) == d0 * (a - b) + d0 * (u - v)
  {
  }

  /** The residual of a solution is orthogonal to every polynomial of its length. */
  lemma {:induction false} CrossVanishes(xs: Vector, ys: Vector, c: Vector, d: Vector, k: nat)
    requires |xs| == |ys|
    requires forall i: nat | k <= i < k + |d| :: PolyMoment(xs, c, i) == Moment(xs, ys, i)
    ensures Cross(xs, ys, c, d, k) == 0.0
    decreases |d|
  {
    if d == [] {
      CrossOfNothing(xs, ys, c, k);
    } else {
      CrossUnfolds(xs, ys, c, d, k);
      CrossVanishes(xs, ys, c, d[1..], k + 1);
    }
  }

  lemma {:induction false} CrossOfNothing(xs: Vector, ys: Vector, c: Vector, k: nat)
    requires |xs| == |ys|
    ensures Cross(xs, ys, c, [], k) == 0.0
  {
    if xs != [] {
      CrossOfNothing(xs[..|xs| - 1], ys[..|ys| - 1], c, k);
    }
  }

  lemma {:induction false} MisfitOfSum(xs: Vector, ys: Vector, c: Vector, d: Vector)
    requires |xs| == |ys| && |c| == |d|
    ensures Misfit(xs, ys, Comb(1.0, c, 1.0, d)) == Misfit(xs, ys, c) + Energy(xs, d) + 2.0 * Cross(xs, ys, c, d, 0)
  {
    hide Comb, Eval;
    if xs != [] {
      var x, y := xs[|xs| - 1], ys[|ys| - 1];
      MisfitOfSum(xs[..|xs| - 1], ys[..|ys| - 1], c, d);
      assert Pow(x, 0) == 1.0;
      EvalComb(1.0, c, 1.0, d, x);
      hide MisfitTerm, EnergyTerm, CrossTerm;
      SquareOfSum(y, Eval(c, x), Eval(d, x), Eval(Comb(1.0, c, 1.0, d), x), Pow(x, 0));
    }
  }

  lemma SquareOfSum(y: real, c: real, d: real, s: real, p: real)
    requires s == 1.0 * c + 1.0 * d && p == 1.0
    ensures MisfitTerm(y, s) == MisfitTerm(y, c) + EnergyTerm(d) + 2.0 * CrossTerm(p, d, c, y)
  {
  }

  lemma {:induction false} EnergyPositive(xs: Vector, d: Vector)
    ensures Energy(xs, d) >= 0.0
    ensures Energy(xs, d) == 0.0 ==> forall x | x in xs :: Eval(d, x) == 0.0
  {
    if xs != [] {
      hide Eval;
      var init, x := xs[..|xs| - 1], xs[|xs| - 1];
      EnergyPositive(init, d);
      SquarePositive(Eval(d, x));
      assert forall t | t in xs :: t in init || t == x;
    }
  }

  lemma SquarePositive(e: real)
    ensures EnergyTerm(e) >= 0.0 && (e != 0.0 ==> EnergyTerm(e) > 0.0)
  {
    if e != 0.0 {
      SameSignProduct(e, e, EnergyTerm(e));
    }
  }

  lemma SameSignProduct(a: real, b: real, s: real)
    requires (a > 0.0 && b > 0.0) || (a < 0.0 && b < 0.0)
    requires s == a * b
    ensures s > 0.0
  {
  }

  /** A solution of the normal equations leaves no larger a sum of squared residuals than any
      polynomial of the same length, and a polynomial that does as well agrees with it on
      every point. */
  lemma NormalEquationsAreOptimal(xs: Vector, ys: Vector, c: Vector, q: Vector)
    requires |xs| == |ys| && |q| == |c| && NormalEquations(xs, ys, c)
    ensures Misfit(xs, ys, c) <= Misfit(xs, ys, q)
    ensures Misfit(xs, ys, c) == Misfit(xs, ys, q) ==> forall x | x in xs :: Eval(q, x) == Eval(c, x)
  {
    var d := Comb(1.0, q, -1.0, c);
    assert forall i: nat | 0 <= i < |d| :: PolyMoment(xs, c, i) == Moment(xs, ys, i);
    hide *;
    CombUndone(c, q);
    CrossVanishes(xs, ys, c, d, 0);
    MisfitOfSum(xs, ys, c, d);
    EnergyPositive(xs, d);
    forall x | x in xs
      ensures Eval(d, x) == Eval(q, x) - Eval(c, x)
    {
      EvalDifference(1.0, q, -1.0, c, x);
    }
  }

  lemma EvalDifference(a: real, u: Vector, b: real, v: Vector, x: real)
    requires |u| == |v| && a == 1.0 && b == -1.0
    ensures Eval(Comb(a, u, b, v), x) == Eval(u, x) - Eval(v, x)
  {
    hide *;
    EvalComb(a, u, b, v, x);
    UnitSum(a, b, Eval(u, x), Eval(v, x));
  }

  lemma {:induction false} CombUndone(c: Vector, q: Vector)
    requires |c| == |q|
    ensures Comb(1.0, c, 1.0, Comb(1.0, q, -1.0, c)) == q
  {
    if c != [] {
      CombUndone(c[1..], q[1..]);
    }
  }

  // ----- When there is exactly one fit -----

  lemma {:induction false} MomentOfZero(xs: Vector, k: nat)
    ensures Moment(xs, Zero(|xs|), k) == 0.0
  {
    if xs != [] {
      MomentOfZero(xs[..|xs| - 1], k);
      assert Zero(|xs|)[..|xs| - 1] == Zero(|xs| - 1);
    }
  }

  lemma {:induction false} PolyMomentOfVanishing(xs: Vector, c: Vector, k: nat)
    requires forall x | x in xs :: Eval(c, x) == 0.0
    ensures PolyMoment(xs, c, k) == 0.0
  {
    if xs != [] {
      PolyMomentOfVanishing(xs[..|xs| - 1], c, k);
      assert xs[|xs| - 1] in xs;
    }
  }

  lemma {:induction false} MisfitOfZeroIsEnergy(xs: Vector, c: Vector)
    ensures Cross(xs, Zero(|xs|), c, c, 0) == Energy(xs, c)
  {
    if xs != [] {
      MisfitOfZeroIsEnergy(xs[..|xs| - 1], c);
      assert Zero(|xs|)[..|xs| - 1] == Zero(|xs| - 1);
      assert Pow(xs[|xs| - 1], 0) == 1.0;
    }
  }

  /** The matrix is positive definite, hence regular, exactly when there are at least as many
      different points as coefficients. */
  lemma GramRegular(xs: Vector, n: nat)
    ensures Regular(Gram(xs, n)) <==> |Points(xs)| >= n
  {
    var z := Zero(|xs|);
    MomentsOfZero(xs, n);
    if |Points(xs)| >= n {
      forall v: Vector | Solves(Gram(xs, n), Zero(n), v)
        ensures v == Zero(n)
      {
        SolvesNormalEquations(xs, z, v);
        CrossVanishes(xs, z, v, v, 0);
        MisfitOfZeroIsEnergy(xs, v);
        EnergyPositive(xs, v);
        RootBound(v, Points(xs));
      }
    } else {
      var c := VanishingPolynomial(Points(xs), n);
      forall k: nat | k < n
        ensures PolyMoment(xs, c, k) == Moment(xs, z, k)
      {
        MomentOfZero(xs, k);
        PolyMomentOfVanishing(xs, c, k);
      }
      SolvesNormalEquations(xs, z, c);
    }
  }

  lemma MomentsOfZero(xs: Vector, n: nat)
    ensures Moments(xs, Zero(|xs|), n) == Zero(n)
  {
    forall k: nat | k < n
      ensures Moments(xs, Zero(|xs|), n)[k] == 0.0
    {
      MomentOfZero(xs, k);
    }
  }

  lemma LeadGram(xs: Vector, n: nat, k: nat)
    requires k <= n
    ensures Lead(Gram(xs, n), k) == Gram(xs, k)
  {
    forall r | 0 <= r < k
      ensures Lead(Gram(xs, n), k)[r] == Gram(xs, k)[r]
    {
      GramRowPrefix(xs, r, n, k);
    }
  }

  /** The solver meets no zero pivot it cannot survive exactly when there are at least as many
      different points as coefficients. */
  lemma GramDefined(xs: Vector, n: nat)
    requires n > 0
    ensures Defined(Gram(xs, n)) <==> |Points(xs)| >= n
  {
    var m := Gram(xs, n);
    DefinedIffLeadsRegular(m);
    forall k: nat | k <= n
      ensures Regular(Lead(m, k)) <==> |Points(xs)| >= k
    {
      LeadGram(xs, n, k);
      GramRegular(xs, k);
    }
    if LeadsRegular(m) {
      assert Regular(Lead(m, n));
    }
  }

  // ----- Moving the origin -----

  /** The polynomial c(x + b). */
  function Shift(c: Vector, b: real): (d: Vector)
    ensures |d| == |c|
  {
    if c == [] then []
    else
      var e := Shift(c[1..], b);
      Comb(1.0, [c[0]] + e, b, e + [0.0])
  }

  lemma {:induction false} EvalShift(c: Vector, b: real, x: real)
    ensures Eval(Shift(c, b), x - b) == Eval(c, x)
  {
    if c != [] {
      var e := Shift(c[1..], b);
      assert Shift(c, b) == Comb(1.0, [c[0]] + e, b, e + [0.0]);
      hide Shift;
      EvalShift(c[1..], b, x);
      EvalComb(1.0, [c[0]] + e, b, e + [0.0], x - b);
      EvalPadded(e, 1, x - b);
      assert e + [0.0] == e + Zero(1);
      assert ([c[0]] + e)[1..] == e;
      EvalStep([c[0]] + e, x - b);
      EvalStep(c, x);
      hide Eval, Comb;
      ShiftStep(c[0], x, b, Eval(e, x - b));
    }
  }

  lemma ShiftStep(c0: real, x: real, b: real, e: real)
    ensures 1.0 * (c0 + (x - b) * e) + b * e == c0 + x * e
  {
  }
}
