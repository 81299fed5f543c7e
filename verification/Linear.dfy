/** Fraction-free linear solving, as `multisolve` of libraries/math/mathlib.cpp does it.

    Doubles are exact reals. A division by zero, which leaves an infinity or a NaN in the
    original's result, is reported here by an out-parameter `finite`. */
module Linear {

  type Vector = seq<real>
  type Matrix = seq<Vector>

  predicate Square(x: Matrix, n: nat) {
    |x| == n && forall r | 0 <= r < n :: |x[r]| == n
  }

  function Dot(u: Vector, v: Vector): real
    requires |u| == |v|
  {
    if u == [] then 0.0 else u[0] * v[0] + Dot(u[1..], v[1..])
  }

  /** a*u + b*v, component by component. */
  function Comb(a: real, u: Vector, b: real, v: Vector): (w: Vector)
    requires |u| == |v|
    ensures |w| == |u|
  {
    if u == [] then [] else [a * u[0] + b * v[0]] + Comb(a, u[1..], b, v[1..])
  }

  lemma {:induction false} CombAt(a: real, u: Vector, b: real, v: Vector, k: nat)
    requires |u| == |v| && k < |u|
    ensures Comb(a, u, b, v)[k] == a * u[k] + b * v[k]
  {
    if k > 0 {
      CombAt(a, u[1..], b, v[1..], k - 1);
      var w := Comb(a, u[1..], b, v[1..]);
      assert w[k - 1] == Comb(a, u, b, v)[k];
    }
  }

  lemma CombPrefix(a: real, u: Vector, b: real, v: Vector, k: nat)
    requires |u| == |v| && k <= |u|
    ensures Comb(a, u, b, v)[..k] == Comb(a, u[..k], b, v[..k])
  {
    hide Comb;
    forall i | 0 <= i < k
      ensures Comb(a, u, b, v)[i] == Comb(a, u[..k], b, v[..k])[i]
    {
      CombAt(a, u, b, v, i);
      CombAt(a, u[..k], b, v[..k], i);
    }
  }

  function Zero(n: nat): (z: Vector)
    ensures |z| == n && forall k | 0 <= k < n :: z[k] == 0.0
  {
    seq(n, _ => 0.0)
  }

  /** `a` satisfies every row of x*a = y. */
  predicate Solves(x: Matrix, y: Vector, a: Vector) {
    && |a| == |y|
    && Square(x, |y|)
    && forall r | 0 <= r < |y| :: Dot(x[r], a) == y[r]
  }

  /** The only vector x sends to zero is zero. */
  ghost predicate Regular(x: Matrix) {
    Square(x, |x|) && forall v: Vector | Solves(x, Zero(|x|), v) :: v == Zero(|x|)
  }

  /** The leading k by k block. */
  function Lead(x: Matrix, k: nat): (b: Matrix)
    requires Square(x, |x|) && k <= |x|
    ensures |b| == k
    ensures forall r | 0 <= r < k :: b[r] == x[r][..k]
  {
    seq(k, r requires 0 <= r < k => x[r][..k])
  }

  // ----- One elimination step -----

  function ReduceMatrix(x: Matrix): (dx: Matrix)
    requires |x| > 0 && Square(x, |x|)
    ensures Square(dx, |x| - 1)
  {
    seq(|x| - 1, r requires 0 <= r < |x| - 1 => Comb(x[0][0], x[r + 1][1..], -x[r + 1][0], x[0][1..]))
  }

  function ReduceVector(x: Matrix, y: Vector): (dy: Vector)
    requires |x| > 0 && Square(x, |x|) && |y| == |x|
    ensures |dy| == |y| - 1
  {
    seq(|y| - 1, r requires 0 <= r < |y| - 1 => y[r + 1] * x[0][0] - y[0] * x[r + 1][0])
  }

  /** No division by zero happens while solving with x: some entry of the first column is
      nonzero at each level of the elimination. */
  predicate Defined(x: Matrix)
    requires |x| > 0 && Square(x, |x|)
    decreases |x|
  {
    && (exists r | 0 <= r < |x| :: x[r][0] != 0.0)
    && (|x| > 1 ==> Defined(ReduceMatrix(x)))
  }

  lemma DotUnfolds(u: Vector, v: Vector)
    requires |u| == |v| > 0
    ensures Dot(u, v) == u[0] * v[0] + Dot(u[1..], v[1..])
  {
  }

  lemma {:induction false} DotComb(a: real, u: Vector, b: real, v: Vector, w: Vector)
    requires |u| == |v| == |w|
    ensures Dot(Comb(a, u, b, v), w) == a * Dot(u, w) + b * Dot(v, w)
  {
    if u != [] {
      DotComb(a, u[1..], b, v[1..], w[1..]);
      assert Comb(a, u, b, v)[1..] == Comb(a, u[1..], b, v[1..]);
      MixedProduct(a, u[0], b, v[0], w[0], Dot(u[1..], w[1..]), Dot(v[1..], w[1..]));
    }
  }

  lemma UnitSum(a: real, b: real, p: real, q: real)
    requires a == 1.0
    ensures b == 1.0 ==> a * p + b * q == p + q
    ensures b == -1.0 ==> a * p + b * q == p - q
  {
  }

  /** With a and b named, the products in the sum stay as they are. */
  lemma DotUnits(a: real, u: Vector, b: real, v: Vector, w: Vector)
    requires |u| == |v| == |w| && a == 1.0
    ensures b == 1.0 ==> Dot(Comb(a, u, b, v), w) == Dot(u, w) + Dot(v, w)
    ensures b == -1.0 ==> Dot(Comb(a, u, b, v), w) == Dot(u, w) - Dot(v, w)
  {
    hide *;
    DotComb(a, u, b, v, w);
    UnitSum(a, b, Dot(u, w), Dot(v, w));
  }

  lemma DotMinus(u: Vector, v: Vector, w: Vector)
    requires |u| == |v| == |w|
    ensures Dot(Comb(1.0, u, -1.0, v), w) == Dot(u, w) - Dot(v, w)
    ensures Dot(w, Comb(1.0, u, -1.0, v)) == Dot(w, u) - Dot(w, v)
  {
    hide *;
    DotUnits(1.0, u, -1.0, v, w);
    DotCommutes(Comb(1.0, u, -1.0, v), w);
    DotCommutes(u, w);
    DotCommutes(v, w);
  }

  /** A product that proofs can treat as a whole. */
  function Mul(p: real, q: real): real { p * q }

  lemma MulZero(p: real)
    ensures Mul(p, 0.0) == Mul(0.0, p) == 0.0
  {
  }

  lemma DotSplitsFirst(u: Vector, v: Vector)
    requires |u| == |v| > 0
    ensures Dot(u, v) == Mul(u[0], v[0]) + Dot(u[1..], v[1..])
  {
  }

  lemma DotSplitsLast(u: Vector, v: Vector)
    requires |u| == |v| > 0
    ensures Dot(u, v) == Dot(u[..|u| - 1], v[..|v| - 1]) + Mul(u[|u| - 1], v[|v| - 1])
  {
    hide Dot;
    var n := |u| - 1;
    assert u == u[..n] + [u[n]] && v == v[..n] + [v[n]];
    DotExtends(u[..n], v[..n], u[n], v[n]);
  }

  lemma MixedProduct(a: real, p: real, b: real, q: real, s: real, t: real, u: real)
    ensures (a * p + b * q) * s + (a * t + b * u) == a * (p * s + t) + b * (q * s + u)
  {
    assert (a * p) * s == a * (p * s) && (b * q) * s == b * (q * s);
  }

  lemma {:induction false} DotCommutes(u: Vector, v: Vector)
    requires |u| == |v|
    ensures Dot(u, v) == Dot(v, u)
  {
    if u != [] {
      DotCommutes(u[1..], v[1..]);
    }
  }

  lemma {:induction false} DotZero(u: Vector)
    ensures Dot(u, Zero(|u|)) == 0.0
  {
    if u != [] {
      DotZero(u[1..]);
      assert Zero(|u|)[1..] == Zero(|u| - 1);
    }
  }

  /** How far `a` is from satisfying row r. */
  function Residual(x: Matrix, y: Vector, a: Vector, r: nat): real
    requires Square(x, |y|) && |a| == |y| && r < |y|
  {
    Dot(x[r], a) - y[r]
  }

  lemma ResidualIs(x: Matrix, y: Vector, a: Vector, r: nat)
    requires Square(x, |y|) && |a| == |y| && r < |y|
    ensures Residual(x, y, a, r) == x[r][0] * a[0] + Dot(x[r][1..], a[1..]) - y[r]
  {
    DotUnfolds(x[r], a);
  }

  lemma ReducedResidual(x: Matrix, y: Vector, d: Vector, r: nat)
    requires |y| > 1 && Square(x, |y|) && |d| == |y| - 1 && 0 < r < |y|
    ensures Residual(ReduceMatrix(x), ReduceVector(x, y), d, r - 1)
         == Dot(Comb(x[0][0], x[r][1..], -x[r][0], x[0][1..]), d) - (y[r] * x[0][0] - y[0] * x[r][0])
  {
    hide Dot, Comb;
  }

  /** The residual of a reduced row mixes the residuals of the row and of the top row, whatever
      the leading unknown is. */
  lemma ResidualReduces(x: Matrix, y: Vector, a: Vector, r: nat)
    requires |y| > 1 && Square(x, |y|) && |a| == |y| && 0 < r < |y|
    ensures Residual(ReduceMatrix(x), ReduceVector(x, y), a[1..], r - 1)
         == x[0][0] * Residual(x, y, a, r) - x[r][0] * Residual(x, y, a, 0)
  {
    hide Residual, Dot, Comb, ReduceMatrix, ReduceVector;
    var p, q, d := x[0][0], x[r][0], a[1..];
    ResidualIs(x, y, a, r);
    ResidualIs(x, y, a, 0);
    ReducedResidual(x, y, d, r);
    DotComb(p, x[r][1..], -q, x[0][1..], d);
    EliminateLead(p, q, a[0], Dot(x[r][1..], d), Dot(x[0][1..], d), y[r], y[0]);
  }

  lemma EliminateLead(p: real, q: real, lead: real, s: real, t: real, u: real, v: real)
    ensures p * (q * lead + s - u) - q * (p * lead + t - v) == (p * s + -q * t) - (u * p - v * q)
  {
    assert p * (q * lead) == q * (p * lead);
  }

  lemma Cancel(p: real, u: real, v: real)
    requires p != 0.0 && p * u == p * v
    ensures u == v
  {
    assert p * (u - v) == 0.0;
  }

  /** Back substitution: if the reduced system holds and a row with a nonzero leading entry
      holds, every row holds. */
  lemma LiftSolution(x: Matrix, y: Vector, a: Vector, b: nat)
    requires |y| > 0 && Square(x, |y|) && |a| == |y| && Defined(x)
    requires |y| > 1 ==> Solves(ReduceMatrix(x), ReduceVector(x, y), a[1..])
    requires b < |y| && x[b][0] != 0.0 && Residual(x, y, a, b) == 0.0
    ensures Solves(x, y, a)
  {
    hide Dot, ReduceMatrix, ReduceVector;
    if |y| > 1 {
      var p, R0 := x[0][0], Residual(x, y, a, 0);
      forall r | 0 < r < |y|
        ensures p * Residual(x, y, a, r) == x[r][0] * R0
      {
        ResidualReduces(x, y, a, r);
      }
      if p == 0.0 {
        ZeroPivotOnlyInPairs(x);
      }
      assert R0 == 0.0;
    }
  }

  /** A zero in the pivot position leaves a matrix of rank one, so it is survivable only in a
      system of two unknowns, where the other row can carry the first one. */
  lemma ZeroPivotOnlyInPairs(x: Matrix)
    requires |x| > 1 && Square(x, |x|) && Defined(x) && x[0][0] == 0.0
    ensures |x| == 2 && x[1][0] != 0.0
  {
    var dx := ReduceMatrix(x);
    if |dx| > 1 {
      assert Defined(dx) && Defined(ReduceMatrix(dx));
      hide Comb, ReduceMatrix;
      var r :| 0 <= r < |dx| - 1 && ReduceMatrix(dx)[r][0] != 0.0;
      RankOneReducesToZero(x, r);
      assert false;
    }
  }

  /** One step from a zero pivot every row is a multiple of the top row, so the next step
      cancels everything. */
  lemma RankOneReducesToZero(x: Matrix, r: nat)
    requires |x| > 2 && Square(x, |x|) && x[0][0] == 0.0 && r < |x| - 2
    ensures ReduceMatrix(ReduceMatrix(x))[r][0] == 0.0
  {
    hide Comb;
    var dx := ReduceMatrix(x);
    var p, q, u, v := -x[1][0], -x[r + 2][0], x[0][1], x[0][2];
    RankOneRow(x, 0);
    RankOneRow(x, r + 1);
    CombAt(dx[0][0], dx[r + 1][1..], -dx[r + 1][0], dx[0][1..], 0);
    RankOneMinor(p, q, u, v);
  }

  lemma RankOneRow(x: Matrix, r: nat)
    requires |x| > 2 && Square(x, |x|) && x[0][0] == 0.0 && r < |x| - 1
    ensures ReduceMatrix(x)[r][0] == -x[r + 1][0] * x[0][1]
    ensures ReduceMatrix(x)[r][1] == -x[r + 1][0] * x[0][2]
  {
    hide Comb;
    CombAt(0.0, x[r + 1][1..], -x[r + 1][0], x[0][1..], 0);
    CombAt(0.0, x[r + 1][1..], -x[r + 1][0], x[0][1..], 1);
  }

  lemma RankOneMinor(p: real, q: real, u: real, v: real)
    ensures (p * u) * (q * v) + -(q * u) * (p * v) == 0.0
  {
    assert (p * u) * (q * v) == (p * q) * (u * v) == (q * u) * (p * v);
  }

  lemma LowerSolution(x: Matrix, y: Vector, a: Vector)
    requires |y| > 1 && Solves(x, y, a)
    ensures Solves(ReduceMatrix(x), ReduceVector(x, y), a[1..])
  {
    forall r | 0 <= r < |y| - 1
      ensures Dot(ReduceMatrix(x)[r], a[1..]) == ReduceVector(x, y)[r]
    {
      ResidualReduces(x, y, a, r + 1);
    }
  }

  lemma CancelSum(p: real, u: real, v: real, s: real, d: real)
    requires p != 0.0 && d == p * u + s && d == p * v + s
    ensures u == v
  {
    Cancel(p, u, v);
  }

  lemma FirstEntryIsUnique(p: real, u: real, v: real, row: Vector, rest: Vector)
    requires p != 0.0 && |row| == |rest|
    requires Dot([p] + row, [u] + rest) == Dot([p] + row, [v] + rest)
    ensures u == v
  {
    DotOfCons(p, row, u, rest);
    DotOfCons(p, row, v, rest);
    hide Dot;
    CancelSum(p, u, v, Dot(row, rest), Dot([p] + row, [u] + rest));
  }

  lemma DotOfCons(p: real, u: Vector, q: real, v: Vector)
    requires |u| == |v|
    ensures Dot([p] + u, [q] + v) == p * q + Dot(u, v)
  {
    hide Dot;
    assert ([p] + u)[1..] == u && ([q] + v)[1..] == v;
    DotUnfolds([p] + u, [q] + v);
  }

  lemma FirstUnknownIsUnique(row: Vector, a: Vector, b: Vector)
    requires |row| == |a| == |b| > 0 && row[0] != 0.0
    requires a[1..] == b[1..] && Dot(row, a) == Dot(row, b)
    ensures a == b
  {
    hide Dot;
    assert row == [row[0]] + row[1..] && a == [a[0]] + a[1..] && b == [b[0]] + b[1..];
    FirstEntryIsUnique(row[0], a[0], b[0], row[1..], a[1..]);
  }

  /** Where the solver is defined, a system has at most one solution. */
  lemma {:induction false} SolutionIsUnique(x: Matrix, y: Vector, a: Vector, b: Vector)
    requires |y| > 0 && Solves(x, y, a) && Solves(x, y, b) && Defined(x)
    ensures a == b
    decreases |y|
  {
    hide Dot, ReduceMatrix, ReduceVector;
    if |y| > 1 {
      LowerSolution(x, y, a);
      LowerSolution(x, y, b);
      SolutionIsUnique(ReduceMatrix(x), ReduceVector(x, y), a[1..], b[1..]);
    }
    var r :| 0 <= r < |x| && x[r][0] != 0.0;
    FirstUnknownIsUnique(x[r], a, b);
  }

  // ----- When the solver is defined -----

  lemma LeadReduces(x: Matrix, k: nat)
    requires |x| > 0 && Square(x, |x|) && 0 < k <= |x|
    ensures ReduceMatrix(Lead(x, k)) == Lead(ReduceMatrix(x), k - 1)
  {
    var p, q := ReduceMatrix(Lead(x, k)), Lead(ReduceMatrix(x), k - 1);
    var b := Lead(x, k);
    forall r | 0 <= r < k - 1
      ensures p[r] == q[r]
    {
      assert b[r + 1][1..] == x[r + 1][1..][..k - 1] && b[0][1..] == x[0][1..][..k - 1];
      CombPrefix(x[0][0], x[r + 1][1..], -x[r + 1][0], x[0][1..], k - 1);
    }
  }

  lemma ReduceVectorOfZero(x: Matrix)
    requires |x| > 0 && Square(x, |x|)
    ensures ReduceVector(x, Zero(|x|)) == Zero(|x| - 1)
  {
  }

  lemma RegularReduces(x: Matrix)
    requires |x| > 1 && Square(x, |x|) && x[0][0] != 0.0
    ensures Regular(x) <==> Regular(ReduceMatrix(x))
  {
    ReduceVectorOfZero(x);
    hide Dot, ReduceMatrix, ReduceVector;
    var n, dx := |x|, ReduceMatrix(x);
    if Regular(dx) {
      forall v: Vector | Solves(x, Zero(n), v)
        ensures v == Zero(n)
      {
        LowerSolution(x, Zero(n), v);
        assert v[1..] == Zero(n - 1);
        DotZero(x[0]);
        FirstUnknownIsUnique(x[0], v, Zero(n));
      }
    }
    if Regular(x) {
      var z := Zero(n - 1);
      forall w: Vector | Solves(dx, z, w)
        ensures w == z
      {
        var v := ExtendSolution(x, w);
        assert v == Zero(n);
      }
    }
  }

  lemma ExtendSolution(x: Matrix, w: Vector) returns (v: Vector)
    requires |x| > 1 && Square(x, |x|) && x[0][0] != 0.0
    requires Solves(ReduceMatrix(x), Zero(|x| - 1), w)
    ensures Solves(x, Zero(|x|), v) && v[1..] == w
  {
    v := TopRowSolved(x[0], w);
    ReduceVectorOfZero(x);
    hide Dot, ReduceMatrix, ReduceVector;
    forall r | 0 <= r < |x|
      ensures Dot(x[r], v) == 0.0
    {
      if r > 0 {
        ResidualReduces(x, Zero(|x|), v, r);
        Cancel(x[0][0], Residual(x, Zero(|x|), v, r), 0.0);
      }
    }
  }

  lemma TopRowSolved(row: Vector, w: Vector) returns (v: Vector)
    requires |row| == |w| + 1 && row[0] != 0.0
    ensures |v| == |row| && v[1..] == w && Dot(row, v) == 0.0
  {
    v := [-Dot(row[1..], w) / row[0]] + w;
    assert v[1..] == w;
    DotUnfolds(row, v);
    hide Dot;
  }

  lemma RegularOfOne(x: Matrix)
    requires Square(x, 1)
    ensures Regular(x) <==> x[0][0] != 0.0
  {
    if x[0][0] == 0.0 {
      assert Solves(x, Zero(1), [1.0]);
    } else {
      forall v: Vector | Solves(x, Zero(1), v)
        ensures v == Zero(1)
      {
        assert Dot(x[0], v) == x[0][0] * v[0];
      }
    }
  }

  lemma DotOfTwo(u: Vector, v: Vector)
    requires |u| == |v| == 2
    ensures Dot(u, v) == u[0] * v[0] + u[1] * v[1]
  {
    assert Dot(u[1..], v[1..]) == u[1] * v[1];
  }

  lemma RegularOfTwo(x: Matrix)
    requires Square(x, 2)
    ensures Regular(x) <==> Defined(x)
  {
    if Defined(x) {
      DefinedIsRegular(x);
    } else if Regular(x) {
      var p, q, s, t := x[0][0], x[0][1], x[1][0], x[1][1];
      if p == s == 0.0 {
        KernelOfTwo(x, 1.0, 0.0);
      } else {
        assert x[0][0] != 0.0 || x[1][0] != 0.0;
        CombAt(p, x[1][1..], -s, x[0][1..], 0);
        var dx := ReduceMatrix(x);
        assert !Defined(dx) && dx[0][0] == 0.0;
        assert dx[0][0] == p * t + -s * q;
        KernelOfTwo(x, -q, p);
        KernelOfTwo(x, -t, s);
      }
      assert false;
    }
  }

  lemma KernelOfTwo(x: Matrix, v: real, w: real)
    requires Square(x, 2) && Regular(x)
    requires x[0][0] * v + x[0][1] * w == 0.0 && x[1][0] * v + x[1][1] * w == 0.0
    ensures v == w == 0.0
  {
    DotOfTwo(x[0], [v, w]);
    DotOfTwo(x[1], [v, w]);
    assert Solves(x, Zero(2), [v, w]);
    assert [v, w][0] == Zero(2)[0] && [v, w][1] == Zero(2)[1];
  }

  lemma DefinedIsRegular(x: Matrix)
    requires |x| > 0 && Square(x, |x|) && Defined(x)
    ensures Regular(x)
  {
    var n := |x|;
    forall v: Vector | Solves(x, Zero(n), v)
      ensures v == Zero(n)
    {
      forall r | 0 <= r < n
        ensures Dot(x[r], Zero(n)) == 0.0
      {
        DotZero(x[r]);
      }
      SolutionIsUnique(x, Zero(n), v, Zero(n));
    }
  }

  /** The leading blocks the elimination relies on are regular: all but the one that is one
      short of the whole matrix. */
  ghost predicate LeadsRegular(x: Matrix)
    requires Square(x, |x|)
  {
    forall k | 0 < k <= |x| && k != |x| - 1 :: Regular(Lead(x, k))
  }

  lemma LeadWhole(x: Matrix)
    requires Square(x, |x|)
    ensures Lead(x, |x|) == x
  {
    forall r | 0 <= r < |x|
      ensures Lead(x, |x|)[r] == x[r]
    {
    }
  }

  /** Exactly when the solver divides by zero nowhere. The block of size n-1 may be singular,
      because the last step may take either of the two rows that are left. */
  lemma {:induction false} DefinedIffLeadsRegular(x: Matrix)
    requires |x| > 0 && Square(x, |x|)
    ensures Defined(x) <==> LeadsRegular(x)
    decreases |x|
  {
    var n := |x|;
    LeadWhole(x);
    if n == 1 {
      RegularOfOne(x);
    } else if n == 2 {
      RegularOfTwo(x);
    } else {
      RegularOfOne(Lead(x, 1));
      if Defined(x) && x[0][0] == 0.0 {
        ZeroPivotOnlyInPairs(x);
      }
      if x[0][0] != 0.0 {
        var dx := ReduceMatrix(x);
        DefinedIffLeadsRegular(dx);
        forall k | 1 < k <= n
          ensures Regular(Lead(x, k)) <==> Regular(Lead(dx, k - 1))
        {
          LeadReduces(x, k);
          RegularReduces(Lead(x, k));
        }
        if LeadsRegular(dx) {
          forall k | 0 < k <= n && k != n - 1
            ensures Regular(Lead(x, k))
          {
            if k > 1 { assert Regular(Lead(dx, k - 1)); }
          }
        }
        if LeadsRegular(x) {
          forall k | 0 < k <= n - 1 && k != n - 2
            ensures Regular(Lead(dx, k))
          {
            assert Regular(Lead(x, k + 1));
          }
        }
      }
    }
  }

  /** A regular system this solver cannot solve: the first pivot is zero and there are three
      unknowns, so exchanging rows would be needed. */
  lemma RegularButUndefined()
    ensures var x := [[0.0, 1.0, 0.0], [1.0, 0.0, 0.0], [0.0, 0.0, 1.0]]; Regular(x) && !Defined(x)
  {
    var x := [[0.0, 1.0, 0.0], [1.0, 0.0, 0.0], [0.0, 0.0, 1.0]];
    forall v: Vector | Solves(x, Zero(3), v)
      ensures v == Zero(3)
    {
      forall u: Vector | |u| == 3
        ensures Dot(u, v) == u[0] * v[0] + u[1] * v[1] + u[2] * v[2]
      {
        DotOfTwo(u[1..], v[1..]);
      }
      assert Dot(x[0], v) == v[1] && Dot(x[1], v) == v[0] && Dot(x[2], v) == v[2];
    }
    if Defined(x) {
      ZeroPivotOnlyInPairs(x);
    }
  }

  // ----- The solver -----

  function Abs(v: real): real { if v < 0.0 then -v else v }

  /** The row whose leading entry is largest in size, and that size. */
  method LargestLead(x: Matrix) returns (bestindex: nat, bestx: real)
    requires 0 < |x| <= 0xFFFF && Square(x, |x|)
    ensures bestindex < |x| && bestx == Abs(x[bestindex][0])
    ensures forall r | 0 <= r < |x| :: Abs(x[r][0]) <= bestx
  {
    bestindex, bestx := 0, 0.0;
    for i := 0 to |x|
      invariant bestindex < |x| && (bestx == Abs(x[bestindex][0]) || (bestx == 0.0 && bestindex == 0))
      invariant forall r | 0 <= r < i :: Abs(x[r][0]) <= bestx
    {
      if Abs(x[i][0]) > bestx {
        bestx := Abs(x[i][0]);
        bestindex := i;
      }
    }
  }

  /** The elimination loops: every other row is freed of the first unknown. */
  method Eliminate(x: Matrix, y: Vector) returns (dx: Matrix, dy: Vector)
    requires |y| > 1 && Square(x, |y|)
    ensures dx == ReduceMatrix(x) && dy == ReduceVector(x, y)
  {
    hide Comb;
    dx, dy := [], [];
    for r := 1 to |y|
      invariant dx == ReduceMatrix(x)[..r - 1] && dy == ReduceVector(x, y)[..r - 1]
    {
      dy := dy + [y[r] * x[0][0] - y[0] * x[r][0]];
      assert dy[r - 1] == ReduceVector(x, y)[r - 1];
      var row: Vector := [];
      ghost var reduced := Comb(x[0][0], x[r][1..], -x[r][0], x[0][1..]);
      for c := 1 to |y|
        invariant row == reduced[..c - 1]
      {
        CombAt(x[0][0], x[r][1..], -x[r][0], x[0][1..], c - 1);
        row := row + [x[r][c] * x[0][0] - x[0][c] * x[r][0]];
        assert row[c - 1] == reduced[c - 1];
      }
      assert row == ReduceMatrix(x)[r - 1];
      dx := dx + [row];
    }
  }

  /** The first unknown from a row, given the others: a[0] before the final division. */
  method FirstUnknown(row: Vector, y: real, a: Vector) returns (rest: real)
    requires |row| == |a| > 0
    ensures rest == y - Dot(row[1..], a[1..])
  {
    rest := y;
    for i := 1 to |a|
      invariant rest == y - Dot(row[1..i], a[1..i])
    {
      rest := rest - a[i] * row[i];
      DotExtends(row[1..i], a[1..i], row[i], a[i]);
      assert row[1..i] + [row[i]] == row[1..i + 1] && a[1..i] + [a[i]] == a[1..i + 1];
    }
    assert row[1..|a|] == row[1..] && a[1..|a|] == a[1..];
  }

  /** Solve x*a = y into `a`. The 16-bit row index of the original never reaches the end of a
      system of more than 65535 unknowns. */
  method MultiSolve(x: Matrix, y: Vector, a: array<real>) returns (finite: bool)
    requires 0 < |y| <= 0xFFFF && Square(x, |y|) && a.Length == |y|
    modifies a
    ensures finite <==> Defined(x)
    ensures finite ==> Solves(x, y, a[..])
    ensures finite ==> forall b | Solves(x, y, b) :: b == a[..]
    decreases |y|
  {
    hide Dot, ReduceMatrix, ReduceVector;
    var order := |y| - 1;
    ghost var others: Vector := [];
    finite := true;
    if order > 0 {
      var dx, dy := Eliminate(x, y);
      var da := new real[order];
      finite := MultiSolve(dx, dy, da);
      others := da[..];
      for i := 0 to order
        invariant da[..] == others && a[..][1..i + 1] == others[..i]
      {
        a[i + 1] := da[i];
      }
      AllCopied(a[..], others);
    }
    var bestindex, bestx := LargestLead(x);
    a[0] := FirstUnknown(x[bestindex], y[bestindex], a[..]);
    ghost var rest := a[0];
    assert a[..][1..] == others;
    if bestx == 0.0 {
      finite := false;
    } else {
      a[0] := a[0] / x[bestindex][0];
      assert a[..][1..] == others;
      if finite {
        SolvedByBackSubstitution(x, y, a[..], bestindex, rest);
      }
    }
  }

  lemma AllCopied(a: Vector, others: Vector)
    requires |a| == |others| + 1 && a[1..|others| + 1] == others[..|others|]
    ensures a[1..] == others
  {
  }

  lemma SolvedByBackSubstitution(x: Matrix, y: Vector, a: Vector, b: nat, rest: real)
    requires |y| > 0 && Square(x, |y|) && |a| == |y| && Defined(x)
    requires |y| > 1 ==> Solves(ReduceMatrix(x), ReduceVector(x, y), a[1..])
    requires b < |y| && x[b][0] != 0.0
    requires rest == y[b] - Dot(x[b][1..], a[1..]) && a[0] == rest / x[b][0]
    ensures Solves(x, y, a) && forall b | Solves(x, y, b) :: b == a
  {
    DotUnfolds(x[b], a);
    hide *;
    ResidualIs(x, y, a, b);
    assert x[b][0] * a[0] == rest;
    LiftSolution(x, y, a, b);
    forall b | Solves(x, y, b)
      ensures b == a
    {
      SolutionIsUnique(x, y, a, b);
    }
  }

  lemma {:induction false} DotExtends(u: Vector, v: Vector, p: real, q: real)
    requires |u| == |v|
    ensures Dot(u + [p], v + [q]) == Dot(u, v) + p * q
  {
    if u != [] {
      DotExtends(u[1..], v[1..], p, q);
      assert (u + [p])[1..] == u[1..] + [p] && (v + [q])[1..] == v[1..] + [q];
    }
  }
}
