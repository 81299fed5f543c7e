/** Polynomials: evaluation, the bound on the number of roots, and interpolation, after
    `evaluate_poly` and `polyfit` of libraries/math/mathlib.cpp. */
module Poly {
  import opened Linear

  function Pow(x: real, n: nat): real {
    if n == 0 then 1.0 else x * Pow(x, n - 1)
  }

  lemma PowerNext(x: real, k: nat)
    ensures Pow(x, k + 1) == Pow(x, k) * x
  {
  }

  /** c[0] + c[1]*x + c[2]*x^2 + ... */
  function Eval(c: Vector, x: real): real {
    if c == [] then 0.0 else c[0] + x * Eval(c[1..], x)
  }

  lemma {:induction false} EvalZero(n: nat, x: real)
    ensures Eval(Zero(n), x) == 0.0
  {
    if n > 0 {
      assert Zero(n)[1..] == Zero(n - 1);
      EvalZero(n - 1, x);
    }
  }

  lemma {:induction false} EvalComb(a: real, u: Vector, b: real, v: Vector, x: real)
    requires |u| == |v|
    ensures Eval(Comb(a, u, b, v), x) == a * Eval(u, x) + b * Eval(v, x)
  {
    if u != [] {
      EvalComb(a, u[1..], b, v[1..], x);
      assert Comb(a, u, b, v)[1..] == Comb(a, u[1..], b, v[1..]);
      MixedStep(a, u[0], b, v[0], x, Eval(u[1..], x), Eval(v[1..], x));
    }
  }

  lemma MixedStep(a: real, p: real, b: real, q: real, x: real, s: real, t: real)
    ensures a * p + b * q + x * (a * s + b * t) == a * (p + x * s) + b * (q + x * t)
  {
    assert x * (a * s) == a * (x * s) && x * (b * t) == b * (x * t);
  }

  // ----- Horner's rule -----

  /** `evaluate_poly`. The loop index has 16 bits and passes below zero to 65535. A constant
      polynomial is not evaluated: with fewer than two coefficients the answer is zero. */
  method EvaluatePoly(x: real, parms: Vector) returns (result: real)
    requires |parms| <= 0xFFFF
    ensures |parms| != 1 ==> result == Eval(parms, x)
    ensures |parms| == 1 ==> result == 0.0
  {
    if |parms| < 2 {
      return 0.0;
    }
    result := parms[|parms| - 1];
    var i: nat := |parms| - 2;
    while i < |parms|
      invariant i < |parms| - 1 || i == 0xFFFF
      invariant result == Eval(parms[if i == 0xFFFF then 0 else i + 1..], x)
      decreases if i == 0xFFFF then 0 else i + 1
    {
      assert parms[i..][1..] == parms[i + 1..];
      result := result * x;
      result := result + parms[i];
      i := if i == 0 then 0xFFFF else i - 1;
    }
    assert parms[0..] == parms;
  }

  // ----- Roots -----

  /** The quotient of c by x - r. */
  function Quotient(c: Vector, r: real): (q: Vector)
    ensures |q| == if c == [] then 0 else |c| - 1
  {
    if |c| <= 1 then [] else [Eval(c[1..], r)] + Quotient(c[1..], r)
  }

  lemma {:induction false} FactorTheorem(c: Vector, r: real, x: real)
    ensures Eval(c, x) == Eval(c, r) + (x - r) * Eval(Quotient(c, r), x)
    decreases |c|
  {
    hide *;
    if |c| <= 1 {
      ConstantQuotient(c, r, x);
    } else {
      var d := c[1..];
      var q := Quotient(d, r);
      var p := [Eval(d, r)] + q;
      FactorTheorem(d, r, x);
      QuotientStep(c, r);
      assert p[1..] == q;
      EvalStep(p, x);
      EvalStep(c, x);
      EvalStep(c, r);
      FactorStep(c[0], x, r, Eval(d, x), Eval(d, r), Eval(q, x), Eval(c, x), Eval(c, r), Eval(p, x));
    }
  }

  lemma ConstantQuotient(c: Vector, r: real, x: real)
    requires |c| <= 1
    ensures Eval(c, x) == Eval(c, r) && Eval(Quotient(c, r), x) == 0.0
  {
  }

  lemma QuotientStep(c: Vector, r: real)
    requires |c| > 1
    ensures Quotient(c, r) == [Eval(c[1..], r)] + Quotient(c[1..], r)
  {
  }

  lemma EvalStep(c: Vector, x: real)
    requires c != []
    ensures Eval(c, x) == c[0] + x * Eval(c[1..], x)
  {
  }

  lemma FactorStep(c0: real, x: real, r: real, dx: real, dr: real, q: real, cx: real, cr: real, p: real)
    requires dx == dr + (x - r) * q
    requires cx == c0 + x * dx && cr == c0 + r * dr && p == dr + x * q
    ensures cx == cr + (x - r) * p
  {
    assert x * ((x - r) * q) == (x - r) * (x * q);
  }

  lemma {:induction false} ZeroQuotient(c: Vector, r: real)
    requires Quotient(c, r) == Zero(|Quotient(c, r)|) && Eval(c, r) == 0.0
    ensures c == Zero(|c|)
  {
    if |c| > 1 {
      var d := c[1..];
      assert Quotient(c, r)[0] == 0.0;
      assert Quotient(d, r) == Quotient(c, r)[1..] == Zero(|d| - 1);
      ZeroQuotient(d, r);
      assert c == [c[0]] + d;
    }
  }

  lemma SomePoint(points: set<real>) returns (x: real)
    requires points != {}
    ensures x in points
  {
    assert (exists x: real :: x in points) || points == {};
    x :| x in points;
  }

  /** Another root is a root of the quotient. */
  lemma OtherRoot(c: Vector, r: real, x: real)
    requires c != [] && x != r && Eval(c, x) == Eval(c, r) == 0.0
    ensures Eval(Quotient(c, r), x) == 0.0
  {
    FactorTheorem(c, r, x);
    hide Eval, Quotient;
    NoFactor(x - r, Eval(Quotient(c, r), x));
  }

  lemma NoFactor(p: real, q: real)
    requires p != 0.0 && p * q == 0.0
    ensures q == 0.0
  {
  }

  /** A polynomial with as many roots as coefficients is zero. */
  lemma {:induction false} RootBound(c: Vector, roots: set<real>)
    requires |roots| >= |c|
    requires forall x | x in roots :: Eval(c, x) == 0.0
    ensures c == Zero(|c|)
    decreases |c|
  {
    if c != [] {
      var r := SomePoint(roots);
      var q := Quotient(c, r);
      forall x | x in roots - {r}
        ensures Eval(q, x) == 0.0
      {
        OtherRoot(c, r, x);
      }
      RootBound(q, roots - {r});
      ZeroQuotient(c, r);
    }
  }

  /** (x - r) * c. */
  function TimesRoot(c: Vector, r: real): (d: Vector)
    ensures |d| == |c| + 1
  {
    Comb(1.0, [0.0] + c, -r, c + [0.0])
  }

  lemma {:induction false} EvalPadded(c: Vector, n: nat, x: real)
    ensures Eval(c + Zero(n), x) == Eval(c, x)
  {
    if c == [] {
      assert c + Zero(n) == Zero(n);
      EvalZero(n, x);
    } else {
      EvalPadded(c[1..], n, x);
      assert (c + Zero(n))[1..] == c[1..] + Zero(n);
    }
  }

  lemma EvalTimesRoot(c: Vector, r: real, x: real)
    ensures Eval(TimesRoot(c, r), x) == (x - r) * Eval(c, x)
  {
    EvalComb(1.0, [0.0] + c, -r, c + [0.0], x);
    EvalPadded(c, 1, x);
    assert c + [0.0] == c + Zero(1);
    assert ([0.0] + c)[1..] == c;
  }

  /** A polynomial that is not zero but vanishes on the given points, when there are fewer
      points than coefficients. */
  lemma {:induction false} VanishingPolynomial(points: set<real>, n: nat) returns (c: Vector)
    requires |points| < n
    ensures |c| == n && c != Zero(n)
    ensures forall x | x in points :: Eval(c, x) == 0.0
    decreases |points|
  {
    c := MonicWithRoots(points);
    forall x | x in points
      ensures Eval(c + Zero(n - |c|), x) == 0.0
    {
      EvalPadded(c, n - |c|, x);
    }
    assert (c + Zero(n - |c|))[|points|] == 1.0;
    c := c + Zero(n - |c|);
  }

  lemma {:induction false} MonicWithRoots(points: set<real>) returns (c: Vector)
    ensures |c| == |points| + 1 && c[|points|] == 1.0
    ensures forall x | x in points :: Eval(c, x) == 0.0
    decreases |points|
  {
    if points == {} {
      c := [1.0];
    } else {
      var r := SomePoint(points);
      var d := MonicWithRoots(points - {r});
      c := TimesRoot(d, r);
      CombAt(1.0, [0.0] + d, -r, d + [0.0], |d|);
      forall x | x in points
        ensures Eval(c, x) == 0.0
      {
        EvalTimesRoot(d, r, x);
      }
    }
  }

  // ----- Vandermonde systems -----

  function Points(xs: Vector): set<real> {
    set x | x in xs
  }

  predicate Distinct(xs: Vector) {
    forall i, j | 0 <= i < j < |xs| :: xs[i] != xs[j]
  }

  lemma {:induction false} PointsSize(xs: Vector)
    ensures |Points(xs)| <= |xs|
    ensures Distinct(xs) <==> |Points(xs)| == |xs|
  {
    if xs != [] {
      var init, last := xs[..|xs| - 1], xs[|xs| - 1];
      PointsSize(init);
      assert Points(xs) == Points(init) + {last};
      if last in init {
        assert Points(xs) == Points(init);
        assert !Distinct(xs);
      } else {
        assert |Points(xs)| == |Points(init)| + 1;
        assert Distinct(init) ==> Distinct(xs);
        assert Distinct(xs) ==> Distinct(init);
      }
    }
  }

  /** x^k, x^(k+1), ..., n of them. */
  function Powers(x: real, k: nat, n: nat): (p: Vector)
    ensures |p| == n
    decreases n
  {
    if n == 0 then [] else [Pow(x, k)] + Powers(x, k + 1, n - 1)
  }

  lemma {:induction false} PowersAt(x: real, k: nat, n: nat, i: nat)
    requires i < n
    ensures Powers(x, k, n)[i] == Pow(x, k + i)
    decreases n
  {
    if i > 0 {
      PowersAt(x, k + 1, n - 1, i - 1);
    }
  }

  lemma {:induction false} PowersPrefix(x: real, k: nat, n: nat, m: nat)
    requires m <= n
    ensures Powers(x, k, n)[..m] == Powers(x, k, m)
    decreases n
  {
    if m > 0 {
      PowersPrefix(x, k + 1, n - 1, m - 1);
      assert Powers(x, k, n)[..m] == [Pow(x, k)] + Powers(x, k + 1, n - 1)[..m - 1];
    }
  }

  lemma {:induction false} DotPowers(x: real, k: nat, c: Vector)
    ensures Dot(Powers(x, k, |c|), c) == Pow(x, k) * Eval(c, x)
    decreases c
  {
    if c != [] {
      DotPowers(x, k + 1, c[1..]);
      assert Powers(x, k, |c|)[1..] == Powers(x, k + 1, |c| - 1);
      var p := Pow(x, k);
      PowerStep(p, x, c[0], Eval(c[1..], x));
    }
  }

  lemma PowerStep(p: real, x: real, c: real, e: real)
    ensures p * c + (x * p) * e == p * (c + x * e)
  {
    assert (x * p) * e == p * (x * e);
  }

  function Vandermonde(xs: Vector): (m: Matrix)
    ensures Square(m, |xs|)
  {
    seq(|xs|, r requires 0 <= r < |xs| => Powers(xs[r], 0, |xs|))
  }

  predicate Interpolates(c: Vector, xs: Vector, ys: Vector)
    requires |xs| == |ys|
  {
    forall r | 0 <= r < |xs| :: Eval(c, xs[r]) == ys[r]
  }

  lemma SolvesVandermonde(xs: Vector, ys: Vector, c: Vector)
    requires |c| == |xs| == |ys|
    ensures Solves(Vandermonde(xs), ys, c) <==> Interpolates(c, xs, ys)
  {
    forall r | 0 <= r < |xs|
      ensures Dot(Vandermonde(xs)[r], c) == Eval(c, xs[r])
    {
      DotPowers(xs[r], 0, c);
    }
  }

  lemma VandermondeRegular(xs: Vector)
    ensures Regular(Vandermonde(xs)) <==> Distinct(xs)
  {
    var n := |xs|;
    PointsSize(xs);
    if Distinct(xs) {
      forall v: Vector | Solves(Vandermonde(xs), Zero(n), v)
        ensures v == Zero(n)
      {
        SolvesVandermonde(xs, Zero(n), v);
        RootBound(v, Points(xs));
      }
    } else {
      var c := VanishingPolynomial(Points(xs), n);
      SolvesVandermonde(xs, Zero(n), c);
    }
  }

  lemma LeadVandermonde(xs: Vector, k: nat)
    requires k <= |xs|
    ensures Lead(Vandermonde(xs), k) == Vandermonde(xs[..k])
  {
    forall r | 0 <= r < k
      ensures Lead(Vandermonde(xs), k)[r] == Vandermonde(xs[..k])[r]
    {
      PowersPrefix(xs[r], 0, |xs|, k);
    }
  }

  /** The Vandermonde system is solved exactly when no point is repeated. */
  lemma VandermondeDefined(xs: Vector)
    requires |xs| > 0
    ensures Defined(Vandermonde(xs)) <==> Distinct(xs)
  {
    var m := Vandermonde(xs);
    DefinedIffLeadsRegular(m);
    LeadVandermonde(xs, |xs|);
    assert xs[..|xs|] == xs;
    VandermondeRegular(xs);
    forall k | 0 < k <= |xs|
      ensures Regular(Lead(m, k)) <==> Distinct(xs[..k])
    {
      LeadVandermonde(xs, k);
      VandermondeRegular(xs[..k]);
    }
  }

  /** Two polynomials of the same length through the same distinct points are the same. */
  lemma InterpolantIsUnique(xs: Vector, ys: Vector, c: Vector, d: Vector)
    requires |c| == |d| == |xs| == |ys| > 0 && Distinct(xs)
    requires Interpolates(c, xs, ys) && Interpolates(d, xs, ys)
    ensures c == d
  {
    VandermondeDefined(xs);
    SolvesVandermonde(xs, ys, c);
    SolvesVandermonde(xs, ys, d);
    SolutionIsUnique(Vandermonde(xs), ys, c, d);
  }

  // ----- polyfit -----

  /** p/q, with a stand-in value where the original's division leaves an infinity or a NaN. */
  function Ratio(p: real, q: real): (r: real)
    ensures q != 0.0 ==> r * q == p
  {
    if q == 0.0 then 0.0 else p / q
  }

  /** The line through two points. */
  function Line(x: Vector, y: Vector): (a: Vector)
    requires |x| == |y| == 2
    ensures |a| == 2
  {
    var a1 := Ratio(y[1] - y[0], x[1] - x[0]);
    [y[1] - a1 * x[1], a1]
  }

  lemma LineInterpolates(x: Vector, y: Vector)
    requires |x| == |y| == 2 && Distinct(x)
    ensures Interpolates(Line(x, y), x, y)
  {
    var a1 := Ratio(y[1] - y[0], x[1] - x[0]);
    LineAt(a1, x[0], x[1], y[0], y[1]);
    hide Eval, Ratio;
    EvalOfTwo(Line(x, y), x[0]);
    EvalOfTwo(Line(x, y), x[1]);
  }

  lemma LineAt(a1: real, x0: real, x1: real, y0: real, y1: real)
    requires a1 * (x1 - x0) == y1 - y0
    ensures (y1 - a1 * x1) + x0 * a1 == y0 && (y1 - a1 * x1) + x1 * a1 == y1
  {
  }

  lemma EvalOfTwo(c: Vector, x: real)
    requires |c| == 2
    ensures Eval(c, x) == c[0] + x * c[1]
  {
    assert Eval(c[1..], x) == c[1];
  }

  function Horner(a0: real, a1: real, a2: real, a3: real, x: real): real {
    a0 + x * (a1 + x * (a2 + x * a3))
  }

  lemma EvalOfThree(c: Vector, x: real)
    requires |c| == 3
    ensures Eval(c, x) == Horner(c[0], c[1], c[2], 0.0, x)
  {
    EvalOfTwo(c[1..], x);
  }

  lemma EvalOfFour(c: Vector, x: real)
    requires |c| == 4
    ensures Eval(c, x) == Horner(c[0], c[1], c[2], c[3], x)
  {
    EvalOfThree(c[1..], x);
  }

  // Three points: the slope of the first two, then the divided difference of the slopes.

  function Slope(x0: real, x1: real, y0: real, y1: real): real {
    Ratio(y1 - y0, x1 - x0)
  }

  /** Newton's divided difference of three points. */
  function Bend(x: Vector, y: Vector): real
    requires |x| == |y| >= 3
  {
    Ratio(Slope(x[1], x[2], y[1], y[2]) - Slope(x[0], x[1], y[0], y[1]), x[2] - x[0])
  }

  /** The parabola through three points. */
  function Parabola(x: Vector, y: Vector): (a: Vector)
    requires |x| == |y| == 3
    ensures |a| == 3
  {
    var a2 := Ratio(Ratio(y[0] - y[1], x[1] - x[0]) + Ratio(y[2] - y[1], x[2] - x[1]), x[2] - x[0]);
    var a1 := Ratio(y[0] - y[1], x[0] - x[1]) - (a2 * (x[1] + x[0]));
    [-((x[0] * (a1 + (a2 * x[0]))) - y[0]), a1, a2]
  }

  // The lower coefficients of a cubic (of a parabola, when a3 is zero), in terms of the slope m,
  // the divided difference n and a3.

  predicate NewtonSquare(x0: real, x1: real, x2: real, n: real, a2: real, a3: real) {
    a2 == n - a3 * (x1 + x2 + x0)
  }

  predicate NewtonLinear(m: real, u: real, v: real, a1: real, a2: real, a3: real) {
    a1 == m - a2 * u - a3 * v
  }

  function SquareSum(x0: real, x1: real): real {
    x1 * x1 + x1 * x0 + x0 * x0
  }

  predicate NewtonConstant(x0: real, y0: real, a0: real, a1: real, a2: real, a3: real) {
    a0 == -(x0 * (a1 + x0 * (a2 + a3 * x0)) - y0)
  }

  function NewtonValue(x0: real, x1: real, x2: real, y0: real, m: real, n: real, a3: real, x: real): real {
    y0 + (x - x0) * (m + (x - x1) * (n + (x - x2) * a3))
  }

  lemma NewtonForm(x0: real, x1: real, x2: real, y0: real, m: real, n: real,
                   a0: real, a1: real, a2: real, a3: real, x: real)
    requires NewtonSquare(x0, x1, x2, n, a2, a3) && NewtonLinear(m, x1 + x0, SquareSum(x0, x1), a1, a2, a3)
    requires NewtonConstant(x0, y0, a0, a1, a2, a3)
    ensures Horner(a0, a1, a2, a3, x) == NewtonValue(x0, x1, x2, y0, m, n, a3, x)
  {
    hide Horner, NewtonSquare, NewtonLinear, NewtonConstant, SecondFactor, FirstFactor;
    SecondFactorIs(x0, x1, x2, n, a2, a3, x);
    FirstFactorIs(x0, x1, m, a1, a2, a3, x);
    HornerIs(x0, y0, a0, a1, a2, a3, x);
  }

  function SecondFactor(x0: real, x1: real, a2: real, a3: real, x: real): real {
    a2 + a3 * (x + x1 + x0)
  }

  function FirstFactor(x0: real, a1: real, a2: real, a3: real, x: real): real {
    a1 + a2 * (x + x0) + a3 * SquareSum(x, x0)
  }

  lemma SecondFactorIs(x0: real, x1: real, x2: real, n: real, a2: real, a3: real, x: real)
    requires NewtonSquare(x0, x1, x2, n, a2, a3)
    ensures SecondFactor(x0, x1, a2, a3, x) == n + (x - x2) * a3
  {
  }

  lemma FirstFactorIs(x0: real, x1: real, m: real, a1: real, a2: real, a3: real, x: real)
    requires NewtonLinear(m, x1 + x0, SquareSum(x0, x1), a1, a2, a3)
    ensures FirstFactor(x0, a1, a2, a3, x) == m + (x - x1) * SecondFactor(x0, x1, a2, a3, x)
  {
  }

  lemma HornerIs(x0: real, y0: real, a0: real, a1: real, a2: real, a3: real, x: real)
    requires NewtonConstant(x0, y0, a0, a1, a2, a3)
    ensures Horner(a0, a1, a2, a3, x) == y0 + (x - x0) * FirstFactor(x0, a1, a2, a3, x)
  {
  }

  lemma ParabolaInterpolates(x: Vector, y: Vector)
    requires |x| == |y| == 3 && Distinct(x)
    ensures Interpolates(Parabola(x, y), x, y)
  {
    var a := Parabola(x, y);
    ParabolaSquare(x, y);
    ParabolaLinear(x, y);
    ParabolaConstant(x, y);
    DividedDifferences(x, y, 0.0);
    hide Eval, Horner, NewtonValue, Parabola, Bend, Slope, NewtonSquare, NewtonLinear, NewtonConstant;
    var m, n := Slope(x[0], x[1], y[0], y[1]), Bend(x, y);
    forall r | 0 <= r < 3
      ensures Eval(a, x[r]) == y[r]
    {
      EvalOfThree(a, x[r]);
      NewtonForm(x[0], x[1], x[2], y[0], m, n, a[0], a[1], a[2], 0.0, x[r]);
    }
  }

  lemma ParabolaSquare(x: Vector, y: Vector)
    requires |x| == |y| == 3 && Distinct(x)
    ensures NewtonSquare(x[0], x[1], x[2], Bend(x, y), Parabola(x, y)[2], 0.0)
  {
    LastIsBend(x, y);
    hide *;
    NoCube(x[0], x[1], x[2], Bend(x, y), 0.0);
  }

  lemma NoCube(x0: real, x1: real, x2: real, n: real, a3: real)
    requires a3 == 0.0
    ensures NewtonSquare(x0, x1, x2, n, n, a3)
  {
  }

  lemma LastIsBend(x: Vector, y: Vector)
    requires |x| == |y| == 3 && Distinct(x)
    ensures Parabola(x, y)[2] == Bend(x, y)
  {
    var p, q := y[1] - y[0], x[1] - x[0];
    RatioNegated(p, q);
    assert y[0] - y[1] == -p;
    hide Ratio;
  }

  lemma ParabolaLinear(x: Vector, y: Vector)
    requires |x| == |y| == 3 && Distinct(x)
    ensures NewtonLinear(Slope(x[0], x[1], y[0], y[1]), x[1] + x[0], SquareSum(x[0], x[1]),
                         Parabola(x, y)[1], Parabola(x, y)[2], 0.0)
  {
    var p, q := y[1] - y[0], x[1] - x[0];
    RatioNegated(p, q);
    RatioNegated(-p, q);
    assert Ratio(y[0] - y[1], x[0] - x[1]) == Ratio(p, q);
    hide Ratio, SquareSum;
  }

  lemma ParabolaConstant(x: Vector, y: Vector)
    requires |x| == |y| == 3
    ensures NewtonConstant(x[0], y[0], Parabola(x, y)[0], Parabola(x, y)[1], Parabola(x, y)[2], 0.0)
  {
    hide Ratio;
  }

  lemma RatioNegated(p: real, q: real)
    requires q != 0.0
    ensures Ratio(-p, q) == Ratio(p, -q) == -Ratio(p, q)
  {
    Cancel(q, Ratio(-p, q), -Ratio(p, q));
    Cancel(q, Ratio(p, -q), -Ratio(p, q));
  }

  lemma SlopesAndBend(x: Vector, y: Vector)
    requires |x| == |y| >= 3 && x[0] != x[1] && x[1] != x[2] && x[0] != x[2]
    ensures Slope(x[0], x[1], y[0], y[1]) * (x[1] - x[0]) == y[1] - y[0]
    ensures Slope(x[1], x[2], y[1], y[2]) * (x[2] - x[1]) == y[2] - y[1]
    ensures Bend(x, y) * (x[2] - x[0]) == Slope(x[1], x[2], y[1], y[2]) - Slope(x[0], x[1], y[0], y[1])
  {
    hide Ratio;
  }

  lemma DividedDifferences(x: Vector, y: Vector, a3: real)
    requires |x| == |y| >= 3 && x[0] != x[1] && x[1] != x[2] && x[0] != x[2]
    ensures var m, n := Slope(x[0], x[1], y[0], y[1]), Bend(x, y);
            forall r | 0 <= r < 3 :: NewtonValue(x[0], x[1], x[2], y[0], m, n, a3, x[r]) == y[r]
  {
    SlopesAndBend(x, y);
    hide Slope, Bend, NewtonValue;
    NewtonNodes(x[0], x[1], x[2], y[0], y[1], y[2],
                Slope(x[0], x[1], y[0], y[1]), Slope(x[1], x[2], y[1], y[2]), Bend(x, y), a3);
  }

  lemma NewtonNodes(x0: real, x1: real, x2: real, y0: real, y1: real, y2: real, m: real, k: real, n: real, a3: real)
    requires m * (x1 - x0) == y1 - y0 && k * (x2 - x1) == y2 - y1 && n * (x2 - x0) == k - m
    ensures NewtonValue(x0, x1, x2, y0, m, n, a3, x0) == y0
    ensures NewtonValue(x0, x1, x2, y0, m, n, a3, x1) == y1
    ensures NewtonValue(x0, x1, x2, y0, m, n, a3, x2) == y2
  {
    assert (x2 - x0) * ((x2 - x1) * n) == (x2 - x1) * (n * (x2 - x0));
  }

  // Four points: the leading coefficient from one large quotient, the others as before.

  function CubicNumerator(x: Vector, y: Vector): real
    requires |x| == |y| == 4
  {
    ((x[1] - x[0]) * (x[2] - x[0]) * ((y[3] * (x[2] - x[1])) + (y[2] * (x[1] - x[3])) + (y[1] * (x[3] - x[2]))))
    - ((((y[1] - y[0]) * (x[1] - x[2])) + ((x[1] - x[0]) * (y[2] - y[1]))) * (x[1] - x[3]) * (x[2] - x[3]))
  }

  function CubicDenominator(x: Vector): real
    requires |x| == 4
  {
    (x[1] - x[0]) * (x[2] - x[0])
    * ((x[1] * (x[0] - x[3]) * ((x[1] * (x[2] - x[3])) + x[3] * x[3] - x[2] * x[2]))
       + (x[3] * x[2] * ((x[0] * x[2]) + (x[3] * (x[3] - x[0] - x[2])))))
  }

  function CubicSquareTerm(x: Vector, y: Vector, a3: real): real
    requires |x| == |y| == 4
  {
    Ratio(Ratio(y[1] - y[0], x[0] - x[1]) + Ratio(y[2] - y[1], x[2] - x[1]), x[2] - x[0]) - (a3 * (x[1] + x[2] + x[0]))
  }

  function CubicLinearTerm(x: Vector, y: Vector, a2: real, a3: real): real
    requires |x| == |y| == 4
  {
    Ratio(y[0] - y[1] + (a2 * (x[1] * x[1] - x[0] * x[0])) + (a3 * (Pow(x[1], 3) - Pow(x[0], 3))), x[0] - x[1])
  }

  /** The cubic through four points. */
  function Cubic(x: Vector, y: Vector): (a: Vector)
    requires |x| == |y| == 4
    ensures |a| == 4
  {
    var a3 := Ratio(CubicNumerator(x, y), CubicDenominator(x));
    var a2 := CubicSquareTerm(x, y, a3);
    var a1 := CubicLinearTerm(x, y, a2, a3);
    [-((x[0] * (a1 + (x[0] * (a2 + (a3 * x[0]))))) - y[0]), a1, a2, a3]
  }

  lemma CubicInterpolates(x: Vector, y: Vector)
    requires |x| == |y| == 4 && Distinct(x)
    ensures Interpolates(Cubic(x, y), x, y)
  {
    var a := Cubic(x, y);
    CubicSquare(x, y);
    CubicLinear(x, y);
    CubicConstant(x, y);
    CubicLastNode(x, y);
    DividedDifferences(x, y, a[3]);
    hide Eval, Horner, NewtonValue, Cubic, Bend, Slope, NewtonSquare, NewtonLinear, NewtonConstant;
    var m, n := Slope(x[0], x[1], y[0], y[1]), Bend(x, y);
    forall r | 0 <= r < 4
      ensures Eval(a, x[r]) == y[r]
    {
      EvalOfFour(a, x[r]);
      NewtonForm(x[0], x[1], x[2], y[0], m, n, a[0], a[1], a[2], a[3], x[r]);
    }
  }

  lemma CubicSquare(x: Vector, y: Vector)
    requires |x| == |y| == 4 && Distinct(x)
    ensures NewtonSquare(x[0], x[1], x[2], Bend(x, y), Cubic(x, y)[2], Cubic(x, y)[3])
  {
    RatioNegated(y[1] - y[0], x[1] - x[0]);
    hide Ratio, CubicNumerator, CubicDenominator, CubicLinearTerm;
  }

  lemma CubicLinear(x: Vector, y: Vector)
    requires |x| == |y| == 4 && Distinct(x)
    ensures NewtonLinear(Slope(x[0], x[1], y[0], y[1]), x[1] + x[0],
                         SquareSum(x[0], x[1]), Cubic(x, y)[1], Cubic(x, y)[2], Cubic(x, y)[3])
  {
    var a := Cubic(x, y);
    assert a[1] == CubicLinearTerm(x, y, a[2], a[3]);
    CubicLinearQuotient(x, y, a[2], a[3]);
    SlopesAndBend(x, y);
    PowersDiffer(x[0], x[1]);
    hide Cubic, Pow, CubicLinearTerm, NewtonLinear, SlopeEquation, Slope, SquareSum;
    CancelSlope(x[0] - x[1], Slope(x[0], x[1], y[0], y[1]), x[1] + x[0], SquareSum(x[0], x[1]), y[0] - y[1],
                x[1] * x[1] - x[0] * x[0], Pow(x[1], 3) - Pow(x[0], 3), a[1], a[2], a[3]);
  }

  predicate SlopeEquation(d: real, y: real, p: real, c: real, a1: real, a2: real, a3: real) {
    a1 * d == y + a2 * p + a3 * c
  }

  lemma CubicLinearQuotient(x: Vector, y: Vector, a2: real, a3: real)
    requires |x| == |y| == 4 && x[0] != x[1]
    ensures SlopeEquation(x[0] - x[1], y[0] - y[1], x[1] * x[1] - x[0] * x[0], Pow(x[1], 3) - Pow(x[0], 3),
                          CubicLinearTerm(x, y, a2, a3), a2, a3)
  {
    hide Pow;
  }

  lemma CubicConstant(x: Vector, y: Vector)
    requires |x| == |y| == 4
    ensures NewtonConstant(x[0], y[0], Cubic(x, y)[0], Cubic(x, y)[1], Cubic(x, y)[2], Cubic(x, y)[3])
  {
    hide Ratio, CubicNumerator, CubicDenominator, CubicSquareTerm, CubicLinearTerm;
  }

  lemma PowersDiffer(x0: real, x1: real)
    ensures Pow(x1, 3) - Pow(x0, 3) == -((x0 - x1) * SquareSum(x0, x1))
    ensures x1 * x1 - x0 * x0 == -((x0 - x1) * (x1 + x0))
  {
    PowThree(x0);
    PowThree(x1);
    hide Pow;
  }

  lemma PowThree(x: real)
    ensures Pow(x, 3) == x * (x * x)
  {
    assert Pow(x, 1) == x;
    assert Pow(x, 2) == x * Pow(x, 1);
  }

  lemma CancelSlope(d: real, m: real, u: real, v: real, y: real, p: real, c: real, a1: real, a2: real, a3: real)
    requires d != 0.0 && m * -d == -y && p == -(d * u) && c == -(d * v)
    requires SlopeEquation(d, y, p, c, a1, a2, a3)
    ensures NewtonLinear(m, u, v, a1, a2, a3)
  {
    assert d * (m - a2 * u - a3 * v) == m * d - a2 * (d * u) - a3 * (d * v);
    Cancel(d, a1, m - a2 * u - a3 * v);
  }

  function Product(p: real, q: real, r: real): real {
    p * q * r
  }

  function LowDifferences(x: Vector): real
    requires |x| == 4
  {
    Product(x[1] - x[0], x[2] - x[0], x[2] - x[1])
  }

  function HighDifferences(x: Vector): real
    requires |x| == 4
  {
    Product(x[3] - x[0], x[3] - x[1], x[3] - x[2])
  }

  lemma DifferencesNonzero(x: Vector)
    requires |x| == 4
    ensures LowDifferences(x) != 0.0 && HighDifferences(x) != 0.0 <==> Distinct(x)
  {
    hide Product;
    ThreeFactors(x[1] - x[0], x[2] - x[0], x[2] - x[1]);
    ThreeFactors(x[3] - x[0], x[3] - x[1], x[3] - x[2]);
    assert Distinct(x) <==>
           x[0] != x[1] && x[0] != x[2] && x[0] != x[3] && x[1] != x[2] && x[1] != x[3] && x[2] != x[3];
  }

  /** The denominator is the product of the six differences of the points. */
  lemma CubicDenominatorFactors(x: Vector)
    requires |x| == 4
    ensures CubicDenominator(x) == LowDifferences(x) * HighDifferences(x)
  {
    QuarticFactors(x[0], x[1], x[2], x[3]);
    SixFactors(x[1] - x[0], x[2] - x[0], x[3] - x[0], x[2] - x[1], x[3] - x[1], x[3] - x[2]);
  }

  lemma QuarticFactors(x0: real, x1: real, x2: real, x3: real)
    ensures (x1 * (x0 - x3) * ((x1 * (x2 - x3)) + x3 * x3 - x2 * x2)) + (x3 * x2 * ((x0 * x2) + (x3 * (x3 - x0 - x2))))
         == (x3 - x0) * (x2 - x1) * (x3 - x1) * (x3 - x2)
  {
  }

  lemma SixFactors(p: real, q: real, r: real, s: real, t: real, u: real)
    ensures p * q * (r * s * t * u) == (p * q * s) * (r * t * u)
  {
  }

  lemma CubicLeadingTerm(x: Vector, y: Vector)
    requires |x| == |y| == 4 && Distinct(x)
    ensures Cubic(x, y)[3] * (LowDifferences(x) * HighDifferences(x)) == CubicNumerator(x, y)
  {
    assert Cubic(x, y)[3] == Ratio(CubicNumerator(x, y), CubicDenominator(x));
    CubicDenominatorFactors(x);
    CubicDenominatorNonzero(x);
    hide Cubic, CubicDenominator, CubicNumerator, LowDifferences, HighDifferences;
  }

  lemma CubicLastNode(x: Vector, y: Vector)
    requires |x| == |y| == 4 && Distinct(x)
    ensures var m, n := Slope(x[0], x[1], y[0], y[1]), Bend(x, y);
            NewtonValue(x[0], x[1], x[2], y[0], m, n, Cubic(x, y)[3], x[3]) == y[3]
  {
    SlopesAndBend(x, y);
    CubicLeadingTerm(x, y);
    hide *;
    DifferencesNonzero(x);
    var m, k, n := Slope(x[0], x[1], y[0], y[1]), Slope(x[1], x[2], y[1], y[2]), Bend(x, y);
    var a3, w := Cubic(x, y)[3], LastRest(x[1], x[2], x[3], y[1], y[3], k, n);
    CubicNumeratorIs(x, y, m, k, n);
    CancelLow(LowDifferences(x), HighDifferences(x), a3, w);
    LastOfFour(x, y, m, k, n, a3);
  }

  /** What the steps to the second node and through the third leave of the last value. */
  function LastRest(x1: real, x2: real, x3: real, y1: real, y3: real, k: real, n: real): real {
    (y3 - y1) - (x3 - x1) * k - n * ((x1 - x3) * (x2 - x3))
  }

  lemma LastOfFour(x: Vector, y: Vector, m: real, k: real, n: real, a3: real)
    requires |x| == |y| == 4
    requires m * (x[1] - x[0]) == y[1] - y[0] && n * (x[2] - x[0]) == k - m
    requires a3 * HighDifferences(x) == LastRest(x[1], x[2], x[3], y[1], y[3], k, n)
    ensures NewtonValue(x[0], x[1], x[2], y[0], m, n, a3, x[3]) == y[3]
  {
    hide Product, LastRest, NewtonValue;
    LastNode(x[0], x[1], x[2], x[3], y[0], y[1], y[3], m, k, n, a3);
  }

  lemma CancelLow(g: real, h: real, a3: real, w: real)
    requires g != 0.0 && a3 * (g * h) == g * w
    ensures a3 * h == w
  {
    assert a3 * (g * h) == g * (a3 * h);
    Cancel(g, a3 * h, w);
  }

  lemma TwoFactors(p: real, q: real)
    ensures p * q != 0.0 <==> p != 0.0 && q != 0.0
  {
  }

  lemma ThreeFactors(p: real, q: real, r: real)
    ensures Product(p, q, r) != 0.0 <==> p != 0.0 && q != 0.0 && r != 0.0
  {
    TwoFactors(p, q);
    TwoFactors(p * q, r);
  }

  lemma CubicDenominatorNonzero(x: Vector)
    requires |x| == 4
    ensures CubicDenominator(x) != 0.0 <==> Distinct(x)
  {
    CubicDenominatorFactors(x);
    DifferencesNonzero(x);
    hide CubicDenominator, LowDifferences, HighDifferences;
    TwoFactors(LowDifferences(x), HighDifferences(x));
  }

  lemma CubicNumeratorIs(x: Vector, y: Vector, m: real, k: real, n: real)
    requires |x| == |y| == 4
    requires m * (x[1] - x[0]) == y[1] - y[0] && k * (x[2] - x[1]) == y[2] - y[1] && n * (x[2] - x[0]) == k - m
    ensures CubicNumerator(x, y) == LowDifferences(x) * LastRest(x[1], x[2], x[3], y[1], y[3], k, n)
  {
    NumeratorFactors(x[0], x[1], x[2], x[3], y[0], y[1], y[2], y[3], m, k, n);
  }

  lemma NumeratorFactors(x0: real, x1: real, x2: real, x3: real, y0: real, y1: real, y2: real, y3: real,
                         m: real, k: real, n: real)
    requires m * (x1 - x0) == y1 - y0 && k * (x2 - x1) == y2 - y1 && n * (x2 - x0) == k - m
    ensures ((x1 - x0) * (x2 - x0) * ((y3 * (x2 - x1)) + (y2 * (x1 - x3)) + (y1 * (x3 - x2))))
          - ((((y1 - y0) * (x1 - x2)) + ((x1 - x0) * (y2 - y1))) * (x1 - x3) * (x2 - x3))
         == ((x1 - x0) * (x2 - x0) * (x2 - x1)) * ((y3 - y1) - (x3 - x1) * k - n * ((x1 - x3) * (x2 - x3)))
  {
    var d, e, f, p, q := x1 - x0, x2 - x0, x2 - x1, x1 - x3, x2 - x3;
    var v := (y3 - y1) - (x3 - x1) * k;
    assert (y3 * f) + (y2 * p) + (y1 * (x3 - x2)) == f * v by {
      assert (y3 * f) + (y2 * p) + (y1 * (x3 - x2)) == f * (y3 - y1) + p * (y2 - y1);
      assert p * (k * f) == f * (p * k);
    }
    assert ((y1 - y0) * (x1 - x2)) + (d * (y2 - y1)) == d * f * (n * e) by {
      assert (m * d) * (x1 - x2) + d * (k * f) == d * f * (k - m);
    }
    CollectFactors(d, e, f, v, n, p, q);
  }

  lemma CollectFactors(d: real, e: real, f: real, v: real, n: real, p: real, q: real)
    ensures d * e * (f * v) - d * f * (n * e) * p * q == (d * e * f) * (v - n * (p * q))
  {
  }

  lemma LastNode(x0: real, x1: real, x2: real, x3: real, y0: real, y1: real, y3: real, m: real, k: real, n: real,
                 a3: real)
    requires m * (x1 - x0) == y1 - y0 && n * (x2 - x0) == k - m
    requires a3 * Product(x3 - x0, x3 - x1, x3 - x2) == LastRest(x1, x2, x3, y1, y3, k, n)
    ensures NewtonValue(x0, x1, x2, y0, m, n, a3, x3) == y3
  {
    hide Product;
    LastProducts(x3 - x0, x3 - x1, x3 - x2, m, n, a3);
    LastCross(x0, x1, x2, x3, n);
    LastSlopes(x0, x1, x3, m, k);
  }

  lemma LastProducts(r: real, s: real, t: real, m: real, n: real, a3: real)
    ensures r * (m + s * (n + t * a3)) == r * m + n * (r * s) + a3 * Product(r, s, t)
  {
  }

  lemma LastCross(x0: real, x1: real, x2: real, x3: real, n: real)
    ensures n * ((x3 - x0) * (x3 - x1)) - n * ((x1 - x3) * (x2 - x3)) == (x3 - x1) * (n * (x2 - x0))
  {
  }

  lemma LastSlopes(x0: real, x1: real, x3: real, m: real, k: real)
    ensures (x3 - x0) * m + (x3 - x1) * (k - m) - (x3 - x1) * k == m * (x1 - x0)
  {
  }

  /** `polyfit`: closed forms for 2, 3 and 4 points, the Vandermonde system otherwise. */
  method PolyFit(x: Vector, y: Vector) returns (a: Vector, finite: bool)
    requires 0 < |x| == |y| <= 0xFFFF
    ensures |a| == |x|
    ensures finite <==> Distinct(x)
    ensures finite ==> Interpolates(a, x, y)
    ensures finite ==> forall c: Vector | |c| == |x| && Interpolates(c, x, y) :: c == a
  {
    var order := |x| - 1;
    hide Interpolates, Eval, Line, Parabola, Cubic, CubicDenominator;
    if order == 1 {
      a := Line(x, y);
      finite := x[1] - x[0] != 0.0;
      if finite {
        LineInterpolates(x, y);
      }
    } else if order == 2 {
      a := Parabola(x, y);
      finite := x[1] - x[0] != 0.0 && x[2] - x[1] != 0.0 && x[2] - x[0] != 0.0;
      if finite {
        ParabolaInterpolates(x, y);
      }
    } else if order == 3 {
      a := Cubic(x, y);
      finite := CubicDenominator(x) != 0.0 && x[0] - x[1] != 0.0 && x[2] - x[1] != 0.0 && x[2] - x[0] != 0.0;
      CubicDenominatorNonzero(x);
      if finite {
        CubicInterpolates(x, y);
      }
    } else {
      a, finite := FitVandermonde(x, y);
    }
    if finite {
      OnlyInterpolant(x, y, a);
    }
  }

  lemma OnlyInterpolant(x: Vector, y: Vector, a: Vector)
    requires |a| == |x| == |y| > 0 && Distinct(x) && Interpolates(a, x, y)
    ensures forall c: Vector | |c| == |x| && Interpolates(c, x, y) :: c == a
  {
    hide Interpolates, Distinct;
    forall c: Vector | |c| == |x| && Interpolates(c, x, y)
      ensures c == a
    {
      InterpolantIsUnique(x, y, c, a);
    }
  }

  /** The general case: solve for the coefficients. */
  method FitVandermonde(x: Vector, y: Vector) returns (a: Vector, finite: bool)
    requires 0 < |x| == |y| <= 0xFFFF
    ensures |a| == |x|
    ensures finite <==> Distinct(x)
    ensures finite ==> Interpolates(a, x, y)
  {
    hide Defined, Eval, Dot;
    var n := |x|;
    var dx: Matrix := [];
    for r := 0 to n
      invariant dx == Vandermonde(x)[..r]
    {
      var row: Vector := [];
      ghost var powers := Powers(x[r], 0, n);
      for c := 0 to n
        invariant row == powers[..c]
      {
        PowersAt(x[r], 0, n, c);
        assert Pow(x[r], 0) == 1.0 && Pow(x[r], 1) == x[r] && Pow(x[r], 2) == x[r] * Pow(x[r], 1);
        row := row + [if c == 0 then 1.0 else if c == 1 then x[r] else if c == 2 then x[r] * x[r] else Pow(x[r], c)];
        assert row[c] == powers[c];
      }
      assert row == Vandermonde(x)[r];
      dx := dx + [row];
    }
    assert dx == Vandermonde(x);
    VandermondeDefined(x);
    var b := new real[n];
    finite := MultiSolve(dx, y, b);
    a := b[..];
    SolvesVandermonde(x, y, a);
  }
}
