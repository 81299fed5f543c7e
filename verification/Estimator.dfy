/** The estimator of libraries/math/mathlib.cpp: a bank of overlapping windows over a stream of
    samples, each fitted by the polynomial through its samples. */
module Estimators {
  import opened Numbers
  import opened Linear
  import opened Poly
  import opened LeastSquares
  import opened Derivatives

  datatype Sample = Sample(x: real, y: real)

  /** The coefficient vector of a window: empty until the window is first fitted. */
  datatype Fit = Unfitted | Fitted(coefs: Vector, finite: bool)

  datatype Window = Window(x: Vector, y: Vector, a: Fit)

  function Xs(samples: seq<Sample>, base: real): (v: Vector)
    ensures |v| == |samples|
    ensures forall i | 0 <= i < |v| :: v[i] == samples[i].x - base
  {
    seq(|samples|, i requires 0 <= i < |samples| => samples[i].x - base)
  }

  function Ys(samples: seq<Sample>, base: real): (v: Vector)
    ensures |v| == |samples|
    ensures forall i | 0 <= i < |v| :: v[i] == samples[i].y - base
  {
    seq(|samples|, i requires 0 <= i < |samples| => samples[i].y - base)
  }

  /** The number of the first sample of the first window, after k samples. */
  function Base(k: nat, size: nat, degree: nat): nat {
    Max(0, k - size - degree)
  }

  /** The samples that some window still holds: the last size + degree ones. */
  function Retained(samples: seq<Sample>, size: nat, degree: nat): (kept: seq<Sample>)
    ensures |kept| <= size + degree && |kept| <= |samples| && kept == samples[|samples| - |kept|..]
  {
    samples[Base(|samples|, size, degree)..]
  }

  /** The samples window i covers: at most degree+1 of them, starting at the i-th retained. */
  function Covered(samples: seq<Sample>, size: nat, degree: nat, i: nat): (c: seq<Sample>)
    requires i < Min(|samples|, size)
    ensures |c| <= degree + 1
  {
    var first := Base(|samples|, size, degree) + i;
    samples[first..Min(first + degree + 1, |samples|)]
  }

  /** A fitted window: its coefficients are finite exactly when no x is repeated, and then they
      are the polynomial through its samples. */
  ghost predicate FitOf(w: Window, degree: nat) {
    && w.a.Fitted?
    && |w.x| == |w.y| == |w.a.coefs| == degree + 1
    && (w.a.finite <==> Distinct(w.x))
    && (w.a.finite ==> Interpolates(w.a.coefs, w.x, w.y))
  }

  lemma NewCover(samples: seq<Sample>, s: Sample, size: nat, degree: nat)
    requires |samples| < size
    ensures Covered(samples + [s], size, degree, |samples|) == [s]
  {
  }

  lemma NothingHeld(degree: nat, xbase: real, ybase: real, first: bool)
    ensures Holds(Window([], [], Unfitted), [], degree, xbase, ybase, first)
  {
  }

  /** While the bank fills, a sample joins the windows that have room. */
  lemma GrownCover(samples: seq<Sample>, s: Sample, size: nat, degree: nat, i: nat)
    requires |samples| < size + degree && i < Min(|samples|, size)
    ensures var c := Covered(samples, size, degree, i);
            Covered(samples + [s], size, degree, i) == if |c| < degree + 1 then c + [s] else c
  {
  }

  /** Once it is full, every window takes over the samples of the next, and the last one drops
      its oldest sample. */
  lemma SlidCover(samples: seq<Sample>, s: Sample, size: nat, degree: nat)
    requires size > 0 && |samples| >= size + degree
    ensures var c := Covered(samples, size, degree, size - 1);
            |c| == degree + 1 && Covered(samples + [s], size, degree, size - 1) == c[1..] + [s]
    ensures forall i | 0 <= i < size - 1 ::
              Covered(samples + [s], size, degree, i) == Covered(samples, size, degree, i + 1)
  {
    forall i | 0 <= i < size - 1
      ensures Covered(samples + [s], size, degree, i) == Covered(samples, size, degree, i + 1)
    {
    }
  }

  /** Drop the oldest entry and append a new one, in place. */
  method Slide(v: Vector, next: real) returns (w: Vector)
    requires v != []
    ensures w == v[1..] + [next]
  {
    w := v;
    for i := 0 to |v| - 1
      invariant |w| == |v|
      invariant forall k | 0 <= k < i :: w[k] == v[k + 1]
      invariant forall k | i <= k < |v| :: w[k] == v[k]
    {
      w := w[i := w[i + 1]];
    }
    w := w[|v| - 1 := next];
  }

  /** The window holds the given samples, offset by the bases, and is fitted if it is full
      (unless it was filled by the very first sample). */
  ghost predicate Holds(w: Window, cover: seq<Sample>, degree: nat, xbase: real, ybase: real, first: bool) {
    && w.x == Xs(cover, xbase)
    && w.y == Ys(cover, ybase)
    && (if |cover| == degree + 1 && !first then FitOf(w, degree) else w.a.Unfitted?)
  }

  /** A sample reaches one window of a bank that is still filling. */
  method GrowWindow(w: Window, dx: real, dy: real, degree: nat, ghost cover: seq<Sample>, ghost s: Sample,
                    ghost xbase: real, ghost ybase: real, ghost first: bool) returns (v: Window)
    requires degree <= 4 && |cover| <= degree + 1 && Holds(w, cover, degree, xbase, ybase, first)
    requires dx == s.x - xbase && dy == s.y - ybase
    ensures Holds(v, if |cover| < degree + 1 then cover + [s] else cover, degree, xbase, ybase, false)
  {
    hide Interpolates, Distinct;
    v := w;
    if |v.x| < degree + 1 {
      v := v.(x := v.x + [dx], y := v.y + [dy]);
      assert v.x == Xs(cover + [s], xbase) && v.y == Ys(cover + [s], ybase);
    }
    if |v.x| == degree + 1 && v.a.Unfitted? {
      var a, finite := PolyFit(v.x, v.y);
      v := v.(a := Fitted(a, finite));
    }
  }

  /** A sample replaces the oldest one of a full window. */
  method MoveWindow(w: Window, dx: real, dy: real, degree: nat, ghost cover: seq<Sample>, ghost s: Sample,
                    ghost xbase: real, ghost ybase: real, ghost first: bool) returns (v: Window)
    requires degree <= 4 && |cover| == degree + 1 && Holds(w, cover, degree, xbase, ybase, first)
    requires dx == s.x - xbase && dy == s.y - ybase
    ensures Holds(v, cover[1..] + [s], degree, xbase, ybase, false)
  {
    hide Interpolates, Distinct;
    var x := Slide(w.x, dx);
    var y := Slide(w.y, dy);
    assert x == Xs(cover[1..] + [s], xbase) && y == Ys(cover[1..] + [s], ybase);
    var a, finite := PolyFit(x, y);
    v := Window(x, y, Fitted(a, finite));
  }

  // ----- Reading an estimate back -----

  /** The polynomial and its first two derivatives. */
  function Value(c: Vector, x: real, d: nat): real {
    if d == 0 then Eval(c, x) else if d == 1 then SlopeAt(c, x) else AccelAt(c, x)
  }

  /** The value of one window and its derivatives, by one pass over the coefficients. */
  method WindowValue(a: Vector, x: real) returns (value: Vector)
    requires a != []
    ensures |value| == 3 && forall d | 0 <= d < 3 :: value[d] == Value(a, x, d)
  {
    var degree := |a| - 1;
    var v0, v1, v2 := a[0], if degree > 0 then a[1] else 0.0, if degree > 1 then 2.0 * a[2] else 0.0;
    var tx := 1.0;
    FirstTerms(a, x);
    hide Pow, Eval, SlopeAt, AccelAt, Monomial;
    for j := 1 to degree + 1
      invariant tx == Pow(x, j - 1)
      invariant v0 == Eval(a[..j], x)
      invariant v1 == SlopeAt(a[..Min(j + 1, |a|)], x)
      invariant v2 == AccelAt(a[..Min(j + 2, |a|)], x)
    {
      PowerNext(x, j - 1);
      tx := tx * x;
      NextValue(a, x, j, tx);
      v0 := v0 + tx * a[j];
      if degree > j {
        NextSlope(a, x, j, tx);
        v1 := v1 + tx * ((j + 1) as real) * a[j + 1];
      }
      if degree > j + 1 {
        NextAccel(a, x, j, tx);
        v2 := v2 + tx * ((j + 2) as real) * ((j + 1) as real) * a[j + 2];
      }
    }
    assert a[..|a|] == a;
    value := [v0, v1, v2];
  }

  lemma FirstTerms(a: Vector, x: real)
    requires a != []
    ensures Pow(x, 0) == 1.0
    ensures a[0] == Eval(a[..1], x)
    ensures (if |a| > 1 then a[1] else 0.0) == SlopeAt(a[..Min(2, |a|)], x)
    ensures (if |a| > 2 then 2.0 * a[2] else 0.0) == AccelAt(a[..Min(3, |a|)], x)
  {
    assert a[..|a|] == a;
    if |a| > 1 {
      assert a[..2][1..] == [a[1]] && [a[1]][1..] == [];
      assert SlopeAt([a[1]], x) == 0.0;
    }
    if |a| > 2 {
      var c := a[..3];
      assert c[1..] == [a[1], a[2]] && c[1..][1..] == [a[2]];
      assert [a[2]][1..] == [];
      AccelOfLine(c[1..], x);
      AccelStep(c, x);
      SlopeStep(c[1..], x);
      SlopeStep([a[2]], x);
      assert SlopeAt([], x) == 0.0 && Eval([], x) == 0.0;
      assert SlopeAt([a[2]], x) == 0.0 && Eval([a[2]], x) == a[2];
      assert SlopeAt(c[1..], x) == a[2];
    } else {
      AccelOfLine(a, x);
    }
  }

  lemma NextValue(a: Vector, x: real, j: nat, t: real)
    requires j < |a| && t == Pow(x, j)
    ensures Eval(a[..j + 1], x) == Eval(a[..j], x) + t * a[j]
  {
    hide Eval, Pow;
    EvalExtends(a[..j], a[j], x);
    assert a[..j + 1] == a[..j] + [a[j]];
  }

  lemma NextSlope(a: Vector, x: real, j: nat, t: real)
    requires 0 < j && j + 1 < |a| && t == Pow(x, j)
    ensures SlopeAt(a[..j + 2], x) == SlopeAt(a[..j + 1], x) + t * ((j + 1) as real) * a[j + 1]
  {
    hide SlopeAt, Pow;
    SlopeExtends(a[..j + 1], a[j + 1], x);
    assert a[..j + 2] == a[..j + 1] + [a[j + 1]];
  }

  lemma NextAccel(a: Vector, x: real, j: nat, t: real)
    requires 0 < j && j + 2 < |a| && t == Pow(x, j)
    ensures AccelAt(a[..j + 3], x) == AccelAt(a[..j + 2], x) + t * ((j + 2) as real) * ((j + 1) as real) * a[j + 2]
  {
    hide AccelAt, Pow;
    AccelExtends(a[..j + 2], a[j + 2], x);
    assert a[..j + 3] == a[..j + 2] + [a[j + 2]];
    Reassociate(t, (j + 2) as real, (j + 1) as real, a[j + 2]);
  }

  lemma Reassociate(t: real, m: real, n: real, p: real)
    ensures Monomial(t, m * n, p) == t * m * n * p
  {
  }

  /** The same, with y taken off the value. */
  function Relative(c: Vector, x: real, d: nat, y: real): real {
    Value(c, x, d) - if d == 0 then y else 0.0
  }

  function Total(r: seq<Window>, x: real, d: nat): real
    requires forall w | w in r :: w.a.Fitted?
  {
    if r == [] then 0.0
    else Total(r[..|r| - 1], x, d) + Value(r[|r| - 1].a.coefs, x, d)
  }

  lemma AllFitted(r: seq<Window>, degree: nat)
    requires forall i | 0 <= i < |r| :: FitOf(r[i], degree)
    ensures forall w | w in r :: w.a.Fitted?
  {
  }

  lemma TotalOfNone(x: real)
    ensures forall d: nat :: Total([], x, d) == 0.0
  {
  }

  lemma NextTotal(r: seq<Window>, i: nat, x: real)
    requires i < |r| && forall w | w in r :: w.a.Fitted?
    ensures forall d: nat :: Total(r[..i + 1], x, d) == Total(r[..i], x, d) + Value(r[i].a.coefs, x, d)
  {
    assert r[..i + 1][..i] == r[..i];
  }

  // ----- Sums and variances -----

  function Sum(v: Vector): real {
    if v == [] then 0.0 else Sum(v[..|v| - 1]) + v[|v| - 1]
  }

  function SumOfSquares(v: Vector): real {
    if v == [] then 0.0 else SumOfSquares(v[..|v| - 1]) + Mul(v[|v| - 1], v[|v| - 1])
  }

  /** The sum of the squared distances from m. */
  function Deviation(v: Vector, m: real): real {
    if v == [] then 0.0 else Deviation(v[..|v| - 1], m) + Mul(v[|v| - 1] - m, v[|v| - 1] - m)
  }

  lemma {:induction false} DeviationIs(v: Vector, m: real)
    ensures Deviation(v, m) == SumOfSquares(v) - Mul(2.0 * m, Sum(v)) + Mul(|v| as real, Mul(m, m))
    ensures Deviation(v, m) >= 0.0
  {
    if v == [] {
      MulZero(2.0 * m);
      MulZero(Mul(m, m));
    } else {
      var rest, p := v[..|v| - 1], v[|v| - 1];
      DeviationIs(rest, m);
      DistanceSquared(p, m);
      OneMore(|rest| as real, |v| as real, Mul(m, m));
      MulSum(2.0 * m, Sum(rest), p);
      hide Mul;
    }
  }

  lemma MulSum(p: real, q: real, r: real)
    ensures Mul(p, q + r) == Mul(p, q) + Mul(p, r)
  {
  }

  lemma DistanceSquared(p: real, m: real)
    ensures Mul(p - m, p - m) == Mul(p, p) - Mul(2.0 * m, p) + Mul(m, m)
    ensures Mul(p - m, p - m) >= 0.0
  {
  }

  lemma {:induction false} DeviationOfEqual(v: Vector, m: real)
    requires forall i | 0 <= i < |v| :: v[i] == m
    ensures Deviation(v, m) == 0.0
  {
    if v != [] {
      DeviationOfEqual(v[..|v| - 1], m);
      MulZero(0.0);
      hide Mul;
    }
  }

  /** What the original computes from a sum and a sum of squares is the sum of the squared
      distances from the mean. */
  lemma DeviationFromMean(v: Vector, n: real, m: real)
    requires v != [] && n == |v| as real && m == Sum(v) / n
    ensures SumOfSquares(v) - Mul(Sum(v), Sum(v)) / n == Deviation(v, m)
  {
    DeviationIs(v, m);
    hide Sum, SumOfSquares, Deviation;
    MeanProducts(Sum(v), n, m);
  }

  lemma MeanProducts(s: real, n: real, m: real)
    requires n > 0.0 && m == s / n
    ensures Mul(s, s) / n == Mul(2.0 * m, s) - Mul(n, Mul(m, m))
  {
    assert s == n * m;
    assert (n * m) * (n * m) == n * (n * (m * m));
    assert Mul(s, s) / n == n * (m * m);
  }

  /** The square of one error: the sample variance, with 1 for the degrees of freedom of one
      value. It is never negative. */
  function VarianceOf(v: Vector): (r: real)
    requires v != []
  {
    Deviation(v, Sum(v) / (|v| as real)) / ((if |v| > 1 then |v| - 1 else 1) as real)
  }

  lemma VarianceIs(v: Vector, square: real, sum: real, n: nat)
    requires v != [] && n == |v| && sum == Sum(v) && square == SumOfSquares(v)
    ensures var u := square - Mul(sum, sum) / (n as real);
      u >= 0.0 && VarianceOf(v) == (if n > 1 then u / ((n - 1) as real) else u)
  {
    DeviationFromMean(v, n as real, sum / (n as real));
    DeviationIs(v, sum / (n as real));
    hide Deviation, Sum, SumOfSquares, Mul;
  }

  method Variance(square: real, sum: real, ghost v: Vector, n: nat) returns (variance: real)
    requires v != [] && n == |v| && sum == Sum(v) && square == SumOfSquares(v)
    ensures variance == VarianceOf(v)
  {
    MulIs(sum, sum);
    hide *;
    VarianceIs(v, square, sum, n);
    variance := square - sum * sum / (n as real);
    if variance < 0.0 {
      variance := 0.0;
    }
    if n > 1 {
      variance := variance / ((n - 1) as real);
    }
  }

  lemma MulIs(p: real, q: real)
    ensures Mul(p, q) == p * q
  {
  }

  /** The values of all windows, or of one of their derivatives, at x. */
  function WindowValues(r: seq<Window>, x: real, d: nat): (v: Vector)
    requires forall w | w in r :: w.a.Fitted?
    ensures |v| == |r| && forall i | 0 <= i < |r| :: v[i] == Value(r[i].a.coefs, x, d)
  {
    seq(|r|, i requires 0 <= i < |r| => Value(r[i].a.coefs, x, d))
  }

  lemma {:induction false} TotalIsSum(r: seq<Window>, x: real, d: nat)
    requires forall w | w in r :: w.a.Fitted?
    ensures Total(r, x, d) == Sum(WindowValues(r, x, d))
  {
    hide Value;
    if r != [] {
      TotalIsSum(r[..|r| - 1], x, d);
      assert WindowValues(r, x, d)[..|r| - 1] == WindowValues(r[..|r| - 1], x, d);
    }
  }

  lemma NextSquares(r: seq<Window>, i: nat, x: real, d: nat)
    requires i < |r| && forall w | w in r :: w.a.Fitted?
    ensures SumOfSquares(WindowValues(r[..i + 1], x, d))
         == SumOfSquares(WindowValues(r[..i], x, d)) + Mul(Value(r[i].a.coefs, x, d), Value(r[i].a.coefs, x, d))
  {
    hide Value, Mul;
    assert WindowValues(r[..i + 1], x, d)[..i] == WindowValues(r[..i], x, d);
  }

  /** The sums over the bank of the values and derivatives at x. */
  method SumWindows(r: seq<Window>, degree: nat, x: real) returns (sums: Vector, finite: bool)
    requires forall i | 0 <= i < |r| :: FitOf(r[i], degree)
    requires forall w | w in r :: w.a.Fitted?
    ensures |sums| == 3 && forall d | 0 <= d < 3 :: sums[d] == Total(r, x, d)
    ensures finite <==> forall i | 0 <= i < |r| :: Distinct(r[i].x)
  {
    assert r[..0] == [];
    TotalOfNone(x);
    hide Value, Total, Distinct, Interpolates;
    finite := true;
    var s0, s1, s2 := 0.0, 0.0, 0.0;
    for i := 0 to |r|
      invariant s0 == Total(r[..i], x, 0) && s1 == Total(r[..i], x, 1) && s2 == Total(r[..i], x, 2)
      invariant finite <==> forall k | 0 <= k < i :: Distinct(r[k].x)
    {
      var v := WindowValue(r[i].a.coefs, x);
      NextTotal(r, i, x);
      s0, s1, s2 := s0 + v[0], s1 + v[1], s2 + v[2];
      finite := finite && r[i].a.finite;
    }
    assert r[..|r|] == r;
    sums := [s0, s1, s2];
  }

  /** The sums of their squares. */
  method SumSquares(r: seq<Window>, x: real) returns (squares: Vector)
    requires forall w | w in r :: w.a.Fitted?
    requires forall i | 0 <= i < |r| :: r[i].a.coefs != []
    ensures |squares| == 3 && forall d | 0 <= d < 3 :: squares[d] == SumOfSquares(WindowValues(r, x, d))
  {
    hide *;
    assert r[..0] == [];
    NoSquares(x);
    var s0, s1, s2 := 0.0, 0.0, 0.0;
    for i := 0 to |r|
      invariant s0 == SumOfSquares(WindowValues(r[..i], x, 0))
      invariant s1 == SumOfSquares(WindowValues(r[..i], x, 1))
      invariant s2 == SumOfSquares(WindowValues(r[..i], x, 2))
    {
      var v := WindowValue(r[i].a.coefs, x);
      s0 := AddSquare(s0, v[0], r, i, x, 0);
      s1 := AddSquare(s1, v[1], r, i, x, 1);
      s2 := AddSquare(s2, v[2], r, i, x, 2);
    }
    assert r[..|r|] == r;
    squares := [s0, s1, s2];
  }

  method AddSquare(s: real, v: real, ghost r: seq<Window>, ghost i: nat, ghost x: real, ghost d: nat) returns (t: real)
    requires i < |r| && (forall w | w in r :: w.a.Fitted?) && v == Value(r[i].a.coefs, x, d)
    requires s == SumOfSquares(WindowValues(r[..i], x, d))
    ensures t == SumOfSquares(WindowValues(r[..i + 1], x, d))
  {
    NextSquares(r, i, x, d);
    MulIs(v, v);
    hide *;
    t := s + v * v;
  }

  lemma NoSquares(x: real)
    ensures forall d: nat :: SumOfSquares(WindowValues([], x, d)) == 0.0
  {
  }

  /** Every sample lies on the curve of c, and no x is repeated. */
  ghost predicate OnCurve(samples: seq<Sample>, c: Vector) {
    && (forall i | 0 <= i < |samples| :: samples[i].y == Eval(c, samples[i].x))
    && (forall i, j | 0 <= i < j < |samples| :: samples[i].x != samples[j].x)
  }

  /** c with y taken off its values. */
  function Lowered(c: Vector, y: real): (d: Vector)
    requires c != []
    ensures |d| == |c|
  {
    [c[0] - y] + c[1..]
  }

  lemma LoweredValue(c: Vector, y: real, x: real)
    requires c != []
    ensures Eval(Lowered(c, y), x) == Eval(c, x) - y
    ensures SlopeAt(Lowered(c, y), x) == SlopeAt(c, x) && AccelAt(Lowered(c, y), x) == AccelAt(c, x)
  {
    assert Lowered(c, y)[1..] == c[1..];
    EvalStep(Lowered(c, y), x);
    EvalStep(c, x);
  }

  /** A full window over samples on a curve holds that curve, moved to the bases. */
  lemma WindowOnCurve(w: Window, cover: seq<Sample>, degree: nat, xbase: real, ybase: real, c: Vector, x: real)
    requires Holds(w, cover, degree, xbase, ybase, false) && |cover| == |c| == degree + 1
    requires OnCurve(cover, c)
    ensures Distinct(w.x) && w.a.finite
    ensures forall d | 0 <= d < 3 ::
              Value(w.a.coefs, x - xbase, d) == Relative(c, x, d, ybase)
  {
    var s := Shift(c, xbase);
    var m := Lowered(s, ybase);
    forall i | 0 <= i <= degree
      ensures Eval(m, w.x[i]) == w.y[i]
    {
      LoweredValue(s, ybase, w.x[i]);
      EvalShift(c, xbase, cover[i].x);
    }
    InterpolantIsUnique(w.x, w.y, m, w.a.coefs);
    LoweredValue(s, ybase, x - xbase);
    EvalShift(c, xbase, x);
    DerivativesShift(c, xbase, x);
  }

  lemma {:induction false} TotalOfEqual(r: seq<Window>, x: real, d: nat, v: real)
    requires forall w | w in r :: w.a.Fitted? && Value(w.a.coefs, x, d) == v
    ensures Total(r, x, d) == Mul(|r| as real, v)
  {
    if r != [] {
      hide Value, Mul;
      var init := r[..|r| - 1];
      TotalOfEqual(init, x, d, v);
      assert r[|r| - 1] in r;
      OneMore(|init| as real, |r| as real, v);
    }
  }

  lemma OneMore(m: real, n: real, v: real)
    requires n == m + 1.0
    ensures Mul(m, v) + v == Mul(n, v)
  {
  }

  /** Windows that agree have no variance. */
  lemma AgreeingBank(r: seq<Window>, x: real, d: nat, v: real)
    requires r != [] && forall w | w in r :: w.a.Fitted? && Value(w.a.coefs, x, d) == v
    ensures VarianceOf(WindowValues(r, x, d)) == 0.0
  {
    var n := |r| as real;
    TotalIsSum(r, x, d);
    TotalOfEqual(r, x, d, v);
    QuotientOfProduct(n, v);
    hide Value, Total, Sum, Mul, Deviation;
    DeviationOfEqual(WindowValues(r, x, d), v);
  }

  lemma CoverOnCurve(samples: seq<Sample>, size: nat, degree: nat, i: nat, c: Vector)
    requires i < size && |samples| >= size + degree && OnCurve(Retained(samples, size, degree), c)
    ensures var cover := Covered(samples, size, degree, i); |cover| == degree + 1 && OnCurve(cover, c)
  {
    hide Eval;
  }

  lemma MeanOfEqual(sums: Vector, n: real, c: Vector, x: real, y: real)
    requires |sums| == 3 && n > 0.0
    requires forall d | 0 <= d < 3 :: sums[d] == Mul(n, Relative(c, x, d, y))
    ensures sums[0] / n + y == Value(c, x, 0) && sums[1] / n == Value(c, x, 1) && sums[2] / n == Value(c, x, 2)
  {
    hide Value, Mul;
    QuotientOfProduct(n, Relative(c, x, 0, y));
    QuotientOfProduct(n, Relative(c, x, 1, y));
    QuotientOfProduct(n, Relative(c, x, 2, y));
  }

  lemma QuotientOfProduct(n: real, p: real)
    requires n > 0.0
    ensures Mul(n, p) / n == p
  {
  }

  class EstimatorHandle {
    var r: seq<Window>
    var size: nat
    var degree: nat
    var xbase: real
    var ybase: real
    /** Every sample set since the estimator was opened. */
    ghost var samples: seq<Sample>

    /** What the bank holds is a function of the stream: window i covers the samples it should,
        offset by the first sample, and every full window is fitted. A full window of a
        zero-degree estimator is fitted only by the second call. */
    ghost predicate Valid()
      reads this
    {
      && degree <= 4 && degree <= size
      && |r| == Min(|samples|, size)
      && (samples != [] ==> xbase == samples[0].x && ybase == samples[0].y)
      && forall i | 0 <= i < |r| ::
           Holds(r[i], Covered(samples, size, degree, i), degree, xbase, ybase, degree == 0 && |samples| == 1)
    }

    constructor OpenEstimate(size: nat, degree: nat)
      ensures Valid() && samples == []
      ensures this.degree == Min(degree, 4) && this.size == Max(size, this.degree)
    {
      var d := if degree > 4 then 4 else degree;
      this.degree := d;
      this.size := if size < d then d else size;
      r, samples := [], [];
    }

    /** With no windows at all the original indexes before the start of the bank. */
    method SetEstimate(independent: real, dependent: real) returns (stored: nat)
      requires Valid() && size > 0
      modifies this
      ensures Valid() && size == old(size) && degree == old(degree)
      ensures samples == old(samples) + [Sample(independent, dependent)]
      ensures stored == |r| + |r[|r| - 1].x|
    {
      ghost var was := samples;
      ghost var s := Sample(independent, dependent);
      FullWhen();
      if |r| == size && |r[size - 1].x| == degree + 1 {
        ShiftBank(independent, dependent);
      } else if |r| > 0 {
        GrowBank(independent, dependent);
      } else {
        xbase, ybase := independent, dependent;
        r := [Window([independent - xbase], [dependent - ybase], Unfitted)];
        samples := [s];
        assert Covered(samples, size, degree, 0) == [s];
      }
      stored := |r| + |r[|r| - 1].x|;
    }

    /** The test the original makes on the last window tells whether the bank is full. */
    lemma FullWhen()
      requires Valid() && size > 0
      ensures |r| == size && |r[size - 1].x| == degree + 1 <==> |samples| >= size + degree
    {
      hide FitOf;
      if |r| == size {
        assert Holds(r[size - 1], Covered(samples, size, degree, size - 1), degree, xbase, ybase,
                     degree == 0 && |samples| == 1);
      }
    }

    /** The bank is full: every window moves on by one sample. */
    method ShiftBank(independent: real, dependent: real)
      requires Valid() && size > 0 && |samples| >= size + degree
      modifies this`r, this`samples
      ensures Valid() && samples == old(samples) + [Sample(independent, dependent)]
    {
      hide Holds, Covered;
      ghost var was, bank, s := samples, r, Sample(independent, dependent);
      ghost var first := degree == 0 && |was| == 1;
      samples := samples + [s];
      SlidCover(was, s, size, degree);
      var v := MoveWindow(r[size - 1], independent - xbase, dependent - ybase, degree,
                          Covered(was, size, degree, size - 1), s, xbase, ybase, first);
      ShiftWindows();
      r := r[size - 1 := v];
      forall i | 0 <= i < size
        ensures Holds(r[i], Covered(samples, size, degree, i), degree, xbase, ybase, false)
      {
        if i < size - 1 {
          assert Holds(bank[i + 1], Covered(was, size, degree, i + 1), degree, xbase, ybase, first);
        }
      }
    }

    method ShiftWindows()
      requires |r| > 0 && size == |r|
      modifies this`r
      ensures |r| == size && forall i | 0 <= i < size - 1 :: r[i] == old(r)[i + 1]
    {
      for i := 0 to size - 1
        invariant |r| == size
        invariant forall k | 0 <= k < i :: r[k] == old(r)[k + 1]
        invariant forall k | i <= k < size :: r[k] == old(r)[k]
      {
        r := r[i := r[i + 1]];
      }
    }

    /** The bank is still filling: one more window, and the sample joins every window that is
        not full. */
    method GrowBank(independent: real, dependent: real)
      requires Valid() && size > 0 && |r| > 0 && |samples| < size + degree
      modifies this`r, this`samples
      ensures Valid() && samples == old(samples) + [Sample(independent, dependent)]
    {
      hide Holds, Covered;
      ghost var was, bank := samples, r;
      ghost var s := Sample(independent, dependent);
      samples := samples + [s];
      if |r| < size {
        r := r + [Window([], [], Unfitted)];
      }
      ghost var grown := r;
      assert |grown| == Min(|samples|, size);
      for i := 0 to |r|
        invariant samples == was + [s] && |r| == |grown|
        invariant forall k | i <= k < |r| :: r[k] == grown[k]
        invariant forall k | 0 <= k < i :: Holds(r[k], Covered(samples, size, degree, k), degree, xbase, ybase, false)
      {
        ghost var cover := if i < |bank| then Covered(was, size, degree, i) else [];
        ghost var first := degree == 0 && |was| == 1 && i == 0;
        if i < |bank| {
          GrownCover(was, s, size, degree, i);
        } else {
          NewCover(was, s, size, degree);
          assert cover + [s] == [s];
          NothingHeld(degree, xbase, ybase, first);
        }
        var v := GrowWindow(r[i], independent - xbase, dependent - ybase, degree, cover, s, xbase, ybase, first);
        r := r[i := v];
      }
    }

    /** Every window is fitted: the estimator has enough samples to use its bank. */
    ghost predicate Ready()
      reads this
    {
      |samples| >= size + degree && (degree > 0 || |samples| > 1)
    }

    /** The mean over the bank of the windows' polynomials and derivatives, and the squares of the
        errors, which are the variances of what the windows say. An estimator fed by a polynomial
        of its degree returns that polynomial and its derivatives, everywhere, without error.
        Before that, the mean and the variance of the first window, from which ybase is still
        missing. */
    method GetEstimate(x: real) returns (value: Vector, variance: Vector, finite: bool)
      requires Valid() && size > 0
      ensures |value| == |variance| == 3
      ensures samples == [] ==> value == variance == [0.0, 0.0, 0.0]
      ensures Ready() ==> BankFitted() && forall d | 0 <= d < 3 :: variance[d] == ErrorSquare(x, d)
      ensures Ready() ==>
                (finite <==> forall i | 0 <= i < |r| :: Distinct(r[i].x)) && Reproduces(x, value, variance, finite)
      ensures samples != [] && !Ready() ==>
                var y := Ys(Covered(samples, size, degree, 0), ybase);
                finite && y != [] && value == [Sum(y) / (|y| as real), 0.0, 0.0]
                    && variance == [VarianceOf(y), 0.0, 0.0]
    {
      finite := true;
      value, variance := [0.0, 0.0, 0.0], [0.0, 0.0, 0.0];
      if |r| == 0 {
        return;
      }
      assert |r| > 0 && samples != [];
      hide *;
      FitWhen();
      if |r| == size && r[size - 1].a.Fitted? {
        value, finite := BankMean(x);
        variance := BankVariance(x);
        BankReproduces(x, value, variance, finite);
      } else {
        var mean, error := FirstMean();
        value, variance := [mean, 0.0, 0.0], [error, 0.0, 0.0];
      }
    }

    ghost predicate BankFitted()
      reads this
    {
      |r| == size && forall w | w in r :: w.a.Fitted?
    }

    /** The variance of what the windows say of the value or a derivative at x. */
    ghost function ErrorSquare(x: real, d: nat): real
      requires BankFitted() && size > 0
      reads this
    {
      VarianceOf(WindowValues(r, x - xbase, d))
    }

    lemma BankFittedIs()
      ensures BankFitted() <==> |r| == size && forall w | w in r :: w.a.Fitted?
    {
    }

    /** The estimate is that of any polynomial the retained samples lie on, without error. */
    ghost predicate Reproduces(x: real, value: Vector, variance: Vector, finite: bool)
      requires |value| == |variance| == 3
      reads this
    {
      forall c: Vector | |c| == degree + 1 && OnCurve(Retained(samples, size, degree), c) ::
        finite && forall d | 0 <= d < 3 :: value[d] == Value(c, x, d) && variance[d] == 0.0
    }

    lemma BankReproduces(x: real, value: Vector, variance: Vector, finite: bool)
      requires Valid() && size > 0 && Ready() && |value| == |variance| == 3 && BankFitted()
      requires forall d | 0 <= d < 3 :: variance[d] == ErrorSquare(x, d)
      requires forall c: Vector | |c| == degree + 1 && OnCurve(Retained(samples, size, degree), c) ::
                 finite && forall d | 0 <= d < 3 :: value[d] == Value(c, x, d)
      ensures Reproduces(x, value, variance, finite)
    {
      hide OnCurve, Value, VarianceOf, WindowValues, Holds, Covered, Valid, Ready, BankFitted, ErrorSquare;
      forall c: Vector, d | |c| == degree + 1 && OnCurve(Retained(samples, size, degree), c) && 0 <= d < 3
        ensures variance[d] == 0.0
      {
        NoVariance(c, x, d);
      }
    }

    lemma NoVariance(c: Vector, x: real, d: nat)
      requires Valid() && size > 0 && Ready() && |c| == degree + 1 && OnCurve(Retained(samples, size, degree), c)
      requires d < 3 && BankFitted()
      ensures ErrorSquare(x, d) == 0.0
    {
      BankFittedIs();
      hide Value, VarianceOf, WindowValues, Total, Relative, Mul, Holds, Covered, OnCurve, Valid, Ready, Distinct;
      BankOnCurve(c, x);
      AgreeingBank(r, x - xbase, d, Relative(c, x, d, ybase));
    }

    /** The squares of the errors of a bank that is ready. */
    method BankVariance(x: real) returns (variance: Vector)
      requires Valid() && size > 0 && Ready()
      ensures |variance| == 3 && BankFitted() && forall d | 0 <= d < 3 :: variance[d] == ErrorSquare(x, d)
    {
      hide *;
      var sums, squares := BankSums(x);
      var v0 := VarianceAt(0, squares[0], sums[0], x);
      var v1 := VarianceAt(1, squares[1], sums[1], x);
      var v2 := VarianceAt(2, squares[2], sums[2], x);
      variance := [v0, v1, v2];
    }

    ghost predicate SumsAre(x: real, d: nat, sum: real, square: real)
      reads this
    {
      && BankFitted() && sum == Total(r, x - xbase, d) && square == SumOfSquares(WindowValues(r, x - xbase, d))
    }

    method BankSums(x: real) returns (sums: Vector, squares: Vector)
      requires Valid() && size > 0 && Ready()
      ensures |sums| == |squares| == 3 && BankFitted() && forall d | 0 <= d < 3 :: SumsAre(x, d, sums[d], squares[d])
    {
      ReadyCoefs();
      var finite;
      sums, finite := SumBank(x);
      hide Total, WindowValues, SumOfSquares, Holds, Covered, Distinct;
      squares := SumSquares(r, x - xbase);
    }

    method VarianceAt(ghost d: nat, square: real, sum: real, ghost x: real) returns (variance: real)
      requires size > 0 && BankFitted() && SumsAre(x, d, sum, square)
      ensures variance == ErrorSquare(x, d)
    {
      hide Total, SumOfSquares, WindowValues, Sum, VarianceOf;
      TotalIsSum(r, x - xbase, d);
      variance := Variance(square, sum, WindowValues(r, x - xbase, d), size);
    }

    lemma ReadyCoefs()
      requires Valid() && size > 0 && Ready()
      ensures BankFitted() && forall i | 0 <= i < |r| :: r[i].a.Fitted? && r[i].a.coefs != []
    {
      BankFits();
      AllFitted(r, degree);
      hide Holds, Covered, Interpolates, Distinct;
      forall i | 0 <= i < |r|
        ensures r[i].a.Fitted? && r[i].a.coefs != []
      {
        assert FitOf(r[i], degree);
      }
    }

    method BankMean(x: real) returns (value: Vector, finite: bool)
      requires Valid() && size > 0 && Ready()
      ensures |value| == 3
      ensures finite <==> forall i | 0 <= i < |r| :: Distinct(r[i].x)
      ensures forall c: Vector | |c| == degree + 1 && OnCurve(Retained(samples, size, degree), c) ::
                finite && forall d | 0 <= d < 3 :: value[d] == Value(c, x, d)
    {
      var sums;
      sums, finite := SumBank(x);
      value := [sums[0] / (size as real) + ybase, sums[1] / (size as real), sums[2] / (size as real)];
      hide Value, Total, OnCurve, Distinct;
      forall c: Vector | |c| == degree + 1 && OnCurve(Retained(samples, size, degree), c)
        ensures finite && forall d | 0 <= d < 3 :: value[d] == Value(c, x, d)
      {
        BankOnCurve(c, x);
        MeanOfEqual(sums, size as real, c, x, ybase);
      }
    }

    method SumBank(x: real) returns (sums: Vector, finite: bool)
      requires Valid() && size > 0 && Ready()
      ensures |sums| == 3 && |r| == size && (forall w | w in r :: w.a.Fitted?)
      ensures forall d | 0 <= d < 3 :: sums[d] == Total(r, x - xbase, d)
      ensures finite <==> forall i | 0 <= i < |r| :: Distinct(r[i].x)
    {
      hide *;
      BankFits();
      AllFitted(r, degree);
      sums, finite := SumWindows(r, degree, x - xbase);
    }

    method FirstMean() returns (mean: real, variance: real)
      requires Valid() && size > 0 && samples != []
      ensures var y := Ys(Covered(samples, size, degree, 0), ybase);
        y != [] && mean == Sum(y) / (|y| as real) && variance == VarianceOf(y)
    {
      FitWhen();
      hide Holds, Covered;
      var sum, square := 0.0, 0.0;
      for i := 0 to |r[0].x|
        invariant sum == Sum(r[0].y[..i]) && square == SumOfSquares(r[0].y[..i])
      {
        assert r[0].y[..i + 1][..i] == r[0].y[..i];
        sum := sum + r[0].y[i];
        square := square + r[0].y[i] * r[0].y[i];
      }
      assert r[0].y[..|r[0].x|] == r[0].y;
      mean := sum / (|r[0].x| as real);
      variance := Variance(square, sum, r[0].y, |r[0].x|);
    }

    /** The test the original makes on the last window tells whether the bank can be used, and
        then every window of it is fitted. */
    lemma FitWhen()
      requires Valid() && size > 0 && |r| > 0
      ensures |r| == size && r[size - 1].a.Fitted? <==> Ready()
      ensures |r[0].x| == |r[0].y| > 0 && r[0].y == Ys(Covered(samples, size, degree, 0), ybase)
    {
      hide Interpolates, Distinct;
      var first := degree == 0 && |samples| == 1;
      assert Holds(r[0], Covered(samples, size, degree, 0), degree, xbase, ybase, first);
      if |r| == size {
        assert Holds(r[size - 1], Covered(samples, size, degree, size - 1), degree, xbase, ybase, first);
      }
    }

    lemma BankFits()
      requires Valid() && size > 0 && Ready()
      ensures |r| == size && forall i | 0 <= i < size :: FitOf(r[i], degree)
    {
      hide Interpolates, Distinct;
      forall i | 0 <= i < size
        ensures |r| == size && FitOf(r[i], degree)
      {
        assert Holds(r[i], Covered(samples, size, degree, i), degree, xbase, ybase, false);
      }
    }

    lemma BankOnCurve(c: Vector, x: real)
      requires Valid() && size > 0 && Ready() && |c| == degree + 1 && OnCurve(Retained(samples, size, degree), c)
      ensures |r| == size && forall i | 0 <= i < size :: r[i].a.Fitted? && Distinct(r[i].x)
      ensures forall i, d | 0 <= i < size && 0 <= d < 3 :: Value(r[i].a.coefs, x - xbase, d) == Relative(c, x, d, ybase)
      ensures forall d | 0 <= d < 3 ::
                Total(r, x - xbase, d) == Mul(size as real, Relative(c, x, d, ybase))
    {
      BankFits();
      hide Value, Relative, Mul, Interpolates, Distinct, Holds, Covered, OnCurve;
      forall i | 0 <= i < size
        ensures Distinct(r[i].x)
        ensures forall d | 0 <= d < 3 ::
                  Value(r[i].a.coefs, x - xbase, d) == Relative(c, x, d, ybase)
      {
        CoverOnCurve(samples, size, degree, i, c);
        WindowOnCurve(r[i], Covered(samples, size, degree, i), degree, xbase, ybase, c, x);
      }
      forall d | 0 <= d < 3
        ensures Total(r, x - xbase, d) == Mul(size as real, Relative(c, x, d, ybase))
      {
        TotalOfEqual(r, x - xbase, d, Relative(c, x, d, ybase));
      }
    }
  }
}
