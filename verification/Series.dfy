/** Backward differences of polynomials on a uniform grid, and power series in the difference
    operator: the algebra behind the Gauss-Jackson tables of libraries/math/mathlib.cpp. */
module Series {
  import opened Linear
  import opened Poly

  // ----- Formal derivatives -----

  function Deriv(c: Vector): (d: Vector)
    ensures |d| == if c == [] then 0 else |c| - 1
  {
    if |c| <= 1 then [] else Comb(1.0, c[1..], 1.0, [0.0] + Deriv(c[1..]))
  }

  function Affine(e: real, x: real, s: real): real { e + x * s }

  function Times(h: real, s: real): real { h * s }

  lemma DerivStep(c: Vector, x: real)
    requires c != []
    ensures Eval(Deriv(c), x) == Affine(Eval(c[1..], x), x, Eval(Deriv(c[1..]), x))
  {
    hide Deriv, Eval, Comb, Affine;
    var d := c[1..];
    if d != [] {
      var e := [0.0] + Deriv(d);
      DerivUnfolds(c);
      EvalComb(1.0, d, 1.0, e, x);
      EvalStep(e, x);
      assert e[1..] == Deriv(d);
      AffineSum(Eval(d, x), x, Eval(Deriv(d), x), Eval(e, x), Eval(Deriv(c), x));
    } else {
      assert Deriv(c) == Deriv([]) == [];
      EvalOfNothing(x);
      AffineSum(0.0, x, 0.0, 0.0, 0.0);
    }
  }

  lemma DerivUnfolds(c: Vector)
    requires |c| > 1
    ensures Deriv(c) == Comb(1.0, c[1..], 1.0, [0.0] + Deriv(c[1..]))
  {
  }

  lemma EvalOfNothing(x: real)
    ensures Eval([], x) == 0.0
  {
  }

  lemma AffineSum(e: real, x: real, s: real, t: real, r: real)
    requires t == 0.0 + x * s && r == 1.0 * e + 1.0 * t
    ensures r == Affine(e, x, s)
  {
  }

  // ----- Backward differences -----

  /** The k-th backward difference with step h, at x. */
  function Diff(c: Vector, k: nat, x: real, h: real): real {
    if k == 0 then Eval(c, x) else Diff(c, k - 1, x, h) - Diff(c, k - 1, x - h, h)
  }

  lemma {:induction false} DiffOfNothing(k: nat, x: real, h: real)
    ensures Diff([], k, x, h) == 0.0
  {
    if k > 0 {
      DiffOfNothing(k - 1, x, h);
      DiffOfNothing(k - 1, x - h, h);
    }
  }

  function Leibniz(x: real, q: real, k: real, h: real, p: real): real {
    x * q + k * (h * (p - q))
  }

  /** The product rule for multiplication by x. */
  lemma {:induction false} DiffOfProduct(c: Vector, k: nat, x: real, h: real)
    requires c != [] && k > 0
    ensures Diff(c, k, x, h) == Leibniz(x, Diff(c[1..], k, x, h), k as real, h, Diff(c[1..], k - 1, x, h))
  {
    var d := c[1..];
    DiffStep(c, k, x, h);
    DiffStep(d, k, x, h);
    if k == 1 {
      EvalStep(c, x);
      EvalStep(c, x - h);
      DiffStart(c, x, h);
      DiffStart(c, x - h, h);
      DiffStart(d, x, h);
      DiffStart(d, x - h, h);
      hide Eval, Diff, Leibniz;
      FirstProduct(c[0], x, h, Eval(d, x), Eval(d, x - h), Diff(d, 1, x, h), Diff(c, 1, x, h));
    } else {
      DiffStep(d, k - 1, x, h);
      hide Eval, Diff, Leibniz;
      DiffOfProduct(c, k - 1, x, h);
      DiffOfProduct(c, k - 1, x - h, h);
      NextProduct((k - 1) as real, k as real, x, h, Diff(d, k - 2, x, h), Diff(d, k - 1, x, h),
          Diff(d, k - 2, x - h, h), Diff(d, k - 1, x - h, h), Diff(d, k, x, h));
    }
  }

  lemma DiffStart(c: Vector, x: real, h: real)
    ensures Diff(c, 0, x, h) == Eval(c, x)
  {
  }

  lemma DiffStep(c: Vector, k: nat, x: real, h: real)
    requires k > 0
    ensures Diff(c, k, x, h) == Diff(c, k - 1, x, h) - Diff(c, k - 1, x - h, h)
  {
  }

  lemma FirstProduct(c: real, x: real, h: real, u: real, v: real, w: real, r: real)
    requires w == u - v && r == (c + x * u) - (c + (x - h) * v)
    ensures r == Leibniz(x, w, 1.0, h, u)
  {
  }

  lemma NextProduct(n: real, k: real, x: real, h: real, p: real, q: real, r: real, s: real, t: real)
    requires q == p - r && t == q - s && k == n + 1.0
    ensures Leibniz(x, q, n, h, p) - Leibniz(x - h, s, n, h, r) == Leibniz(x, t, k, h, q)
  {
    assert n * (h * (p - q)) - n * (h * (r - s)) == n * (h * s);
  }

  /** A polynomial with at most k coefficients has no k-th difference. */
  lemma {:induction false} DiffVanishes(c: Vector, k: nat, x: real, h: real)
    requires k >= |c|
    ensures Diff(c, k, x, h) == 0.0
    decreases |c|
  {
    if c == [] {
      DiffOfNothing(k, x, h);
    } else {
      DiffVanishes(c[1..], k - 1, x, h);
      DiffVanishes(c[1..], k, x, h);
      DiffOfProduct(c, k, x, h);
      hide Diff;
    }
  }

  // ----- The derivative as a series of differences -----

  /** The sum of Diff(j+k)/k for k from 1 to m. */
  function Harmonic(c: Vector, j: nat, x: real, h: real, m: nat): real {
    if m == 0 then 0.0 else Harmonic(c, j, x, h, m - 1) + Diff(c, j + m, x, h) / (m as real)
  }

  lemma {:induction false} HarmonicOfProduct(c: Vector, x: real, h: real, m: nat)
    requires c != []
    ensures Harmonic(c, 0, x, h, m) == Telescoped(x, Harmonic(c[1..], 0, x, h, m), h, Diff(c[1..], 0, x, h),
              Diff(c[1..], m, x, h))
  {
    if m > 0 {
      var d := c[1..];
      HarmonicNext(c, x, h, m);
      HarmonicNext(d, x, h, m);
      hide Diff, Harmonic, Leibniz, Telescoped;
      HarmonicOfProduct(c, x, h, m - 1);
      DiffOfProduct(c, m, x, h);
      HarmonicStep(m as real, x, h, Diff(c, m, x, h), Diff(d, 0, x, h), Diff(d, m - 1, x, h), Diff(d, m, x, h),
                   Harmonic(c, 0, x, h, m - 1), Harmonic(d, 0, x, h, m - 1), Harmonic(c, 0, x, h, m),
                       Harmonic(d, 0, x, h, m));
    }
  }

  function Telescoped(x: real, t: real, h: real, u: real, q: real): real {
    x * t + h * (u - q)
  }

  lemma HarmonicNext(c: Vector, x: real, h: real, m: nat)
    requires m > 0
    ensures Harmonic(c, 0, x, h, m) == Harmonic(c, 0, x, h, m - 1) + Diff(c, m, x, h) / (m as real)
  {
  }

  lemma HarmonicStep(m: real, x: real, h: real, e: real, u: real, p: real, q: real, a: real, b: real, s: real, t: real)
    requires m > 0.0 && e == Leibniz(x, q, m, h, p)
    requires a == Telescoped(x, b, h, u, p) && s == a + e / m && t == b + q / m
    ensures s == Telescoped(x, t, h, u, q)
  {
    DivideSum(m, x, q, h * (p - q), e);
    assert x * t == x * b + x * (q / m);
  }

  lemma DivideSum(m: real, x: real, q: real, w: real, e: real)
    requires m > 0.0 && e == x * q + m * w
    ensures e / m == x * (q / m) + w
  {
    var z := q / m;
    assert q == m * z;
    assert e == m * (x * z + w);
    Cancel(m, e / m, x * z + w);
  }

  /** h times the derivative is the sum of the differences, each divided by its order. */
  lemma {:induction false} DerivativeSeries(c: Vector, x: real, h: real, m: nat)
    requires |c| <= m + 1
    ensures Times(h, Eval(Deriv(c), x)) == Harmonic(c, 0, x, h, m)
  {
    if c == [] {
      HarmonicOfNothing(x, h, m);
    } else {
      var d := c[1..];
      HarmonicOfProduct(c, x, h, m);
      DiffVanishes(d, m, x, h);
      DerivStep(c, x);
      DiffStart(d, x, h);
      hide Eval, Diff, Harmonic, Deriv, Affine, Times, Telescoped;
      DerivativeSeries(d, x, h, m);
      ScaleSum(h, Eval(d, x), x, Eval(Deriv(d), x), Harmonic(d, 0, x, h, m));

    }
  }

  lemma HarmonicOfNothing(x: real, h: real, m: nat)
    ensures Harmonic([], 0, x, h, m) == 0.0
  {
    if m > 0 {
      HarmonicOfNothing(x, h, m - 1);
      DiffOfNothing(m, x, h);
    }
  }

  lemma ScaleSum(h: real, e: real, x: real, s: real, t: real)
    requires Times(h, s) == t
    ensures Times(h, Affine(e, x, s)) == Telescoped(x, t, h, e, 0.0)
  {
    assert h * (x * s) == x * (h * s);
  }

  lemma {:induction false} DiffOfDerivative(c: Vector, j: nat, x: real, h: real, m: nat)
    requires |c| <= m + 1
    ensures Times(h, Diff(Deriv(c), j, x, h)) == Harmonic(c, j, x, h, m)
    decreases j
  {
    if j == 0 {
      DerivativeSeries(c, x, h, m);
    } else {
      DiffStep(Deriv(c), j, x, h);
      hide Harmonic, Diff, Deriv, Times;
      DiffOfDerivative(c, j - 1, x, h, m);
      DiffOfDerivative(c, j - 1, x - h, h, m);
      HarmonicDifference(c, j - 1, x, h, m);
      ScaleDifference(h, Diff(Deriv(c), j, x, h), Diff(Deriv(c), j - 1, x, h), Diff(Deriv(c), j - 1, x - h, h));
    }
  }

  lemma ScaleDifference(h: real, p: real, q: real, r: real)
    requires p == q - r
    ensures Times(h, p) == Times(h, q) - Times(h, r)
  {
  }

  lemma {:induction false} HarmonicDifference(c: Vector, j: nat, x: real, h: real, m: nat)
    ensures Harmonic(c, j + 1, x, h, m) == Harmonic(c, j, x, h, m) - Harmonic(c, j, x - h, h, m)
  {
    if m > 0 {
      HarmonicDifference(c, j, x, h, m - 1);
      var p, q := Diff(c, j + m, x, h), Diff(c, j + m, x - h, h);
      assert Diff(c, j + 1 + m, x, h) == p - q;
      hide Diff;
      DivideDifference(m as real, p, q);
    }
  }

  lemma DivideDifference(m: real, p: real, q: real)
    requires m > 0.0
    ensures (p - q) / m == p / m - q / m
  {
  }

  // ----- Power series in the difference operator -----

  /** The differences of order k, k+1, ..., n of them. */
  function Table(c: Vector, k: nat, x: real, h: real, n: nat): (t: Vector)
    ensures |t| == n && forall i | 0 <= i < n :: t[i] == Diff(c, k + i, x, h)
  {
    seq(n, i requires 0 <= i < n => Diff(c, k + i, x, h))
  }

  /** 1, 1/2, 1/3, ... */
  function Reciprocals(n: nat): (t: Vector)
    ensures |t| == n && forall i | 0 <= i < n :: t[i] == 1.0 / ((i + 1) as real)
  {
    seq(n, i requires 0 <= i < n => 1.0 / ((i + 1) as real))
  }

  function Unit(n: nat): (t: Vector)
    ensures |t| == n && forall i | 0 <= i < n :: t[i] == if i == 0 then 1.0 else 0.0
  {
    seq(n, i requires 0 <= i < n => if i == 0 then 1.0 else 0.0)
  }

  /** The series s applied to a polynomial, given by the table d of its differences: the table
      of the result. */
  function Apply(s: Vector, d: Vector): (r: Vector)
    requires |s| == |d|
    ensures |r| == |d|
  {
    if d == [] then [] else [Dot(s, d)] + Apply(s[..|s| - 1], d[1..])
  }

  lemma {:induction false} ApplyAt(s: Vector, d: Vector, j: nat)
    requires |s| == |d| && j < |d|
    ensures Apply(s, d)[j] == Dot(s[..|s| - j], d[j..])
  {
    if j == 0 {
      assert s[..|s|] == s && d[0..] == d;
    } else {
      ApplyAt(s[..|s| - 1], d[1..], j - 1);
      assert s[..|s| - 1][..|s| - j] == s[..|s| - j] && d[1..][j - 1..] == d[j..];
    }
  }

  /** The product of two series, cut off at their length. */
  function Conv(s: Vector, t: Vector): (r: Vector)
    requires |s| == |t|
    ensures |r| == |s|
  {
    if s == [] then [] else Comb(s[0], t, 1.0, [0.0] + Conv(s[1..], t[..|t| - 1]))
  }

  /** s[0]*t[n] + s[1]*t[n-1] + ..., m terms of it. */
  function ConvSum(s: Vector, t: Vector, n: nat, m: nat): real
    requires n < |t| && m <= n + 1 && m <= |s|
  {
    if m == 0 then 0.0 else ConvSum(s, t, n, m - 1) + s[m - 1] * t[n + 1 - m]
  }

  lemma {:induction false} ConvSumFromFront(s: Vector, t: Vector, n: nat, m: nat)
    requires 0 < n < |s| == |t| && 0 < m <= n + 1
    ensures ConvSum(s, t, n, m) == s[0] * t[n] + ConvSum(s[1..], t[..|t| - 1], n - 1, m - 1)
  {
    if m > 1 {
      ConvSumFromFront(s, t, n, m - 1);
    }
  }

  /** Each coefficient of the product is the sum the original's loops compute. */
  lemma {:induction false} ConvAt(s: Vector, t: Vector, n: nat)
    requires n < |s| == |t|
    ensures Conv(s, t)[n] == ConvSum(s, t, n, n + 1)
    decreases n
  {
    var rest := Conv(s[1..], t[..|t| - 1]);
    var u := [0.0] + rest;
    assert Conv(s, t) == Comb(s[0], t, 1.0, u);
    ConvSumStart(s, t);
    hide Comb, Conv, ConvSum;
    CombAt(s[0], t, 1.0, u, n);
    if n > 0 {
      ConvAt(s[1..], t[..|t| - 1], n - 1);
      ConvSumFromFront(s, t, n, n + 1);
      assert u[n] == rest[n - 1];
    }
  }

  lemma ConvSumStart(s: Vector, t: Vector)
    requires |s| == |t| > 0
    ensures ConvSum(s, t, 0, 1) == s[0] * t[0]
  {
    assert ConvSum(s, t, 0, 0) == 0.0;
  }

  lemma {:induction false} DotOfShifted(s: Vector, d: Vector)
    requires |s| + 1 == |d|
    ensures Dot([0.0] + s, d) == Dot(s, d[1..])
  {
    assert ([0.0] + s)[1..] == s;
  }

  /** Applying one series after another applies their product. */
  lemma {:induction false} ApplyComposes(s: Vector, t: Vector, d: Vector)
    requires |s| == |t| == |d|
    ensures Dot(s, Apply(t, d)) == Dot(Conv(s, t), d)
  {
    if s != [] {
      var n := |s| - 1;
      var u := [0.0] + Conv(s[1..], t[..n]);
      assert Apply(t, d)[1..] == Apply(t[..n], d[1..]) && Apply(t, d)[0] == Dot(t, d);
      assert Conv(s, t) == Comb(s[0], t, 1.0, u);
      DotUnfolds(s, Apply(t, d));
      hide Dot, Apply, Conv, Comb;
      ApplyComposes(s[1..], t[..n], d[1..]);
      DotOfShifted(Conv(s[1..], t[..n]), d);
      DotComb(s[0], t, 1.0, u, d);
    }
  }

  lemma {:induction false} DotScaled(u: Vector, v: Vector, w: Vector, h: real)
    requires |u| == |v| == |w|
    requires forall i | 0 <= i < |v| :: w[i] == Times(h, v[i])
    ensures Dot(u, w) == Times(h, Dot(u, v))
  {
    if u != [] {
      assert w[0] == Times(h, v[0]);
      DotUnfolds(u, v);
      DotUnfolds(u, w);
      hide Dot, Times;
      DotScaled(u[1..], v[1..], w[1..], h);
      ScaledTerm(h, u[0], v[0], w[0], Dot(u[1..], v[1..]), Dot(u[1..], w[1..]), Dot(u, v));
    }
  }

  lemma ScaledTerm(h: real, u: real, v: real, w: real, d: real, e: real, r: real)
    requires w == Times(h, v) && e == Times(h, d) && r == u * v + d
    ensures u * w + e == Times(h, r)
  {
    assert u * (h * v) == h * (u * v);
  }

  /** Zeros at the end do not count. */
  lemma {:induction false} DotOfPrefix(u: Vector, v: Vector, k: nat)
    requires |u| == |v| && k <= |v|
    requires forall i | k <= i < |v| :: v[i] == 0.0
    ensures Dot(u, v) == Dot(u[..k], v[..k])
    decreases |v|
  {
    if k == |v| {
      assert u[..k] == u && v[..k] == v;
    } else {
      var n := |v| - 1;
      DotOfPrefix(u[..n], v[..n], k);
      assert u[..n][..k] == u[..k] && v[..n][..k] == v[..k];
      assert u == u[..n] + [u[n]] && v == v[..n] + [0.0];
      DotExtends(u[..n], v[..n], u[n], 0.0);
    }
  }

  lemma {:induction false} HarmonicIsDot(c: Vector, j: nat, x: real, h: real, m: nat)
    ensures Harmonic(c, j, x, h, m) == Dot(Reciprocals(m), Table(c, j + 1, x, h, m))
  {
    if m > 0 {
      HarmonicIsDot(c, j, x, h, m - 1);
      hide Diff;
      var p, q := 1.0 / (m as real), Diff(c, j + m, x, h);
      assert Reciprocals(m) == Reciprocals(m - 1) + [p];
      assert Table(c, j + 1, x, h, m) == Table(c, j + 1, x, h, m - 1) + [q];
      DotExtends(Reciprocals(m - 1), Table(c, j + 1, x, h, m - 1), p, q);
      DivideIsTimes(m as real, q, p);
    }
  }

  lemma DivideIsTimes(m: real, q: real, p: real)
    requires m > 0.0 && p == 1.0 / m
    ensures q / m == p * q
  {
  }

  /** The table of h times the derivative is the series of reciprocals applied to the table of
      the first difference. */
  lemma DerivativeTable(q: Vector, x: real, h: real, m: nat, j: nat)
    requires |q| <= m + 1 && j < m
    ensures Apply(Reciprocals(m), Table(q, 1, x, h, m))[j] == Times(h, Diff(Deriv(q), j, x, h))
  {
    hide Apply, Dot, Diff, Harmonic, Deriv;
    var t := Table(q, 1, x, h, m);
    ApplyAt(Reciprocals(m), t, j);
    assert Reciprocals(m)[..m - j] == Reciprocals(m - j);
    assert t[j..] == Table(q, j + 1, x, h, m - j);
    DiffOfDerivative(q, j, x, h, m);
    HarmonicIsDot(q, j, x, h, m);
    var full := Table(q, j + 1, x, h, m);
    forall i | m - j <= i < m
      ensures full[i] == 0.0
    {
      DiffVanishes(q, j + 1 + i, x, h);
    }
    DotOfPrefix(Reciprocals(m), full, m - j);
    assert full[..m - j] == Table(q, j + 1, x, h, m - j);
  }

  /** If c is the reciprocal of the series 1 + t/2 + t^2/3 + ..., then the step of a polynomial
      from x - h to x is h times the series c applied to its derivative at x. */
  lemma StepOfPolynomial(c: Vector, q: Vector, x: real, h: real)
    requires |q| <= |c| + 1 && Conv(c, Reciprocals(|c|)) == Unit(|c|)
    ensures Diff(q, 1, x, h) == Times(h, Dot(c, Table(Deriv(q), 0, x, h, |c|)))
  {
    hide Apply, Diff, Deriv, Conv, Times;
    var m := |c|;
    var t, v := Table(q, 1, x, h, m), Table(Deriv(q), 0, x, h, m);
    var w := Apply(Reciprocals(m), t);
    forall i | 0 <= i < m
      ensures w[i] == Times(h, v[i])
    {
      DerivativeTable(q, x, h, m, i);
    }
    DotScaled(c, v, w, h);
    ApplyComposes(c, Reciprocals(m), t);
    if m == 0 {
      DiffVanishes(q, 1, x, h);
      TimesZero(h);
    } else {
      DotOfUnit(t);
    }
  }

  lemma TimesZero(h: real)
    ensures Times(h, 0.0) == 0.0
  {
  }

  lemma DotOfUnit(t: Vector)
    requires t != []
    ensures Dot(Unit(|t|), t) == t[0]
  {
    assert Unit(|t|)[1..] == Zero(|t| - 1);
    DotZero(t[1..]);
    DotCommutes(t[1..], Zero(|t| - 1));
  }

  /** The same for the step of any difference. */
  lemma {:induction false} StepOfDifference(c: Vector, q: Vector, j: nat, x: real, h: real)
    requires |q| <= |c| + 1 && Conv(c, Reciprocals(|c|)) == Unit(|c|)
    ensures Diff(q, 1 + j, x, h) == Times(h, Dot(c, Table(Deriv(q), j, x, h, |c|)))
    decreases j
  {
    if j == 0 {
      StepOfPolynomial(c, q, x, h);
    } else {
      StepOfDifference(c, q, j - 1, x, h);
      StepOfDifference(c, q, j - 1, x - h, h);
      DiffStep(q, 1 + j, x, h);
      hide Diff, Dot, Times, Conv;
      DotOfDifference(c, Deriv(q), j - 1, x, h);
      ScaleDifference(h, Dot(c, Table(Deriv(q), j, x, h, |c|)), Dot(c, Table(Deriv(q), j - 1, x, h, |c|)),
                      Dot(c, Table(Deriv(q), j - 1, x - h, h, |c|)));
    }
  }

  lemma DotOfDifference(s: Vector, c: Vector, j: nat, x: real, h: real)
    ensures Dot(s, Table(c, j + 1, x, h, |s|)) == Dot(s, Table(c, j, x, h, |s|)) - Dot(s, Table(c, j, x - h, h, |s|))
  {
    var n := |s|;
    var p, q, r := Table(c, j + 1, x, h, n), Table(c, j, x, h, n), Table(c, j, x - h, h, n);
    hide *;
    forall i | 0 <= i < n
      ensures p[i] == q[i] - r[i]
    {
      DiffStep(c, j + 1 + i, x, h);
    }
    MinusIs(q, r, p);
    DotMinus(q, r, s);
  }

  lemma MinusIs(u: Vector, v: Vector, w: Vector)
    requires |u| == |v| == |w| && forall i | 0 <= i < |w| :: w[i] == u[i] - v[i]
    ensures w == Comb(1.0, u, -1.0, v)
  {
    hide Comb;
    CombIs(1.0, u, -1.0, v, w);
  }

  lemma CombIs(a: real, u: Vector, b: real, v: Vector, w: Vector)
    requires |u| == |v| == |w| && forall i | 0 <= i < |w| :: w[i] == a * u[i] + b * v[i]
    ensures w == Comb(a, u, b, v)
  {
    forall i | 0 <= i < |w|
      ensures w[i] == Comb(a, u, b, v)[i]
    {
      CombAt(a, u, b, v, i);
    }
  }
}
