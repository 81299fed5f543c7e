/** First and second derivatives of polynomials, as the estimator of
    libraries/math/mathlib.cpp evaluates them. */
module Derivatives {
  import opened Linear
  import opened Poly
  import opened LeastSquares

  function SlopeAt(c: Vector, x: real): real {
    if c == [] then 0.0 else Eval(c[1..], x) + x * SlopeAt(c[1..], x)
  }

  function AccelAt(c: Vector, x: real): real {
    if c == [] then 0.0 else 2.0 * SlopeAt(c[1..], x) + x * AccelAt(c[1..], x)
  }

  // ----- One more coefficient -----

  lemma {:induction false} EvalExtends(c: Vector, p: real, x: real)
    ensures Eval(c + [p], x) == Eval(c, x) + p * Pow(x, |c|)
  {
    if c == [] {
      assert c + [p] == [p] && [p][1..] == [];
    } else {
      var d := c[1..];
      EvalExtends(d, p, x);
      assert (c + [p])[1..] == d + [p];
      EvalStep(c + [p], x);
      EvalStep(c, x);
      assert Pow(x, |c|) == x * Pow(x, |d|);
      hide Eval, Pow;
      ExtendStep(c[0], x, Eval(d, x), p, Pow(x, |d|));
    }
  }

  lemma ExtendStep(c: real, x: real, e: real, p: real, t: real)
    ensures c + x * (e + p * t) == c + x * e + p * (x * t)
  {
    assert x * (p * t) == p * (x * t);
  }

  function Step(k: real, e: real, x: real, s: real): real {
    k * e + x * s
  }

  function Mix(a: real, p: real, b: real, q: real): real {
    a * p + b * q
  }

  function Monomial(t: real, n: real, p: real): real {
    t * n * p
  }

  lemma SlopeStep(c: Vector, x: real)
    requires c != []
    ensures SlopeAt(c, x) == Step(1.0, Eval(c[1..], x), x, SlopeAt(c[1..], x))
  {
  }

  lemma AccelStep(c: Vector, x: real)
    requires c != []
    ensures AccelAt(c, x) == Step(2.0, SlopeAt(c[1..], x), x, AccelAt(c[1..], x))
  {
  }

  lemma {:induction false} SlopeExtends(c: Vector, p: real, x: real)
    requires |c| > 0
    ensures SlopeAt(c + [p], x) == SlopeAt(c, x) + Monomial(Pow(x, |c| - 1), |c| as real, p)
  {
    var d := c[1..];
    assert (c + [p])[1..] == d + [p];
    SlopeStep(c + [p], x);
    SlopeStep(c, x);
    EvalExtends(d, p, x);
    if d == [] {
      hide Eval, SlopeAt;
      SlopeOfConstant(d, x);
      SlopeOfConstant(d + [p], x);
      assert Eval(d + [p], x) == Eval(d, x) + p;
    } else {
      assert Pow(x, |c| - 1) == x * Pow(x, |c| - 2);
      hide Eval, Pow, SlopeAt, Monomial, Step;
      SlopeExtends(d, p, x);
      SlopeSum(Eval(d, x), x, SlopeAt(d, x), p, Pow(x, |d| - 1), Pow(x, |d|), |d| as real, |c| as real,
               Eval(d + [p], x), SlopeAt(d + [p], x));
    }
  }

  lemma SlopeOfConstant(c: Vector, x: real)
    requires |c| <= 1
    ensures SlopeAt(c, x) == 0.0
  {
  }

  lemma SlopeSum(e: real, x: real, s: real, p: real, t: real, u: real, n: real, m: real,
                 f: real, v: real)
    requires u == x * t && m == n + 1.0
    requires f == e + p * u && v == s + Monomial(t, n, p)
    ensures Step(1.0, f, x, v) == Step(1.0, e, x, s) + Monomial(u, m, p)
  {
    assert x * (t * n * p) == u * n * p;
  }

  lemma {:induction false} AccelExtends(c: Vector, p: real, x: real)
    requires |c| > 1
    ensures AccelAt(c + [p], x) == AccelAt(c, x) + Monomial(Pow(x, |c| - 2), (|c| as real) * ((|c| - 1) as real), p)
  {
    var d := c[1..];
    assert (c + [p])[1..] == d + [p];
    AccelStep(c + [p], x);
    AccelStep(c, x);
    SlopeExtends(d, p, x);
    if |d| == 1 {
      assert Pow(x, 0) == 1.0;
      AccelOfLine(d, x);
      AccelOfLine(d + [p], x);
      hide Pow, SlopeAt, AccelAt;
    } else {
      assert Pow(x, |c| - 2) == x * Pow(x, |c| - 3);
      hide Eval, Pow, SlopeAt, AccelAt, Monomial, Step;
      AccelExtends(d, p, x);
      AccelSum(SlopeAt(d, x), x, AccelAt(d, x), p, Pow(x, |d| - 2), Pow(x, |d| - 1), |d| as real, (|d| - 1) as real,
               |c| as real, SlopeAt(d + [p], x), AccelAt(d + [p], x), (|d| as real) * ((|d| - 1) as real),
               (|c| as real) * ((|c| - 1) as real));
    }
  }

  lemma AccelOfLine(c: Vector, x: real)
    requires |c| <= 2
    ensures AccelAt(c, x) == 0.0
  {
    if |c| == 2 {
      assert SlopeAt(c[1..], x) == 0.0 && AccelAt(c[1..], x) == 0.0;
    }
  }

  lemma AccelSum(s: real, x: real, a: real, p: real, t: real, u: real, n: real, l: real, m: real,
                 f: real, v: real, nl: real, mn: real)
    requires u == x * t && m == n + 1.0 && l == n - 1.0 && nl == n * l && mn == m * n
    requires f == s + Monomial(u, n, p) && v == a + Monomial(t, nl, p)
    ensures Step(2.0, f, x, v) == Step(2.0, s, x, a) + Monomial(u, mn, p)
  {
    assert x * (t * (n * l) * p) == u * (n * l) * p;
    assert 2.0 * (u * n * p) + u * (n * l) * p == u * (m * n) * p;
  }

  // ----- Linear combinations and moved origins -----

  lemma {:induction false} SlopeComb(a: real, u: Vector, b: real, v: Vector, x: real)
    requires |u| == |v|
    ensures SlopeAt(Comb(a, u, b, v), x) == Mix(a, SlopeAt(u, x), b, SlopeAt(v, x))
  {
    if u != [] {
      SlopeComb(a, u[1..], b, v[1..], x);
      assert Eval(Comb(a, u[1..], b, v[1..]), x) == Mix(a, Eval(u[1..], x), b, Eval(v[1..], x)) by {
        EvalComb(a, u[1..], b, v[1..], x);
      }
      var w := Comb(a, u, b, v);
      assert w[1..] == Comb(a, u[1..], b, v[1..]);
      SlopeStep(w, x);
      SlopeStep(u, x);
      SlopeStep(v, x);
      hide Eval, SlopeAt, Comb, Step, Mix;
      MixedSum(a, Eval(u[1..], x), b, Eval(v[1..], x), x, SlopeAt(u[1..], x), SlopeAt(v[1..], x), 1.0,
               Eval(w[1..], x), SlopeAt(w[1..], x));
    }
  }

  lemma {:induction false} AccelComb(a: real, u: Vector, b: real, v: Vector, x: real)
    requires |u| == |v|
    ensures AccelAt(Comb(a, u, b, v), x) == Mix(a, AccelAt(u, x), b, AccelAt(v, x))
  {
    if u != [] {
      AccelComb(a, u[1..], b, v[1..], x);
      SlopeComb(a, u[1..], b, v[1..], x);
      var w := Comb(a, u, b, v);
      assert w[1..] == Comb(a, u[1..], b, v[1..]);
      AccelStep(w, x);
      AccelStep(u, x);
      AccelStep(v, x);
      hide SlopeAt, AccelAt, Comb, Step, Mix;
      MixedSum(a, SlopeAt(u[1..], x), b, SlopeAt(v[1..], x), x, AccelAt(u[1..], x), AccelAt(v[1..], x), 2.0,
               SlopeAt(w[1..], x), AccelAt(w[1..], x));
    }
  }

  lemma MixedSum(a: real, p: real, b: real, q: real, x: real, s: real, t: real, k: real,
                 e: real, d: real)
    requires e == Mix(a, p, b, q) && d == Mix(a, s, b, t)
    ensures Step(k, e, x, d) == Mix(a, Step(k, p, x, s), b, Step(k, q, x, t))
  {
    assert x * (a * s) == a * (x * s) && x * (b * t) == b * (x * t);
    assert k * (a * p) == a * (k * p) && k * (b * q) == b * (k * q);
  }

  lemma {:induction false} DerivativesPadded(c: Vector, x: real)
    ensures SlopeAt(c + [0.0], x) == SlopeAt(c, x) && AccelAt(c + [0.0], x) == AccelAt(c, x)
  {
    if c == [] {
      assert c + [0.0] == [0.0] && [0.0][1..] == [];
    } else {
      DerivativesPadded(c[1..], x);
      assert (c + [0.0])[1..] == c[1..] + [0.0];
      EvalPadded(c[1..], 1, x);
      assert c[1..] + [0.0] == c[1..] + Zero(1);
    }
  }

  /** Moving the origin moves the derivatives along with the polynomial. */
  lemma {:induction false} DerivativesShift(c: Vector, b: real, x: real)
    ensures SlopeAt(Shift(c, b), x - b) == SlopeAt(c, x)
    ensures AccelAt(Shift(c, b), x - b) == AccelAt(c, x)
  {
    if c != [] {
      var d, t := c[1..], x - b;
      DerivativesShift(d, b, x);
      EvalShift(d, b, x);
      var e := Shift(d, b);
      assert Shift(c, b) == Comb(1.0, [c[0]] + e, b, e + [0.0]);
      hide *;
      DerivativesMoved(1.0, c, e, b, x);
    }
  }

  /** Horner's rule around a moved origin, e being the rest of c moved already. */
  lemma DerivativesMoved(a: real, c: Vector, e: Vector, b: real, x: real)
    requires a == 1.0 && |c| == |e| + 1 && Eval(e, x - b) == Eval(c[1..], x)
    requires SlopeAt(e, x - b) == SlopeAt(c[1..], x) && AccelAt(e, x - b) == AccelAt(c[1..], x)
    ensures SlopeAt(Comb(a, [c[0]] + e, b, e + [0.0]), x - b) == SlopeAt(c, x)
    ensures AccelAt(Comb(a, [c[0]] + e, b, e + [0.0]), x - b) == AccelAt(c, x)
  {
    hide *;
    var d, t, f := c[1..], x - b, [c[0]] + e;
    assert f[1..] == e;
    SlopeComb(a, f, b, e + [0.0], t);
    AccelComb(a, f, b, e + [0.0], t);
    DerivativesPadded(e, t);
    SlopeStep(f, t);
    AccelStep(f, t);
    SlopeStep(c, x);
    AccelStep(c, x);
    MovedSum(a, 1.0, Eval(d, x), x, b, SlopeAt(d, x));
    MovedSum(a, 2.0, SlopeAt(d, x), x, b, AccelAt(d, x));
  }

  lemma MovedSum(a: real, k: real, e: real, x: real, b: real, s: real)
    requires a == 1.0
    ensures Mix(a, Step(k, e, x - b, s), b, s) == Step(k, e, x, s)
  {
  }
}
