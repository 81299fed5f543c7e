/** What the Gauss-Jackson tables mean: the ordinate form of a row, and the identities by which
    the sums over a grid reproduce polynomial motion. */
module GaussJacksonSeries {
  import opened Linear
  import opened Poly
  import opened Series
  import opened GaussJacksonKernel

  // ----- Ordinate form -----

  function Deltas(f: Vector): (d: Vector)
    requires f != []
    ensures |d| == |f| - 1 && forall i | 0 <= i < |d| :: d[i] == f[i + 1] - f[i]
  {
    seq(|f| - 1, i requires 0 <= i < |f| - 1 => f[i + 1] - f[i])
  }

  /** The backward differences of all orders at the last entry. */
  function BackDifferences(f: Vector): (d: Vector)
    ensures |d| == |f|
    decreases |f|
  {
    if f == [] then [] else [f[|f| - 1]] + BackDifferences(Deltas(f))
  }

  function AddLast(v: Vector, p: real): (w: Vector)
    requires v != []
    ensures |w| == |v|
  {
    v[..|v| - 1] + [v[|v| - 1] + p]
  }

  /** The weights on the values that stand for the weights `row` on the differences. */
  function Ordinate(row: Vector): (a: Vector)
    ensures |a| == |row|
  {
    if row == [] then []
    else
      var w := Ordinate(row[1..]);
      AddLast(Comb(1.0, [0.0] + w, -1.0, w + [0.0]), row[0])
  }

  lemma DotAddLast(v: Vector, p: real, f: Vector)
    requires |v| == |f| > 0
    ensures Dot(AddLast(v, p), f) == Dot(v, f) + Mul(p, f[|f| - 1])
  {
    hide Dot, Mul;
    var n, w := |v| - 1, AddLast(v, p);
    assert w[..n] == v[..n] && w[n] == v[n] + p;
    DotSplitsLast(v, f);
    DotSplitsLast(w, f);
    LastTerm(v[n], p, f[n], w[n]);
  }

  lemma LastTerm(v: real, p: real, f: real, w: real)
    requires w == v + p
    ensures Mul(w, f) == Mul(v, f) + Mul(p, f)
  {
  }

  lemma DotDeltas(w: Vector, f: Vector)
    requires |w| + 1 == |f|
    ensures Dot(Comb(1.0, [0.0] + w, -1.0, w + [0.0]), f) == Dot(w, Deltas(f))
  {
    hide Dot, Comb;
    var n, z := |w|, w + [0.0];
    DotMinus([0.0] + w, z, f);
    DotOfShifted(w, f);
    assert z[..n] == w && z[n] == 0.0;
    DotSplitsLast(z, f);
    MinusIs(f[1..], f[..n], Deltas(f));
    DotMinus(f[1..], f[..n], w);
  }

  /** The ordinate form of a row gives on every sequence of values what the row gives on its
      differences. */
  lemma {:induction false} OrdinateDot(row: Vector, f: Vector)
    requires |row| == |f|
    ensures Dot(Ordinate(row), f) == Dot(row, BackDifferences(f))
    decreases |row|
  {
    BackDifferencesUnfold(f);
    hide Dot, Comb, Ordinate, BackDifferences, AddLast, Mul;
    if row == [] {
      assert Ordinate(row) == BackDifferences(f) == [];
    } else {
      var w, d := Ordinate(row[1..]), Deltas(f);
      OrdinateUnfolds(row);
      DotSplitsFirst(row, BackDifferences(f));
      OrdinateDot(row[1..], d);
      DotDeltas(w, f);
      DotAddLast(Comb(1.0, [0.0] + w, -1.0, w + [0.0]), row[0], f);
    }
  }

  lemma BackDifferencesUnfold(f: Vector)
    ensures f != [] ==> BackDifferences(f)[1..] == BackDifferences(Deltas(f)) && BackDifferences(f)[0] == f[|f| - 1]
  {
  }

  lemma OrdinateUnfolds(row: Vector)
    requires row != []
    ensures var w := Ordinate(row[1..]);
            Ordinate(row) == AddLast(Comb(1.0, [0.0] + w, -1.0, w + [0.0]), row[0])
  {
  }

  lemma OrdinateEntry(row: Vector, j: nat)
    requires j < |row|
    ensures var w := Ordinate(row[1..]);
      Ordinate(row)[j] == (if j == 0 then 0.0 else w[j - 1]) - (if j < |w| then w[j] else 0.0)
                          + if j == |row| - 1 then row[0] else 0.0
  {
    var w := Ordinate(row[1..]);
    OrdinateUnfolds(row);
    hide Ordinate, Comb;
    DifferenceAt(1.0, [0.0] + w, -1.0, w + [0.0], j);
  }

  lemma DifferenceAt(a: real, u: Vector, b: real, v: Vector, j: nat)
    requires |u| == |v| && j < |u| && a == 1.0 && b == -1.0
    ensures Comb(a, u, b, v)[j] == u[j] - v[j]
  {
    hide Comb;
    CombAt(a, u, b, v, j);
    UnitSum(a, b, u[j], v[j]);
  }

  /** The sum of row[i]*Choose(i, m), with the index counted from i0. */
  function BinomialSum(row: Vector, m: nat, i0: nat): real {
    if row == [] then 0.0 else BinomialTerm(row[0], i0, m) + BinomialSum(row[1..], m, i0 + 1)
  }

  function BinomialTerm(r: real, i: nat, m: nat): real {
    r * (Choose(i, m) as real)
  }

  lemma {:induction false} BinomialSumPascal(row: Vector, m: nat, i0: nat)
    ensures BinomialSum(row, m, i0 + 1)
         == BinomialSum(row, m, i0) + if m == 0 then 0.0 else BinomialSum(row, m - 1, i0)
    decreases row
  {
    hide BinomialTerm, Choose;
    if row != [] {
      BinomialSumPascal(row[1..], m, i0 + 1);
      BinomialTermPascal(row[0], i0, m);
    }
  }

  lemma BinomialTermPascal(r: real, i: nat, m: nat)
    ensures BinomialTerm(r, i + 1, m) == BinomialTerm(r, i, m) + if m == 0 then 0.0 else BinomialTerm(r, i, m - 1)
  {
    PascalRule(i + 1, m);
    hide Choose;
    if m > 0 {
      PascalProduct(r, Choose(i + 1, m), Choose(i, m), Choose(i, m - 1));
    }
  }

  lemma PascalProduct(r: real, a: int, b: int, c: int)
    requires a == b + c
    ensures r * (a as real) == r * (b as real) + r * (c as real)
  {
    assert a as real == b as real + c as real;
  }

  /** The weights are the alternating binomial sums the original computes. */
  lemma {:induction false} OrdinateAt(row: Vector, m: nat)
    requires m < |row|
    ensures Ordinate(row)[|row| - 1 - m] == Mul(Sign(m), BinomialSum(row, m, 0))
    decreases |row|
  {
    var n := |row| - 1;
    var rest := row[1..];
    var w := Ordinate(rest);
    hide Ordinate, BinomialSum, Choose, Comb, Sign, Mul;
    OrdinateEntry(row, n - m);
    BinomialSumStart(row, m);
    BinomialSumPascal(rest, m, 0);
    SignStep(m);
    if m < n {
      OrdinateAt(rest, m);
    } else {
      BinomialSumBeyond(rest, m, 0);
    }
    if m > 0 {
      OrdinateAt(rest, m - 1);
    }
    WeightSum(Sign(m), if m == 0 then 0.0 else Sign(m - 1), BinomialSum(row, m, 0), BinomialSum(rest, m, 0),
              if m == 0 then 0.0 else BinomialSum(rest, m - 1, 0), row[0], m == 0);
  }

  lemma SignStep(m: nat)
    ensures m == 0 ==> Sign(m) == 1.0
    ensures m > 0 ==> Sign(m) == -Sign(m - 1)
  {
  }

  lemma BinomialSumStart(row: Vector, m: nat)
    requires row != []
    ensures BinomialSum(row, m, 0) == (if m == 0 then row[0] else 0.0) + BinomialSum(row[1..], m, 1)
  {
  }

  lemma {:induction false} BinomialSumBeyond(row: Vector, m: nat, i0: nat)
    requires m >= i0 + |row|
    ensures BinomialSum(row, m, i0) == 0.0
    decreases row
  {
    if row != [] {
      BinomialSumBeyond(row[1..], m, i0 + 1);
    }
  }

  lemma WeightSum(s: real, t: real, b: real, p: real, q: real, r: real, first: bool)
    requires b == (if first then r else 0.0) + (p + q)
    requires if first then s == 1.0 && t == 0.0 && q == 0.0 else s == -t
    ensures Mul(s, b) == Mul(s, p) - Mul(t, q) + if first then r else 0.0
  {
  }

  // ----- Rows and nodes -----

  /** Shift a table of differences up by one order; the last difference is zero. */
  function Raised(d: Vector): (e: Vector)
    requires d != []
    ensures |e| == |d|
  {
    d[1..] + [0.0]
  }

  function Delayed(s: Vector): (t: Vector)
    requires s != []
    ensures |t| == |s|
  {
    [0.0] + s[..|s| - 1]
  }

  lemma DotRaised(s: Vector, d: Vector)
    requires |s| == |d| > 0
    ensures Dot(s, Raised(d)) == Dot(Delayed(s), d)
  {
    hide Dot, Mul;
    var n, e := |s| - 1, Raised(d);
    DotSplitsLast(s, e);
    assert e[..n] == d[1..] && e[n] == 0.0;
    MulZero(s[n]);
    DotOfShifted(s[..n], d);
  }

  lemma RaisedTable(f: Vector, x: real, h: real, n: nat)
    requires |f| <= n && n > 0
    ensures Table(f, 1, x, h, n) == Raised(Table(f, 0, x, h, n))
  {
    hide Diff;
    DiffVanishes(f, n, x, h);
    forall i | 0 <= i < n
      ensures Table(f, 1, x, h, n)[i] == Raised(Table(f, 0, x, h, n))[i]
    {
    }
  }

  /** One step back: the series loses its product with the difference. */
  lemma DotStepBack(s: Vector, f: Vector, x: real, h: real)
    requires |f| <= |s| && |s| > 0
    ensures Dot(s, Table(f, 0, x - h, h, |s|))
              == Dot(s, Table(f, 0, x, h, |s|)) - Dot(Delayed(s), Table(f, 0, x, h, |s|))
  {
    hide Dot, Diff;
    DotOfDifference(s, f, 0, x, h);
    RaisedTable(f, x, h, |s|);
    DotRaised(s, Table(f, 0, x, h, |s|));
  }

  lemma DotBacked(s: Vector, d: Vector)
    requires |s| == |d| > 0
    ensures Dot(Backed(s), d) == Dot(s, d) - Dot(Delayed(s), d)
  {
    hide Dot, Comb, Backed, Delayed;
    BackedIsMinus(s);
    DotMinus(s, Delayed(s), d);
  }

  lemma BackedIsMinus(s: Vector)
    requires s != []
    ensures Backed(s) == Comb(1.0, s, -1.0, Delayed(s))
  {
    hide Comb;
    var d := Delayed(s);
    forall i | 0 <= i < |s|
      ensures Backed(s)[i] == s[i] - d[i]
    {
    }
    MinusIs(s, d, Backed(s));
  }

  function Back(x: real, h: real, p: nat): real {
    if p == 0 then x else Back(x, h, p - 1) - h
  }

  /** A row p rows below row `order`, applied at the last node, is row `order` applied p nodes
      earlier. */
  lemma {:induction false} RowAtNode(s: Vector, p: nat, f: Vector, x: real, h: real)
    requires |f| <= |s| && |s| > 0
    ensures Dot(BackPower(s, p), Table(f, 0, x, h, |s|)) == Dot(s, Table(f, 0, Back(x, h, p), h, |s|))
  {
    if p > 0 {
      RowAtNodeStep(s, p, f, x, h);
      BackFirst(x, h, p);
      RowAtNode(s, p - 1, f, x - h, h);
    } else {
      assert BackPower(s, 0) == s;
    }
  }

  lemma RowAtNodeStep(s: Vector, p: nat, f: Vector, x: real, h: real)
    requires |f| <= |s| && |s| > 0 && p > 0
    ensures Dot(BackPower(s, p), Table(f, 0, x, h, |s|)) == Dot(BackPower(s, p - 1), Table(f, 0, x - h, h, |s|))
  {
    var r := BackPower(s, p - 1);
    assert BackPower(s, p) == Backed(r);
    hide Dot, Diff, BackPower;
    DotBacked(r, Table(f, 0, x, h, |s|));
    DotStepBack(r, f, x, h);
  }

  lemma {:induction false} BackFirst(x: real, h: real, p: nat)
    requires p > 0
    ensures Back(x, h, p) == Back(x - h, h, p - 1)
  {
    if p > 1 {
      BackFirst(x, h, p - 1);
    }
  }

  /** The values of f on the nodes up to x: their differences are those of f at x. */
  lemma {:induction false} DifferencesOfNodes(values: Vector, f: Vector, j: nat, x: real, h: real)
    requires forall i | 0 <= i < |values| :: values[i] == Diff(f, j, Back(x, h, |values| - 1 - i), h)
    ensures BackDifferences(values) == Table(f, j, x, h, |values|)
    decreases |values|
  {
    if values != [] {
      var d, n := Deltas(values), |values|;
      forall i | 0 <= i < n - 1
        ensures d[i] == Diff(f, j + 1, Back(x, h, n - 2 - i), h)
      {
        assert Back(x, h, n - 1 - i) == Back(x, h, n - 2 - i) - h;
        DiffStep(f, j + 1, Back(x, h, n - 2 - i), h);
      }
      DifferencesOfNodes(d, f, j + 1, x, h);
      var t := Table(f, j, x, h, n);
      assert t == [t[0]] + Table(f, j + 1, x, h, n - 1);
      assert Back(x, h, 0) == x;
    }
  }

  // ----- Motion -----

  /** The first and second sums' corrections at x, for an acceleration f. */
  function FirstCorrection(k: GjKernel, f: Vector, x: real): real
    requires |k.c| == k.order + 3
  {
    Dot(k.c[1..k.order + 2], Table(f, 0, x, k.dvi, k.order + 1))
  }

  function SecondCorrection(k: GjKernel, f: Vector, x: real): real
    requires |k.q| == k.order + 3
  {
    Dot(k.q[2..], Table(f, 0, x, k.dvi, k.order + 1))
  }

  lemma {:induction false} ConvSumSame(s: Vector, t: Vector, u: Vector, v: Vector, n: nat, m: nat)
    requires n < |t| && n < |v| && m <= n + 1 && m <= |s| && m <= |u|
    requires forall i | 0 <= i < m :: s[i] == u[i]
    requires forall i | 0 <= i <= n :: t[i] == v[i]
    ensures ConvSum(s, t, n, m) == ConvSum(u, v, n, m)
  {
    if m > 0 {
      ConvSumSame(s, t, u, v, n, m - 1);
    }
  }

  lemma ConvPrefix(s: Vector, t: Vector, k: nat)
    requires |s| == |t| && k <= |s|
    ensures Conv(s[..k], t[..k]) == Conv(s, t)[..k]
  {
    hide Conv, ConvSum;
    forall n | 0 <= n < k
      ensures Conv(s[..k], t[..k])[n] == Conv(s, t)[n]
    {
      ConvAt(s, t, n);
      ConvAt(s[..k], t[..k], n);
      ConvSumSame(s, t, s[..k], t[..k], n, n + 1);
    }
  }

  lemma SeriesPrefix(k: GjKernel, m: nat)
    requires IsKernel(k) && m <= k.order + 3
    ensures Conv(k.c[..m], Reciprocals(m)) == Unit(m)
  {
    hide Conv;
    ConvPrefix(k.c, Reciprocals(k.order + 3), m);
    assert Reciprocals(k.order + 3)[..m] == Reciprocals(m);
    assert Unit(k.order + 3)[..m] == Unit(m);
  }

  /** The first coefficients are 1, -1/2 and 1, -1. */
  lemma LeadingCoefficients(k: GjKernel)
    requires IsKernel(k)
    ensures k.c[0] == 1.0 && k.c[1] == -0.5 && k.q[0] == 1.0 && k.q[1] == -1.0
  {
    var r := Reciprocals(k.order + 3);
    ConvAt(k.c, r, 0);
    ConvAt(k.c, r, 1);
    ConvAt(k.c, k.c, 0);
    ConvAt(k.c, k.c, 1);
    hide Conv;
    FirstSums(k.c, r);
    FirstSums(k.c, k.c);
  }

  lemma FirstSums(s: Vector, t: Vector)
    requires |s| == |t| >= 2
    ensures ConvSum(s, t, 0, 1) == s[0] * t[0]
    ensures ConvSum(s, t, 1, 2) == s[0] * t[1] + s[1] * t[0]
  {
    assert ConvSum(s, t, 0, 0) == ConvSum(s, t, 1, 0) == 0.0;
    assert ConvSum(s, t, 1, 1) == s[0] * t[1];
  }

  /** A motion of degree at most order + 2, its velocity and its acceleration. */
  ghost predicate IsMotion(k: GjKernel, p: Vector, v: Vector, f: Vector) {
    IsKernel(k) && |p| <= k.order + 3 && v == Deriv(p) && f == Deriv(v)
  }

  lemma DotPlus(u: Vector, v: Vector, w: Vector)
    requires |u| == |v| == |w|
    ensures Dot(Comb(1.0, u, 1.0, v), w) == Dot(u, w) + Dot(v, w)
  {
    hide *;
    DotUnits(1.0, u, 1.0, v, w);
  }

  lemma CorrectionStep(k: GjKernel, f: Vector, x: real)
    requires IsKernel(k) && |f| <= k.order + 1
    ensures var n, t := k.order, Table(f, 0, x, k.dvi, k.order + 1);
            && FirstCorrection(k, f, x) - FirstCorrection(k, f, x - k.dvi) == Dot(Delayed(k.c[1..n + 2]), t)
            && SecondCorrection(k, f, x) - SecondCorrection(k, f, x - k.dvi) == Dot(Delayed(k.q[2..]), t)
  {
    hide Dot, Diff, Conv;
    DotStepBack(k.c[1..k.order + 2], f, x, k.dvi);
    DotStepBack(k.q[2..], f, x, k.dvi);
  }

  /** The series c applied to the acceleration: the acceleration plus the step of the first
      correction. */
  lemma SeriesOfAcceleration(k: GjKernel, f: Vector, x: real)
    requires IsKernel(k) && |f| <= k.order + 1
    ensures Dot(k.c[..k.order + 1], Table(f, 0, x, k.dvi, k.order + 1))
         == Eval(f, x) + FirstCorrection(k, f, x) - FirstCorrection(k, f, x - k.dvi)
  {
    var n, t := k.order, Table(f, 0, x, k.dvi, k.order + 1);
    CorrectionStep(k, f, x);
    LeadingCoefficients(k);
    DiffStart(f, x, k.dvi);
    hide Dot, Diff, Conv, Mul, FirstCorrection;
    var c1 := k.c[1..n + 2];
    assert c1[..n] == k.c[..n + 1][1..];
    DotSplitsFirst(k.c[..n + 1], t);
    DotOfShifted(c1[..n], t);
    MulOne(t[0]);
  }

  lemma MulOne(p: real)
    ensures Mul(1.0, p) == p
  {
  }

  lemma VelocityStep(k: GjKernel, p: Vector, v: Vector, f: Vector, x: real)
    requires IsMotion(k, p, v, f)
    ensures Eval(v, x) - Eval(v, x - k.dvi)
         == Times(k.dvi, Eval(f, x) + FirstCorrection(k, f, x) - FirstCorrection(k, f, x - k.dvi))
  {
    hide Dot, Conv, Times, FirstCorrection;
    var m := k.order + 1;
    SeriesPrefix(k, m);
    StepOfPolynomial(k.c[..m], v, x, k.dvi);
    DiffStep(v, 1, x, k.dvi);
    DiffStart(v, x, k.dvi);
    DiffStart(v, x - k.dvi, k.dvi);
    SeriesOfAcceleration(k, f, x);
  }

  /** The identity between the series that makes the second sum work. */
  lemma SecondSumSeries(k: GjKernel)
    requires IsKernel(k)
    ensures var n := k.order;
            var c0, c1, q2 := k.c[..n + 1], k.c[1..n + 2], k.q[2..];
            Comb(1.0, Comb(1.0, c0, 1.0, Conv(c1, c0)), 1.0, c1) == Comb(1.0, Delayed(c1), 1.0, Delayed(q2))
  {
    var n := k.order;
    var c0, c1, q2 := k.c[..n + 1], k.c[1..n + 2], k.q[2..];
    hide Conv, Comb, Delayed;
    var l, r := Comb(1.0, Comb(1.0, c0, 1.0, Conv(c1, c0)), 1.0, c1), Comb(1.0, Delayed(c1), 1.0, Delayed(q2));
    forall i | 0 <= i <= n
      ensures l[i] == r[i]
    {
      SumOfThree(c0, Conv(c1, c0), c1, i);
      SumOfTwo(Delayed(c1), Delayed(q2), i);
      SecondSumEntry(k, i);
    }
  }

  lemma SumOfTwo(u: Vector, v: Vector, i: nat)
    requires i < |u| == |v|
    ensures Comb(1.0, u, 1.0, v)[i] == u[i] + v[i]
  {
    hide Comb;
    CombAt(1.0, u, 1.0, v, i);
  }

  lemma SumOfThree(u: Vector, v: Vector, w: Vector, i: nat)
    requires i < |u| == |v| == |w|
    ensures Comb(1.0, Comb(1.0, u, 1.0, v), 1.0, w)[i] == u[i] + v[i] + w[i]
  {
    hide Comb;
    SumOfTwo(u, v, i);
    SumOfTwo(Comb(1.0, u, 1.0, v), w, i);
  }

  lemma SecondSumEntry(k: GjKernel, i: nat)
    requires IsKernel(k) && i <= k.order
    ensures k.c[i] + Conv(k.c[1..k.order + 2], k.c[..k.order + 1])[i] + k.c[i + 1]
         == Delayed(k.c[1..k.order + 2])[i] + Delayed(k.q[2..])[i]
  {
    ProductEntry(k, i);
    LeadingCoefficients(k);
    hide Conv, Delayed;
    DelayedAt(k.c[1..k.order + 2], i);
    DelayedAt(k.q[2..], i);
  }

  lemma DelayedAt(s: Vector, i: nat)
    requires i < |s|
    ensures Delayed(s)[i] == if i == 0 then 0.0 else s[i - 1]
  {
  }

  lemma ProductEntry(k: GjKernel, i: nat)
    requires IsKernel(k) && i <= k.order
    ensures Conv(k.c[1..k.order + 2], k.c[..k.order + 1])[i] == k.q[i + 1] - k.c[i + 1]
  {
    var n := k.order;
    var c0, c1 := k.c[..n + 1], k.c[1..n + 2];
    LeadingCoefficients(k);
    hide Conv, ConvSum;
    ConvAt(c1, c0, i);
    ConvAt(k.c, k.c, i + 1);
    ConvSumFromFront(k.c, k.c, i + 1, i + 2);
    ConvSumSame(c1, c0, k.c[1..], k.c[..n + 2], i, i + 1);
  }

  lemma SecondSumApplied(k: GjKernel, f: Vector, x: real)
    requires IsKernel(k) && |f| <= k.order + 1
    ensures Dot(k.c[..k.order + 1], Table(f, 0, x, k.dvi, k.order + 1))
            + Dot(Conv(k.c[1..k.order + 2], k.c[..k.order + 1]), Table(f, 0, x, k.dvi, k.order + 1))
         == SecondCorrection(k, f, x) - SecondCorrection(k, f, x - k.dvi) - FirstCorrection(k, f, x - k.dvi)
  {
    var n, t := k.order, Table(f, 0, x, k.dvi, k.order + 1);
    var c0, c1, q2 := k.c[..n + 1], k.c[1..n + 2], k.q[2..];
    assert FirstCorrection(k, f, x) == Dot(c1, t);
    hide Dot, Comb, Conv, Delayed, Diff, FirstCorrection, SecondCorrection;
    SecondSumSeries(k);
    CorrectionStep(k, f, x);
    DotPlus(Comb(1.0, c0, 1.0, Conv(c1, c0)), c1, t);
    DotPlus(c0, Conv(c1, c0), t);
    DotPlus(Delayed(c1), Delayed(q2), t);
  }

  /** c without its first term, applied to the velocity's differences. */
  lemma SeriesOfVelocity(k: GjKernel, p: Vector, v: Vector, f: Vector, x: real)
    requires IsMotion(k, p, v, f)
    ensures Dot(k.c[1..k.order + 2], Table(v, 1, x, k.dvi, k.order + 1))
         == Times(k.dvi, Dot(Conv(k.c[1..k.order + 2], k.c[..k.order + 1]), Table(f, 0, x, k.dvi, k.order + 1)))
  {
    var n, h := k.order, k.dvi;
    var c0, c1, t := k.c[..n + 1], k.c[1..n + 2], Table(f, 0, x, h, n + 1);
    var w, a := Table(v, 1, x, h, n + 1), Apply(c0, t);
    SeriesPrefix(k, n + 1);
    hide Dot, Conv, Times, Diff, Apply;
    forall j | 0 <= j <= n
      ensures w[j] == Times(h, a[j])
    {
      StepOfDifference(c0, v, j, x, h);
      ApplyAt(c0, t, j);
      TablePrefix(c0, f, j, x, h);
    }
    DotScaled(c1, a, w, h);
    ApplyComposes(c1, c0, t);
  }

  lemma TablePrefix(c: Vector, f: Vector, j: nat, x: real, h: real)
    requires |f| <= |c| && j < |c|
    ensures Dot(c, Table(f, j, x, h, |c|)) == Dot(c[..|c| - j], Table(f, 0, x, h, |c|)[j..])
  {
    hide Dot, Diff;
    var n, t := |c|, Table(f, j, x, h, |c|);
    forall i | n - j <= i < n
      ensures t[i] == 0.0
    {
      DiffVanishes(f, j + i, x, h);
    }
    DotOfPrefix(c, t, n - j);
    assert t[..n - j] == Table(f, 0, x, h, n)[j..];
  }

  lemma PositionStep(k: GjKernel, p: Vector, v: Vector, f: Vector, x: real)
    requires IsMotion(k, p, v, f)
    ensures Eval(p, x) - Eval(p, x - k.dvi)
         == Times(k.dvi, Eval(v, x - k.dvi)
                         + Times(k.dvi, SecondCorrection(k, f, x) - SecondCorrection(k, f, x - k.dvi)
                                        - FirstCorrection(k, f, x - k.dvi)))
  {
    SeriesOfPosition(k, p, v, f, x);
    SeriesOfVelocity(k, p, v, f, x);
    VelocityStep(k, p, v, f, x);
    SeriesOfAcceleration(k, f, x);
    SecondSumApplied(k, f, x);
    hide Dot, Conv, Times, FirstCorrection, SecondCorrection, Eval, Deriv, IsKernel;
    TimesSum(k.dvi, Dot(k.c[..k.order + 1], Table(f, 0, x, k.dvi, k.order + 1)),
             Dot(Conv(k.c[1..k.order + 2], k.c[..k.order + 1]), Table(f, 0, x, k.dvi, k.order + 1)));
  }

  lemma SeriesOfPosition(k: GjKernel, p: Vector, v: Vector, f: Vector, x: real)
    requires IsMotion(k, p, v, f)
    ensures Eval(p, x) - Eval(p, x - k.dvi)
         == Times(k.dvi, Eval(v, x) + Dot(k.c[1..k.order + 2], Table(v, 1, x, k.dvi, k.order + 1)))
  {
    var n, h := k.order, k.dvi;
    SeriesPrefix(k, n + 2);
    LeadingCoefficients(k);
    hide Dot, Conv, Times, Mul;
    var c2, t := k.c[..n + 2], Table(v, 0, x, h, n + 2);
    StepOfPolynomial(c2, p, x, h);
    DiffStep(p, 1, x, h);
    DiffStart(p, x, h);
    DiffStart(p, x - h, h);
    DiffStart(v, x, h);
    DotSplitsFirst(c2, t);
    MulOne(t[0]);
    assert c2[1..] == k.c[1..n + 2] && t[1..] == Table(v, 1, x, h, n + 1);
  }

  lemma TimesSum(h: real, d: real, e: real)
    ensures Times(h, d) + Times(h, e) == Times(h, d + e)
  {
  }
}
