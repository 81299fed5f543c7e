/** Exactness of the Gauss-Jackson sums: on a uniform grid of a polynomial motion, the rows of the
    integrator give the position and velocity of every node. */
module GaussJacksonMotion {
  import opened Linear
  import opened Poly
  import opened Series
  import opened GaussJacksonKernel
  import opened GaussJacksonSeries

  // ----- The rows of a step -----

  function AddAt(v: Vector, j: nat, p: real): (w: Vector)
    requires j < |v|
    ensures |w| == |v|
  {
    v[j := v[j] + p]
  }

  /** The weights of the second sum for node j. */
  function RowA(k: GjKernel, j: nat): Vector
    requires j < |k.alpha|
  {
    Ordinate(k.alpha[j])
  }

  /** The weights of the first sum for node j, with the half term of the node itself. */
  function RowB(k: GjKernel, j: nat): Vector
    requires j < |k.beta| && |k.beta[j]| == k.order + 1
  {
    if j <= k.order then AddAt(Ordinate(k.beta[j]), j, 0.5) else Ordinate(k.beta[j])
  }

  lemma {:induction false} DotAddAt(v: Vector, j: nat, p: real, f: Vector)
    requires j < |v| == |f|
    ensures Dot(AddAt(v, j, p), f) == Dot(v, f) + Mul(p, f[j])
  {
    var w := AddAt(v, j, p);
    DotSplitsFirst(v, f);
    DotSplitsFirst(w, f);
    hide Dot, Mul;
    if j == 0 {
      assert w[1..] == v[1..];
      LastTerm(v[0], p, f[0], w[0]);
    } else {
      assert w[1..] == AddAt(v[1..], j - 1, p);
      DotAddAt(v[1..], j - 1, p, f[1..]);
    }
  }

  lemma {:induction false} BinomialSumExtends(row: Vector, p: real, m: nat, i0: nat)
    ensures BinomialSum(row + [p], m, i0) == BinomialSum(row, m, i0) + BinomialTerm(p, i0 + |row|, m)
    decreases row
  {
    hide BinomialTerm;
    if row == [] {
      assert BinomialSum([], m, i0 + 1) == 0.0;
      assert [p][1..] == [];
    } else {
      assert (row + [p])[1..] == row[1..] + [p];
      BinomialSumExtends(row[1..], p, m, i0 + 1);
    }
  }

  /** No coefficient is too large, some is too small, and all the numbers they weigh are negative. */
  ghost predicate Overflows(row: Vector, m: nat, binom: seq<int>)
    requires m < |row| <= |binom|
  {
    && (forall i | 0 <= i < |row| :: row[i] < 0.0 && binom[i] <= Choose(i, m))
    && exists i | m <= i < |row| :: binom[i] < Choose(i, m)
  }

  lemma TermOfSmaller(p: real, b: int, i: nat, m: nat)
    ensures b == Choose(i, m) ==> p * (b as real) == BinomialTerm(p, i, m)
    ensures p < 0.0 && b < Choose(i, m) ==> p * (b as real) > BinomialTerm(p, i, m)
  {
    hide Choose;
    var d := (Choose(i, m) - b) as real;
    assert p * (b as real) == BinomialTerm(p, i, m) - p * d;
    if p < 0.0 && d > 0.0 {
      assert p * d < 0.0;
    }
  }

  /** One more number of the row, weighed. */
  lemma WeighOne(row: Vector, m: nat, b: int, i: nat, sum: real)
    requires i < |row|
    ensures var t, u := sum + row[i] * (b as real), BinomialSum(row[..i + 1], m, 0);
      && (b == Choose(i, m) ==> t - u == sum - BinomialSum(row[..i], m, 0))
      && (row[i] < 0.0 && b < Choose(i, m) ==> t - u > sum - BinomialSum(row[..i], m, 0))
  {
    hide *;
    TermOfSmaller(row[i], b, i, m);
    BinomialSumExtends(row[..i], row[i], m, 0);
    assert row[..i + 1] == row[..i] + [row[i]];
  }

  /** One weight: the alternating binomial sum of a row of differences. */
  method Weight(row: Vector, m: nat, binom: seq<int>) returns (w: real)
    requires m < |row| <= |binom|
    ensures (forall i | 0 <= i < |row| :: binom[i] == Choose(i, m)) ==> w == Ordinate(row)[|row| - 1 - m]
    ensures Overflows(row, m, binom) ==> w != Ordinate(row)[|row| - 1 - m]
  {
    hide Ordinate, BinomialSum, Choose, BinomialTerm;
    ghost var fits := forall i | 0 <= i < |row| :: binom[i] == Choose(i, m);
    ghost var wraps := Overflows(row, m, binom);
    ghost var below := false;
    var sum := 0.0;
    BinomialSumBeyond(row[..m], m, 0);
    for i := m to |row|
      invariant fits ==> sum == BinomialSum(row[..i], m, 0)
      invariant wraps ==> if below then sum > BinomialSum(row[..i], m, 0) else sum == BinomialSum(row[..i], m, 0)
      invariant forall l | m <= l < i && binom[l] < Choose(l, m) :: below
    {
      WeighOne(row, m, binom[i], i, sum);
      below := below || binom[i] < Choose(i, m);
      sum := sum + row[i] * (binom[i] as real);
    }
    assert row[..|row|] == row;
    OrdinateAt(row, m);
    SignedSum(m, sum);
    SignedSum(m, BinomialSum(row, m, 0));
    w := if m % 2 == 0 then sum else -sum;
  }

  lemma SignedSum(m: nat, sum: real)
    ensures Mul(Sign(m), sum) == if m % 2 == 0 then sum else -sum
  {
  }

  /** The two rows of node j. They are the ordinate forms of the tables' rows for orders up to 33;
      for larger orders a wrapped binomial coefficient makes the row of node `order` wrong. */
  method StepRows(k: GjKernel, j: nat) returns (a: array<real>, b: array<real>)
    requires IsKernel(k) && j < k.order + 2
    ensures a.Length == b.Length == k.order + 1
    ensures k.order <= 33 ==> a[..] == RowA(k, j) && b[..] == RowB(k, j)
    ensures j == k.order ==> (b[..] == RowB(k, j) <==> k.order <= 33)
    ensures fresh(a) && fresh(b)
  {
    var n := k.order;
    hide Ordinate, BackPower, Conv, PartialSum, Overflows;
    a := new real[n + 1](_ => 0.0);
    b := new real[n + 1](_ => 0.0);
    for m := 0 to n + 1
      invariant n <= 33 ==> forall l | n + 1 - m <= l <= n :: a[l] == RowA(k, j)[l] && b[l] == RowB(k, j)[l]
      invariant j == n > 33 && m > 17 ==> b[n - 17] != RowB(k, j)[n - 17]
    {
      assert IsBinomialRow(k.binom[m], m, n + 2);
      RowsFit(k.binom[m], m, n);
      if j == n > 33 && m == 17 {
        LastRowOverflows(k);
      }
      a[n - m] := Weight(k.alpha[j], m, k.binom[m]);
      b[n - m] := Weight(k.beta[j], m, k.binom[m]);
      if n - m == j {
        b[n - m] := b[n - m] + 0.5;
      }
    }
  }

  lemma RowsFit(binom: seq<int>, m: nat, n: nat)
    requires m <= n && IsBinomialRow(binom, m, n + 2)
    ensures n <= 33 ==> forall i | 0 <= i < n + 1 :: binom[i] == Choose(i, m)
  {
    BinomialsFit(if n == 0 then 0 else n - 1);
    hide Choose;
  }

  /** The numbers in row `order` of beta are negative, and 34 over 17 does not fit. */
  lemma LastRowOverflows(k: GjKernel)
    requires IsKernel(k) && k.order > 33
    ensures |k.beta| == k.order + 2 && |k.beta[k.order]| == k.order + 1 && Overflows(k.beta[k.order], 17, k.binom[17])
  {
    var n := k.order;
    RowNegative(k);
    RowWraps(k);
    hide Choose, IsKernel, Wrap32;
    assert k.binom[17][34] < Choose(34, 17);
  }

  lemma RowNegative(k: GjKernel)
    requires IsKernel(k) && k.order > 33
    ensures |k.beta| == k.order + 2 && |k.beta[k.order]| == k.order + 1
    ensures forall i | 0 <= i <= k.order :: k.beta[k.order][i] < 0.0
  {
    CoefficientsNegative(k.c, k.order + 2);
    BackStart(k.c[1..k.order + 2]);
    hide Conv, BackPower, Choose;
  }

  lemma RowWraps(k: GjKernel)
    requires IsKernel(k) && k.order > 33
    ensures |k.binom| > 17 && |k.binom[17]| > k.order
    ensures forall i | 0 <= i <= k.order :: k.binom[17][i] <= Choose(i, 17)
    ensures k.binom[17][34] < Choose(34, 17)
  {
    assert IsBinomialRow(k.binom[17], 17, k.order + 2);
    CentralValue(17);
    hide Choose, BackPower, Conv;
    forall i | 0 <= i <= k.order
      ensures k.binom[17][i] <= Choose(i, 17)
    {
      WrapBelow(Choose(i, 17));
    }
    assert Wrap32(2333606220) < 2333606220;
  }

  lemma WrapBelow(x: nat)
    ensures Wrap32(x) <= x
  {
  }

  // ----- Rows on a uniform grid -----

  predicate Uniform(times: seq<real>, h: real) {
    forall i | 0 <= i && i + 1 < |times| :: times[i] + h == times[i + 1]
  }

  lemma {:induction false} GridIsBack(times: seq<real>, h: real, i: nat)
    requires Uniform(times, h) && i < |times|
    ensures times[i] == Back(times[|times| - 1], h, |times| - 1 - i)
    decreases |times| - i
  {
    if i + 1 < |times| {
      GridIsBack(times, h, i + 1);
      assert times[i] + h == times[i + 1];
    }
  }

  /** The accelerations at the nodes of the grid. */
  ghost predicate Sampled(f: Vector, times: seq<real>, values: Vector) {
    |values| == |times| && forall i | 0 <= i < |times| :: values[i] == Eval(f, times[i])
  }

  lemma NodeDifferences(f: Vector, times: seq<real>, values: Vector, h: real)
    requires times != [] && Uniform(times, h) && Sampled(f, times, values)
    ensures |values| == |times| && BackDifferences(values) == Table(f, 0, times[|times| - 1], h, |times|)
  {
    var n := |times| - 1;
    hide Eval, Uniform;
    forall i | 0 <= i < |values|
      ensures values[i] == Diff(f, 0, Back(times[n], h, n - i), h)
    {
      GridIsBack(times, h, i);
      DiffStart(f, times[i], h);
    }
    DifferencesOfNodes(values, f, 0, times[n], h);
  }

  /** A row of a table whose row `order` is s gives at node j what s gives there. */
  lemma RowOnGrid(s: Vector, row: Vector, j: nat, f: Vector, times: seq<real>, values: Vector, h: real)
    requires |f| <= |s| == |row| == |times| && j < |times| && Uniform(times, h) && Sampled(f, times, values)
    requires row == BackPower(s, |s| - 1 - j)
    ensures Dot(Ordinate(row), values) == Dot(s, Table(f, 0, times[j], h, |s|))
  {
    hide *;
    var n, p := |times| - 1, |s| - 1 - j;
    var x := times[n];
    NodeDifferences(f, times, values, h);
    GridIsBack(times, h, j);
    RowAtBack(s, row, p, f, x, values, h);
  }

  lemma RowAtBack(s: Vector, row: Vector, p: nat, f: Vector, x: real, values: Vector, h: real)
    requires |f| <= |s| == |row| == |values| && s != []
    requires row == BackPower(s, p) && BackDifferences(values) == Table(f, 0, x, h, |s|)
    ensures Dot(Ordinate(row), values) == Dot(s, Table(f, 0, Back(x, h, p), h, |s|))
  {
    hide *;
    OrdinateDot(row, values);
    RowAtNode(s, p, f, x, h);
  }

  /** Running sums, applied one step after the grid. */
  lemma RowAfterGrid(sums: Vector, f: Vector, times: seq<real>, values: Vector, h: real, x: real)
    requires |f| <= |sums| == |times| && sums != [] && Uniform(times, h) && Sampled(f, times, values)
    requires x == times[|times| - 1] + h
    ensures Dot(Ordinate(sums), values) == Dot(Backed(sums), Table(f, 0, x, h, |sums|))
  {
    hide Dot, Ordinate, Backed, Delayed, BackDifferences, Diff, Eval, Uniform;
    OrdinateDot(sums, values);
    NodeDifferences(f, times, values, h);
    assert x - h == times[|times| - 1];
    DotStepBack(sums, f, x, h);
    DotBacked(sums, Table(f, 0, x, h, |sums|));
  }

  lemma BackedSums(k: GjKernel)
    requires IsKernel(k)
    ensures Backed(k.gam[1..]) == AddAt(k.c[1..k.order + 2], 0, 1.0)
    ensures Backed(k.lam[2..]) == k.q[2..]
  {
    LeadingCoefficients(k);
    hide Conv, BackPower;
    assert PartialSum(k.c, 0) == k.c[0];
    assert PartialSum(k.q, 0) == k.q[0];
    assert PartialSum(k.q, 1) == k.q[0] + k.q[1];
    var g, l := k.gam[1..], k.lam[2..];
    forall i | 0 <= i <= k.order
      ensures Backed(g)[i] == AddAt(k.c[1..k.order + 2], 0, 1.0)[i] && Backed(l)[i] == k.q[2..][i]
    {
      assert PartialSum(k.c, i + 1) == PartialSum(k.c, i) + k.c[i + 1];
      assert PartialSum(k.q, i + 2) == PartialSum(k.q, i + 1) + k.q[i + 2];
    }
  }

  /** What the rows give on the accelerations of a motion, at the nodes and one step after. */
  lemma RowsOnMotion(k: GjKernel, f: Vector, times: seq<real>, values: Vector, j: nat)
    requires IsKernel(k) && |f| <= k.order + 1 == |times| && Uniform(times, k.dvi) && Sampled(f, times, values)
    requires j <= k.order
    ensures Dot(RowB(k, j), values) == FirstCorrection(k, f, times[j]) + Mul(0.5, Eval(f, times[j]))
    ensures Dot(RowA(k, j), values) == SecondCorrection(k, f, times[j])
  {
    hide Dot, Ordinate, BackPower, Diff, Eval, Uniform, Mul, Conv;
    RowOnGrid(k.c[1..k.order + 2], k.beta[j], j, f, times, values, k.dvi);
    RowOnGrid(k.q[2..], k.alpha[j], j, f, times, values, k.dvi);
    DotAddAt(Ordinate(k.beta[j]), j, 0.5, values);
  }

  lemma RowsAfterMotion(k: GjKernel, f: Vector, times: seq<real>, values: Vector, x: real)
    requires IsKernel(k) && |f| <= k.order + 1 == |times| && Uniform(times, k.dvi) && Sampled(f, times, values)
    requires x == times[k.order] + k.dvi
    ensures Dot(RowB(k, k.order + 1), values) == FirstCorrection(k, f, x) + Eval(f, x)
    ensures Dot(RowA(k, k.order + 1), values) == SecondCorrection(k, f, x)
  {
    var t := Table(f, 0, x, k.dvi, k.order + 1);
    DiffStart(f, x, k.dvi);
    assert t[0] == Eval(f, x);
    BackedSums(k);
    hide Dot, Ordinate, BackPower, Diff, Eval, Uniform, Mul, Conv, Backed, PartialSum;
    RowAfterGrid(k.gam[1..], f, times, values, k.dvi, x);
    RowAfterGrid(k.lam[2..], f, times, values, k.dvi, x);
    DotAddAt(k.c[1..k.order + 2], 0, 1.0, t);
    MulOne(t[0]);
  }

  // ----- The sums of a motion -----

  function Over(p: real, h: real): real
    requires h != 0.0
  {
    p / h
  }

  /** The first sum at x: what is left of the velocity, in steps. */
  function FirstSum(k: GjKernel, v: Vector, f: Vector, x: real): real
    requires |k.c| == k.order + 3 && k.dvi != 0.0
  {
    Over(Eval(v, x), k.dvi) - FirstCorrection(k, f, x) - Mul(0.5, Eval(f, x))
  }

  /** The second sum at x: what is left of the position, in squared steps. */
  function SecondSum(k: GjKernel, p: Vector, f: Vector, x: real): real
    requires |k.q| == k.order + 3 && k.dvi2 != 0.0
  {
    Over(Eval(p, x), k.dvi2) - SecondCorrection(k, f, x)
  }

  lemma OverTimes(h: real, p: real, q: real, d: real)
    requires h != 0.0 && p - q == Times(h, d)
    ensures Over(p, h) == Over(q, h) + d
  {
    DivideTimes(h, q, d, p);
  }

  lemma DivideTimes(h: real, q: real, d: real, p: real)
    requires h != 0.0 && p == q + h * d
    ensures p / h == q / h + d
  {
    var z := q / h;
    assert q == h * z;
    assert p == h * (z + d);
  }

  lemma OverTwice(h: real, g: real, p: real, q: real, v: real, d: real)
    requires h != 0.0 && g == h * h && g != 0.0 && p - q == Times(h, v + Times(h, d))
    ensures Over(p, g) == Over(q, g) + Over(v, h) + d
  {
    var z := v / h;
    assert v == h * z;
    SquareStep(h, g, z, d, v);
    DivideTimes(g, q, z + d, p);
  }

  lemma SquareStep(h: real, g: real, z: real, d: real, v: real)
    requires g == h * h && v == h * z
    ensures h * (v + h * d) == g * (z + d)
  {
    assert v + h * d == h * (z + d);
    assert h * (h * (z + d)) == (h * h) * (z + d);
  }

  lemma SquareNonzero(h: real, g: real)
    requires h != 0.0 && g == Mul(h, h)
    ensures g != 0.0
  {
    hide Mul;
    ProductNonzero(h, h, g);
  }

  lemma ProductNonzero(a: real, b: real, g: real)
    requires a != 0.0 && b != 0.0 && g == Mul(a, b)
    ensures g != 0.0
  {
  }

  /** The recurrences by which the original carries the sums from node to node. */
  lemma SumsStep(k: GjKernel, p: Vector, v: Vector, f: Vector, x: real)
    requires IsMotion(k, p, v, f) && k.dvi != 0.0 && k.dvi2 != 0.0
    ensures FirstSum(k, v, f, x)
         == FirstSum(k, v, f, x - k.dvi) + Mul(0.5, Eval(f, x - k.dvi)) + Mul(0.5, Eval(f, x))
    ensures SecondSum(k, p, f, x)
         == SecondSum(k, p, f, x - k.dvi) + FirstSum(k, v, f, x - k.dvi) + Mul(0.5, Eval(f, x - k.dvi))
  {
    VelocityStep(k, p, v, f, x);
    PositionStep(k, p, v, f, x);
    hide Dot, Conv, Times, Over, FirstCorrection, SecondCorrection, Eval, BackPower, PartialSum, Deriv;
    var y := x - k.dvi;
    OverTimes(k.dvi, Eval(v, x), Eval(v, y), Eval(f, x) + FirstCorrection(k, f, x) - FirstCorrection(k, f, y));
    OverTwice(k.dvi, k.dvi2, Eval(p, x), Eval(p, y), Eval(v, y),
              SecondCorrection(k, f, x) - SecondCorrection(k, f, y) - FirstCorrection(k, f, y));
  }

  /** Position and velocity recovered from the sums. */
  lemma SumsGiveMotion(k: GjKernel, p: Vector, v: Vector, f: Vector, x: real)
    requires IsMotion(k, p, v, f) && k.dvi != 0.0 && k.dvi2 != 0.0
    ensures Times(k.dvi, FirstSum(k, v, f, x) + FirstCorrection(k, f, x) + Mul(0.5, Eval(f, x))) == Eval(v, x)
    ensures Times(k.dvi2, SecondSum(k, p, f, x) + SecondCorrection(k, f, x)) == Eval(p, x)
  {
    hide FirstCorrection, SecondCorrection, Eval, Mul, Conv, BackPower, PartialSum, Over, Times, Deriv;
    TimesOver(k.dvi, Eval(v, x), FirstSum(k, v, f, x) + FirstCorrection(k, f, x) + Mul(0.5, Eval(f, x)));
    TimesOver(k.dvi2, Eval(p, x), SecondSum(k, p, f, x) + SecondCorrection(k, f, x));
  }

  lemma TimesOver(h: real, p: real, q: real)
    requires h != 0.0 && q == Over(p, h)
    ensures Times(h, q) == p
  {
  }
}
