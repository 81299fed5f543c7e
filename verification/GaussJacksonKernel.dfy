/** The coefficient tables of the Gauss-Jackson integrator: `gauss_jackson_kernel` and
    `gauss_jackson_step` of libraries/math/mathlib.cpp. */
module GaussJacksonKernel {
  import opened Linear
  import opened Poly
  import opened Series

  // ----- Binomial coefficients in 32-bit integers -----

  function Choose(n: nat, k: nat): nat {
    if k > n then 0 else if k == 0 || k == n then 1 else Choose(n - 1, k - 1) + Choose(n - 1, k)
  }

  function Wrap32(x: int): int {
    (x + 0x8000_0000) % 0x1_0000_0000 - 0x8000_0000
  }

  /** Wrapping the terms or the sum makes no difference once the sum is wrapped. */
  lemma WrapOfSum(x: int, y: int)
    ensures Wrap32(Wrap32(x) + Wrap32(y)) == Wrap32(x + y)
  {
    var p, q := (x + 0x8000_0000) / 0x1_0000_0000, (y + 0x8000_0000) / 0x1_0000_0000;
    assert Wrap32(x) == x - p * 0x1_0000_0000 && Wrap32(y) == y - q * 0x1_0000_0000;
    hide Wrap32;
    WrapOfMultiple(x + y, -p - q);
  }

  lemma WrapOfMultiple(x: int, k: int)
    ensures Wrap32(x + k * 0x1_0000_0000) == Wrap32(x)
  {
  }

  /** Row m of the table: i over m in 32 bits, for every i below `size`. */
  ghost predicate IsBinomialRow(row: seq<int>, m: nat, size: nat) {
    |row| == size && forall i | 0 <= i < size :: row[i] == Wrap32(Choose(i, m))
  }

  method BinomialTable(size: nat) returns (binom: seq<seq<int>>)
    ensures |binom| == size && forall m | 0 <= m < size :: IsBinomialRow(binom[m], m, size)
  {
    binom := [];
    for m := 0 to size
      invariant |binom| == m && forall k | 0 <= k < m :: IsBinomialRow(binom[k], k, size)
    {
      var row := BinomialRow(m, size, if m == 0 then [] else binom[m - 1]);
      binom := binom + [row];
    }
  }

  method BinomialRow(m: nat, size: nat, above: seq<int>) returns (row: seq<int>)
    requires m > 0 ==> IsBinomialRow(above, m - 1, size)
    ensures IsBinomialRow(row, m, size)
  {
    hide Wrap32, Choose;
    row := [];
    for i := 0 to size
      invariant |row| == i && forall k | 0 <= k < i :: row[k] == Wrap32(Choose(k, m))
    {
      EntryIs(i, m);
      var entry;
      if m > i {
        entry := 0;
      } else if m == i {
        entry := 1;
      } else if m == 0 {
        entry := 1;
      } else {
        entry := Wrap32(above[i - 1] + row[i - 1]);
      }
      row := row + [entry];
    }
  }

  lemma EntryIs(i: nat, m: nat)
    ensures Wrap32(Choose(i, m)) == if m > i then 0
                                    else if m == i || m == 0 then 1
                                    else Wrap32(Wrap32(Choose(i - 1, m - 1)) + Wrap32(Choose(i - 1, m)))
  {
    if 0 < m < i {
      WrapOfSum(Choose(i - 1, m - 1), Choose(i - 1, m));
    }
  }

  lemma {:induction false} ChooseAtMost(n: nat, base: nat, bound: nat)
    requires base <= n && forall k: nat | k <= base :: Choose(base, k) <= bound
    ensures forall k: nat :: Choose(n, k) <= bound * Pow2(n - base)
    decreases n
  {
    if n > base {
      ChooseAtMost(n - 1, base, bound);
      assert Pow2(n - base) == 2 * Pow2(n - 1 - base);
      var b := bound * Pow2(n - 1 - base);
      assert bound * Pow2(n - base) == 2 * b;
      assert 1 <= b by {
        assert Choose(base, 0) == 1;
        PositiveTimes(bound, Pow2(n - 1 - base));
      }
    } else {
      assert bound * Pow2(0) == bound;
    }
  }

  function Pow2(n: nat): (p: nat)
    ensures p >= 1
  {
    if n == 0 then 1 else 2 * Pow2(n - 1)
  }

  lemma PositiveTimes(a: nat, b: nat)
    requires a >= 1 && b >= 1
    ensures a * b >= 1
  {
  }

  lemma {:induction false} Absorb(n: nat, k: nat)
    requires k < n
    ensures Choose(n, k + 1) * (k + 1) == Choose(n, k) * (n - k)
  {
    if k == 0 {
      ChooseOne(n);
    } else if k + 1 == n {
      ChooseAllButOne(n);
    } else {
      Absorb(n - 1, k);
      Absorb(n - 1, k - 1);
      AbsorbStep(n, k, Choose(n - 1, k - 1), Choose(n - 1, k), Choose(n - 1, k + 1), Choose(n, k), Choose(n, k + 1));
    }
  }

  lemma AbsorbStep(n: int, k: int, p: int, q: int, r: int, s: int, t: int)
    requires s == p + q && t == q + r
    requires r * (k + 1) == q * (n - 1 - k) && q * k == p * (n - k)
    ensures t * (k + 1) == s * (n - k)
  {
    assert t * (k + 1) == q * (k + 1) + r * (k + 1);
    assert s * (n - k) == p * (n - k) + q * (n - k);
  }

  lemma {:induction false} ChooseOne(n: nat)
    requires n > 0
    ensures Choose(n, 0) == 1 && Choose(n, 1) == n
  {
    if n > 1 {
      ChooseOne(n - 1);
    }
  }

  lemma {:induction false} ChooseAllButOne(n: nat)
    requires n > 0
    ensures Choose(n, n) == 1 && Choose(n, n - 1) == n
  {
    if n > 1 {
      ChooseAllButOne(n - 1);
    }
  }

  /** From one central coefficient to the next. */
  lemma CentralStep(n: nat)
    requires n > 0
    ensures (n + 1) * Choose(2 * n + 2, n + 1) == 2 * (2 * n + 1) * Choose(2 * n, n)
  {
    var p, q, r := Choose(2 * n, n - 1), Choose(2 * n, n), Choose(2 * n, n + 1);
    Absorb(2 * n, n - 1);
    Absorb(2 * n, n);
    assert Choose(2 * n + 1, n) == p + q && Choose(2 * n + 1, n + 1) == q + r;
    assert Choose(2 * n + 2, n + 1) == p + q + (q + r);
    hide Choose;
    assert q * n == p * (n + 1) && r * (n + 1) == q * n;
    CentralSum(n, p, q, r, p + q + (q + r));
  }

  lemma CentralSum(n: int, p: int, q: int, r: int, s: int)
    requires q * n == p * (n + 1) && r * (n + 1) == q * n && s == p + q + (q + r)
    ensures (n + 1) * s == 2 * (2 * n + 1) * q
  {
    assert (n + 1) * s == p * (n + 1) + 2 * q * (n + 1) + r * (n + 1);
  }

  lemma CentralIs(n: nat, c: nat, d: nat)
    requires n > 0 && Choose(2 * n, n) == c && (n + 1) * d == 2 * (2 * n + 1) * c
    ensures Choose(2 * n + 2, n + 1) == d
  {
    CentralStep(n);
    hide Choose;
    CancelInt(n + 1, Choose(2 * n + 2, n + 1), d);
  }

  lemma CancelInt(a: int, b: int, c: int)
    requires a > 0 && a * b == a * c
    ensures b == c
  {
  }

  /** Choose(2n, n) for n from 1. */
  const CENTRAL: seq<nat> := [2, 6, 20, 70, 252, 924, 3432, 12870, 48620,
                              184756, 705432, 2704156, 10400600, 40116600, 155117520, 601080390, 2333606220]

  lemma {:induction false} CentralValue(n: nat)
    requires 0 < n <= 17
    ensures Choose(2 * n, n) == CENTRAL[n - 1]
  {
    if n == 1 {
      ChooseOne(2 * n);
    } else {
      CentralValue(n - 1);
      hide Choose;
      CentralProducts(n);
      CentralIs(n - 1, CENTRAL[n - 2], CENTRAL[n - 1]);
    }
  }

  lemma CentralProducts(n: nat)
    requires 1 < n <= 17
    ensures n * CENTRAL[n - 1] == 2 * (2 * n - 1) * CENTRAL[n - 2]
  {
  }

  ghost predicate IsPascalRow(n: nat, row: seq<nat>) {
    |row| == n + 1 && forall k | 0 <= k <= n :: row[k] == Choose(n, k)
  }

  lemma NextPascalRow(n: nat, row: seq<nat>, next: seq<nat>)
    requires |row| == n + 1 && IsPascalRow(n, row) && |next| == n + 2 && next[0] == next[n + 1] == 1
    requires forall k | 0 < k <= n :: next[k] == row[k - 1] + row[k]
    ensures IsPascalRow(n + 1, next)
  {
    forall k | 0 <= k <= n + 1
      ensures next[k] == Choose(n + 1, k)
    {
      if 0 < k <= n {
        assert Choose(n + 1, k) == Choose(n, k - 1) + Choose(n, k);
      }
    }
  }

  lemma TenthRow() returns (row: seq<nat>)
    ensures IsPascalRow(10, row) && forall k | 0 <= k <= 10 :: row[k] <= 252
  {
    hide IsPascalRow;
    FirstRow();
    row := [1, 10, 45, 120, 210, 252, 210, 120, 45, 10, 1];
    NextPascalRow(1, [1, 1], [1, 2, 1]);
    NextPascalRow(2, [1, 2, 1], [1, 3, 3, 1]);
    NextPascalRow(3, [1, 3, 3, 1], [1, 4, 6, 4, 1]);
    NextPascalRow(4, [1, 4, 6, 4, 1], [1, 5, 10, 10, 5, 1]);
    NextPascalRow(5, [1, 5, 10, 10, 5, 1], [1, 6, 15, 20, 15, 6, 1]);
    NextPascalRow(6, [1, 6, 15, 20, 15, 6, 1], [1, 7, 21, 35, 35, 21, 7, 1]);
    NextPascalRow(7, [1, 7, 21, 35, 35, 21, 7, 1], [1, 8, 28, 56, 70, 56, 28, 8, 1]);
    NextPascalRow(8, [1, 8, 28, 56, 70, 56, 28, 8, 1], [1, 9, 36, 84, 126, 126, 84, 36, 9, 1]);
    NextPascalRow(9, [1, 9, 36, 84, 126, 126, 84, 36, 9, 1], row);
  }

  lemma FirstRow()
    ensures IsPascalRow(1, [1, 1])
  {
    assert Choose(1, 0) == 1 && Choose(1, 1) == 1;
  }

  /** The table of an integrator of the given order holds the true binomial coefficients
      exactly when the order is at most 32. */
  lemma BinomialsFit(order: nat)
    ensures (forall i: nat, m: nat | i <= order + 1 && m <= order + 1 :: Wrap32(Choose(i, m)) == Choose(i, m))
       <==> order <= 32
  {
    if order > 32 {
      var n := 17;
      CentralValue(n);
      assert Wrap32(Choose(2 * n, n)) != Choose(2 * n, n);
    } else {
      forall i: nat, m: nat | i <= order + 1
        ensures Wrap32(Choose(i, m)) == Choose(i, m)
      {
        ChooseIncreases(i, 33, m);
        var tenth := TenthRow();
        ChooseAtMost(33, 10, 252);
        assert Pow2(23) == 0x80_0000 by { PowersOfTwo(); }
      }
    }
  }

  lemma PowersOfTwo()
    ensures Pow2(23) == 0x80_0000
  {
    assert Pow2(8) == 256;
    assert Pow2(16) == 0x1_0000;
  }

  lemma {:induction false} ChooseIncreases(i: nat, n: nat, m: nat)
    requires i <= n
    ensures Choose(i, m) <= Choose(n, m)
    decreases n - i
  {
    if i < n {
      ChooseIncreases(i + 1, n, m);
    }
  }

  // ----- The series of the integrator -----

  /** Running sums. */
  function PartialSum(s: Vector, i: nat): real
    requires i < |s|
  {
    if i == 0 then s[0] else PartialSum(s, i - 1) + s[i]
  }

  /** Differences of neighbouring coefficients: the product with 1 - t. */
  function Backed(s: Vector): (r: Vector)
    ensures |r| == |s|
    ensures forall i | 0 <= i < |s| :: r[i] == s[i] - if i == 0 then 0.0 else s[i - 1]
  {
    seq(|s|, i requires 0 <= i < |s| => s[i] - if i == 0 then 0.0 else s[i - 1])
  }

  function BackPower(s: Vector, p: nat): (r: Vector)
    ensures |r| == |s|
  {
    if p == 0 then s else Backed(BackPower(s, p - 1))
  }

  datatype GjKernel = GjKernel(
    order: nat, horder: nat, dvi: real, dvi2: real, binom: seq<seq<int>>,
    c: Vector, gam: Vector, q: Vector, lam: Vector, alpha: seq<Vector>, beta: seq<Vector>)

  /** c is the reciprocal of the series 1 + t/2 + t^2/3 + ..., q its square; gam and lam are
      their running sums. Rows 0 to order of a table are the series without its first terms,
      multiplied by 1 - t once for each row below row `order`; the last row is the running sum
      without its first terms. */
  ghost predicate IsKernel(k: GjKernel) {
    var n := k.order;
    && k.horder == n / 2 && k.dvi2 == k.dvi * k.dvi
    && |k.binom| == n + 2 && (forall m | 0 <= m < n + 2 :: IsBinomialRow(k.binom[m], m, n + 2))
    && |k.c| == n + 3 && Conv(k.c, Reciprocals(n + 3)) == Unit(n + 3)
    && k.q == Conv(k.c, k.c)
    && |k.gam| == n + 2 && (forall i | 0 <= i < n + 2 :: k.gam[i] == PartialSum(k.c, i))
    && |k.lam| == n + 3 && (forall i | 0 <= i < n + 3 :: k.lam[i] == PartialSum(k.q, i))
    && IsTable(k.beta, n, k.c[1..n + 2], k.gam[1..])
    && IsTable(k.alpha, n, k.q[2..], k.lam[2..])
  }

  ghost predicate IsTable(t: seq<Vector>, n: nat, s: Vector, sums: Vector) {
    && |t| == n + 2 && |s| == |sums| == n + 1
    && t[n + 1] == sums
    && forall j | 0 <= j <= n :: t[j] == BackPower(s, n - j)
  }

  method GaussJacksonKernel(order: nat, dvi: real) returns (k: GjKernel)
    ensures IsKernel(k) && k.order == order && k.dvi == dvi
  {
    var binom := BinomialTable(order + 2);
    var c := ReciprocalSeries(order + 3);
    var gam := RunningSums(c, order + 2);
    var beta := DifferenceTable(order, c[1..order + 2], gam[1..]);
    var q := SquareSeries(c);
    var lam := RunningSums(q, order + 3);
    var alpha := DifferenceTable(order, q[2..], lam[2..]);
    k := GjKernel(order, order / 2, dvi, dvi * dvi, binom, c, gam, q, lam, alpha, beta);
  }

  /** The coefficients so far make those of the product right. */
  ghost predicate Vanishing(c: Vector, size: nat)
    requires |c| <= size
  {
    forall i | 0 <= i < |c| :: ConvSum(c, Reciprocals(size), i, i + 1) == Unit(size)[i]
  }

  lemma FirstVanishes(c: Vector, size: nat)
    requires c == [1.0] && size > 0
    ensures Vanishing(c, size)
  {
    ConvSumStarts(c, Reciprocals(size), 0, 0);
  }

  lemma NextVanishes(c: Vector, p: real, size: nat)
    requires 0 < |c| < size && Vanishing(c, size) && p == -ConvSum(c, Reciprocals(size), |c|, |c|)
    ensures Vanishing(c + [p], size)
  {
    hide ConvSum;
    var r, n := Reciprocals(size), |c|;
    forall i | 0 <= i <= n
      ensures ConvSum(c + [p], r, i, i + 1) == Unit(size)[i]
    {
      ConvSumPrefix(c, [p], r, i, if i < n then i + 1 else n);
      ConvSumStarts(c + [p], r, i, i);
    }
  }

  lemma VanishingAt(c: Vector, size: nat)
    requires |c| == size && Vanishing(c, size)
    ensures Conv(c, Reciprocals(size)) == Unit(size)
  {
    hide ConvSum, Conv;
    forall i | 0 <= i < size
      ensures Conv(c, Reciprocals(size))[i] == Unit(size)[i]
    {
      ConvAt(c, Reciprocals(size), i);
    }
  }

  /** The coefficients c: each makes the next coefficient of the product with the series of
      reciprocals vanish. */
  method ReciprocalSeries(size: nat) returns (c: Vector)
    requires size > 0
    ensures |c| == size && c[0] == 1.0 && Conv(c, Reciprocals(size)) == Unit(size)
  {
    ghost var r := Reciprocals(size);
    c := [1.0];
    ConvSumStarts(c, r, 0, 0);
    hide ConvSum, Conv, Vanishing;
    FirstVanishes(c, size);
    for n := 1 to size
      invariant |c| == n && c[0] == 1.0 && Vanishing(c, size)
    {
      var cn := 0.0;
      ConvSumStarts(c, r, n, 0);
      for i := 0 to n
        invariant cn == -ConvSum(c, r, n, i)
      {
        ConvSumStarts(c, r, n, i);
        DivideIsTimes((n + 1 - i) as real, c[i], r[n - i]);
        cn := cn - c[i] / ((n + 1 - i) as real);
      }
      NextVanishes(c, cn, size);
      c := c + [cn];
    }
    VanishingAt(c, size);
  }

  lemma {:induction false} ConvSumPrefix(s: Vector, more: Vector, t: Vector, n: nat, m: nat)
    requires n < |t| && m <= n + 1 && m <= |s|
    ensures ConvSum(s + more, t, n, m) == ConvSum(s, t, n, m)
  {
    if m > 0 {
      ConvSumPrefix(s, more, t, n, m - 1);
    }
  }

  // ----- The sign of the coefficients -----

  /** All coefficients of c but the first are negative. */
  lemma {:induction false} CoefficientsNegative(c: Vector, n: nat)
    requires 0 < n < |c| && Conv(c, Reciprocals(|c|)) == Unit(|c|)
    ensures c[0] == 1.0 && forall i | 0 < i <= n :: c[i] < 0.0
  {
    var r := Reciprocals(|c|);
    hide Conv;
    ConvAt(c, r, 0);
    ConvAt(c, r, n);
    ConvSumEnds(c, r, 0);
    ConvSumEnds(c, r, n);
    assert ConvSum(c, r, 0, 0) == 0.0 && r[0] == 1.0;
    if n == 1 {
      assert ConvSum(c, r, 1, 1) == 0.0 + c[0] * r[1] && r[1] == 0.5;
    } else {
      CoefficientsNegative(c, n - 1);
      ConvAt(c, r, n - 1);
      SumsGrow(c, n - 1, n);
    }
  }

  lemma ConvSumEnds(c: Vector, r: Vector, n: nat)
    requires n < |c| == |r|
    ensures ConvSum(c, r, n, n + 1) == ConvSum(c, r, n, n) + c[n] * r[0]
  {
  }

  lemma ConvSumStarts(c: Vector, r: Vector, n: nat, k: nat)
    requires n < |r| && k <= n && k < |c|
    ensures ConvSum(c, r, n, k + 1) == ConvSum(c, r, n, k) + c[k] * r[n - k] && ConvSum(c, r, n, 0) == 0.0
  {
  }

  /** From one coefficient of the product to the next, the part without the newest coefficient
      grows, in proportion. */
  lemma {:induction false} SumsGrow(c: Vector, n: nat, m: nat)
    requires 0 < m <= n + 1 < |c| && forall i | 0 < i < m :: c[i] < 0.0
    ensures var r := Reciprocals(|c|);
      var p, q := Scaled(n + 2, ConvSum(c, r, n + 1, m)), Scaled(n + 1, ConvSum(c, r, n, m));
      if m == 1 then p == q else p > q
  {
    hide *;
    var r, k := Reciprocals(|c|), m - 1;
    assert r[n + 1 - k] == 1.0 / ((n + 2 - k) as real) && r[n - k] == 1.0 / ((n + 1 - k) as real);
    SumGrows(c, r, n, k);
    if k == 0 {
    } else {
      SumsGrow(c, n, k);
    }
  }

  /** One term more. */
  lemma SumGrows(c: Vector, r: Vector, n: nat, k: nat)
    requires k <= n && n + 1 < |c| == |r| && (k > 0 ==> c[k] < 0.0)
    requires r[n + 1 - k] == 1.0 / ((n + 2 - k) as real) && r[n - k] == 1.0 / ((n + 1 - k) as real)
    ensures var p, q := Scaled(n + 2, ConvSum(c, r, n + 1, k + 1)), Scaled(n + 1, ConvSum(c, r, n, k + 1));
      var s, t := Scaled(n + 2, ConvSum(c, r, n + 1, k)), Scaled(n + 1, ConvSum(c, r, n, k));
      if k == 0 then p == q else p - s > q - t
  {
    hide *;
    ConvSumStarts(c, r, n + 1, k);
    ConvSumStarts(c, r, n, k);
    TermAdded(n, k, c[k], r[n + 1 - k], r[n - k], ConvSum(c, r, n + 1, k), ConvSum(c, r, n, k),
              ConvSum(c, r, n + 1, k + 1), ConvSum(c, r, n, k + 1));
  }

  lemma TermAdded(n: nat, k: nat, c: real, r: real, t: real, u: real, v: real, x: real, y: real)
    requires k <= n && x == u + c * r && y == v + c * t && (if k == 0 then u == v == 0.0 else c < 0.0)
    requires r == 1.0 / ((n + 2 - k) as real) && t == 1.0 / ((n + 1 - k) as real)
    ensures var p, q := Scaled(n + 2, x), Scaled(n + 1, y);
      if k == 0 then p == q else p - Scaled(n + 2, u) > q - Scaled(n + 1, v)
  {
    TermGrows(n, k, c);
    hide *;
    ScaledSum(n + 2, u, c * r);
    ScaledSum(n + 1, v, c * t);
    ScaledZero(n + 2);
    ScaledZero(n + 1);
  }

  function Scaled(n: nat, p: real): real { (n as real) * p }

  lemma ScaledSum(n: nat, p: real, q: real)
    ensures Scaled(n, p + q) == Scaled(n, p) + Scaled(n, q)
  {
  }

  lemma ScaledZero(n: nat)
    ensures Scaled(n, 0.0) == 0.0
  {
  }

  lemma TermGrows(n: nat, k: nat, c: real)
    requires k <= n && (k > 0 ==> c < 0.0)
    ensures var p, q := Scaled(n + 2, c * (1.0 / ((n + 2 - k) as real))),
              Scaled(n + 1, c * (1.0 / ((n + 1 - k) as real)));
      if k == 0 then p == q else p > q
  {
    var a, u := (n + 1 - k) as real, k as real;
    var s, t := 1.0 / (a + 1.0), 1.0 / a;
    assert (a + 1.0) * s == 1.0 && a * t == 1.0;
    Proportion(a, u, s, c, (n + 2) as real);
    Proportion(a - 1.0, u, t, c, (n + 1) as real);
    InverseFalls(a, s, t);
    if k > 0 {
      ThreeSigns(c, u, s - t);
    }
  }

  lemma Proportion(a: real, u: real, s: real, c: real, n: real)
    requires (a + 1.0) * s == 1.0 && n == a + 1.0 + u
    ensures n * (c * s) == c + c * (u * s)
  {
    assert n * (c * s) == c * ((a + 1.0) * s) + c * (u * s);
  }

  lemma InverseFalls(a: real, s: real, t: real)
    requires a >= 1.0 && (a + 1.0) * s == 1.0 && a * t == 1.0
    ensures s < t
  {
  }

  lemma ThreeSigns(c: real, u: real, d: real)
    requires c < 0.0 && u > 0.0 && d < 0.0
    ensures c * (u * d) > 0.0
  {
    assert u * d < 0.0;
  }

  method SquareSeries(c: Vector) returns (q: Vector)
    requires c != [] && c[0] == 1.0
    ensures q == Conv(c, c)
  {
    hide *;
    q := [1.0];
    ConvAt(c, c, 0);
    ConvSumStart(c, c);
    for i := 1 to |c|
      invariant q == Conv(c, c)[..i]
    {
      var qi := 0.0;
      ConvSumStarts(c, c, i, 0);
      for k := 0 to i + 1
        invariant qi == ConvSum(c, c, i, k)
      {
        ConvSumStarts(c, c, i, k);
        qi := qi + c[k] * c[i - k];
      }
      ConvAt(c, c, i);
      q := q + [qi];
    }
  }

  method RunningSums(s: Vector, n: nat) returns (sums: Vector)
    requires 0 < n <= |s|
    ensures |sums| == n && forall i | 0 <= i < n :: sums[i] == PartialSum(s, i)
  {
    sums := [s[0]];
    for i := 1 to n
      invariant |sums| == i && forall k | 0 <= k < i :: sums[k] == PartialSum(s, k)
    {
      sums := sums + [sums[i - 1] + s[i]];
    }
  }

  /** Column i of a table: entry i of each of its rows. */
  ghost predicate IsColumn(col: Vector, order: nat, s: Vector, sums: Vector, i: nat) {
    && |s| == |sums| == order + 1 && i <= order && |col| == order + 2
    && col[order + 1] == sums[i]
    && forall j | 0 <= j <= order :: col[j] == BackPower(s, order - j)[i]
  }

  /** One column, from the row `order` up. */
  method NextColumn(order: nat, s: Vector, sums: Vector, i: nat, before: Vector) returns (col: Vector)
    requires |s| == |sums| == order + 1 && i <= order
    requires i > 0 ==> IsColumn(before, order, s, sums, i - 1)
    ensures IsColumn(col, order, s, sums, i)
  {
    hide BackPower;
    var t := new real[order + 2](_ => 0.0);
    t[order + 1] := sums[i];
    t[order] := s[i];
    BackStart(s);
    for j := order downto 0
      invariant t[order + 1] == sums[i]
      invariant forall k | j <= k <= order :: t[k] == BackPower(s, order - k)[i]
    {
      BackStep(s, order - j, i);
      t[j] := if i == 0 then t[j + 1] else t[j + 1] - before[j + 1];
    }
    col := t[..];
  }

  /** One table, column by column. */
  method DifferenceTable(order: nat, s: Vector, sums: Vector) returns (table: seq<Vector>)
    requires |s| == |sums| == order + 1
    ensures IsTable(table, order, s, sums)
  {
    hide BackPower;
    var columns: seq<Vector> := [];
    for i := 0 to order + 1
      invariant |columns| == i && forall m | 0 <= m < i :: IsColumn(columns[m], order, s, sums, m)
    {
      var col := NextColumn(order, s, sums, i, if i == 0 then [] else columns[i - 1]);
      columns := columns + [col];
    }
    table := seq(order + 2, j requires 0 <= j < order + 2 =>
               seq(order + 1, i requires 0 <= i < order + 1 => columns[i][j]));
    forall j | 0 <= j <= order
      ensures table[j] == BackPower(s, order - j)
    {
    }
  }

  lemma BackStart(s: Vector)
    ensures BackPower(s, 0) == s
  {
  }

  lemma BackStep(s: Vector, p: nat, i: nat)
    requires p > 0 && i < |s|
    ensures BackPower(s, p)[i] == BackPower(s, p - 1)[i] - if i == 0 then 0.0 else BackPower(s, p - 1)[i - 1]
  {
  }

  function Sign(m: nat): real { if m % 2 == 0 then 1.0 else -1.0 }

  function AlternatingTerm(p: nat, k: nat, v: real): real {
    Sign(k) * (Choose(p, k) as real) * v
  }

  /** The alternating binomial sum of the last coefficients of s up to the i-th, m terms of it. */
  function Alternating(s: Vector, p: nat, i: nat, m: nat): real
    requires i < |s| && m <= i + 1
  {
    if m == 0 then 0.0 else Alternating(s, p, i, m - 1) + AlternatingTerm(p, m - 1, s[i + 1 - m])
  }

  /** An entry p rows below row `order` is an alternating binomial sum of the entries of that
      row. */
  lemma {:induction false} TableEntry(s: Vector, p: nat, i: nat)
    requires i < |s|
    ensures BackPower(s, p)[i] == Alternating(s, p, i, i + 1)
  {
    if p == 0 {
      BackStart(s);
      hide BackPower, Alternating;
      AlternatingOfZero(s, i, i + 1);
    } else {
      hide BackPower, Alternating;
      BackStep(s, p, i);
      AlternatingPascal(s, p, i, i + 1);
      TableEntry(s, p - 1, i);
      if i > 0 {
        TableEntry(s, p - 1, i - 1);
      }
    }
  }

  lemma {:induction false} AlternatingOfZero(s: Vector, i: nat, m: nat)
    requires i < |s| && m <= i + 1
    ensures Alternating(s, 0, i, m) == if m == 0 then 0.0 else s[i]
  {
    if m > 0 {
      AlternatingOfZero(s, i, m - 1);
    }
  }

  lemma {:induction false} AlternatingPascal(s: Vector, p: nat, i: nat, m: nat)
    requires p > 0 && i < |s| && m <= i + 1
    ensures Alternating(s, p, i, m)
         == Alternating(s, p - 1, i, m) - if i == 0 || m == 0 then 0.0 else Alternating(s, p - 1, i - 1, m - 1)
  {
    hide AlternatingTerm;
    if m > 0 {
      AlternatingPascal(s, p, i, m - 1);
      PascalTerm(p, m - 1, s[i + 1 - m]);
    }
  }

  lemma PascalTerm(p: nat, k: nat, v: real)
    requires p > 0
    ensures AlternatingTerm(p, k, v) == AlternatingTerm(p - 1, k, v)
              - if k == 0 then 0.0 else AlternatingTerm(p - 1, k - 1, v)
  {
    PascalRule(p, k);
    if k == 0 {
      assert Choose(p, k) == Choose(p - 1, k);
      hide Choose, Sign;
    } else {
      hide Choose;
      assert Sign(k - 1) == -Sign(k);
      hide Sign;
      TermDifference(Sign(k), Sign(k - 1), Choose(p, k), Choose(p - 1, k), Choose(p - 1, k - 1), v);
    }
  }

  lemma TermDifference(s: real, t: real, a: int, b: int, c: int, v: real)
    requires t == -s && a == b + c
    ensures s * (a as real) * v == s * (b as real) * v - t * (c as real) * v
  {
    assert a as real == b as real + c as real;
    SignedProduct(s, b as real, c as real, v, a as real);
  }

  lemma SignedProduct(s: real, b: real, c: real, v: real, a: real)
    requires a == b + c
    ensures s * a * v == s * b * v - (-s) * c * v
  {
  }

  lemma PascalRule(p: nat, k: nat)
    requires p > 0
    ensures Choose(p, k) == if k == 0 then 1 else Choose(p - 1, k) + Choose(p - 1, k - 1)
    ensures k == 0 ==> Choose(p - 1, k) == 1
  {
  }
}
