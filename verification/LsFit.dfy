/** The `LsFit` class of libraries/math/mathlib.cpp: a sliding window of samples, fitted by a
    polynomial on each axis, with quaternions kept on one side of the sphere. */
module LsFitting {
  import opened Linear
  import opened Poly
  import opened LeastSquares

  /** The four-component union the original stores every dependent value in. */
  type Axes = y: Vector | |y| == 4 witness [0.0, 0.0, 0.0, 0.0]

  datatype Element = Element(x: real, y: Axes)

  // ----- The window -----

  /** A length below which lengths are taken to be zero. What is said of quaternions holds for any
      of them. */
  type Length = s: real | 0.0 < s < 1.0 witness 0.5

  /** The library's own. */
  const D_SMALL: Length := 0.0000000000000000000000000000000000000000000000000000000000000000000000000001

  function SquareOf(small: real): real { small * small }

  function Negated(y: Axes): Axes {
    [-y[0], -y[1], -y[2], -y[3]]
  }

  function Minus(p: Axes, q: Axes): Axes {
    [p[0] - q[0], p[1] - q[1], p[2] - q[2], p[3] - q[3]]
  }

  function Inner(p: Axes, q: Axes): real {
    p[0] * q[0] + p[1] * q[1] + p[2] * q[2] + p[3] * q[3]
  }

  /** The square of `length_q`. */
  function LengthSquared(p: Axes, small: Length): real {
    if Inner(p, p) < SquareOf(small) then 0.0 else Inner(p, p)
  }

  /** The new value is closer to the mirror image of the last one than to the last one. */
  predicate Mirrored(y: Axes, last: Axes, small: Length) {
    LengthSquared(Minus(y, last), small) > LengthSquared(Minus(Negated(y), last), small)
  }

  function AllNegated(window: seq<Element>): (r: seq<Element>)
    ensures |r| == |window|
    ensures forall i | 0 <= i < |window| :: r[i] == Element(window[i].x, Negated(window[i].y))
  {
    seq(|window|, i requires 0 <= i < |window| => Element(window[i].x, Negated(window[i].y)))
  }

  /** A sample at the same x as the last one is ignored. */
  predicate Accepted(window: seq<Element>, e: Element) {
    window == [] || e.x != window[|window| - 1].x
  }

  /** The window after one update. */
  function Pushed(window: seq<Element>, count: nat, depth: nat, e: Element, small: Length): seq<Element> {
    if !Accepted(window, e) then window
    else
      var mirrored := depth == 4 && window != [] && Mirrored(e.y, window[|window| - 1].y, small);
      var kept := if mirrored then AllNegated(window) else window;
      if |window| + 1 > count then (kept + [e])[1..] else kept + [e]
  }

  function Abscissae(window: seq<Element>, base: real): (xs: Vector)
    ensures |xs| == |window|
    ensures forall i | 0 <= i < |xs| :: xs[i] == window[i].x - base
  {
    seq(|window|, i requires 0 <= i < |window| => window[i].x - base)
  }

  function Ordinates(window: seq<Element>, axis: nat): (ys: Vector)
    requires axis < 4
    ensures |ys| == |window|
    ensures forall i | 0 <= i < |ys| :: ys[i] == window[i].y[axis]
  {
    seq(|window|, i requires 0 <= i < |window| => window[i].y[axis])
  }

  /** How many different values of x the window holds. */
  function Spread(window: seq<Element>): nat {
    |Points(Abscissae(window, 0.0))|
  }

  lemma {:induction false} SpreadOfShifted(window: seq<Element>, base: real)
    ensures |Points(Abscissae(window, base))| == Spread(window)
  {
    if window != [] {
      SpreadOfShifted(window[..|window| - 1], base);
      NewestPoint(window, base);
      NewestPoint(window, 0.0);
    }
  }

  predicate NewestRepeats(window: seq<Element>)
    requires window != []
  {
    exists i | 0 <= i < |window| - 1 :: window[i].x == window[|window| - 1].x
  }

  /** The newest sample adds a point unless its x occurred before, whatever the origin. */
  lemma NewestPoint(window: seq<Element>, base: real)
    requires window != []
    ensures |Points(Abscissae(window, base))|
         == |Points(Abscissae(window[..|window| - 1], base))| + if NewestRepeats(window) then 0 else 1
  {
    var n := |window| - 1;
    var xs, p := Abscissae(window[..n], base), window[n].x - base;
    assert Abscissae(window, base) == xs + [p];
    assert Points(xs + [p]) == Points(xs) + {p};
    if i :| 0 <= i < n && window[i].x == window[n].x {
      assert xs[i] == p;
    }
  }

  // ----- What a fit is -----

  /** Sum of the squared residuals of c, a polynomial in x - base, on one axis. */
  function Error(window: seq<Element>, axis: nat, base: real, c: Vector): real
    requires axis < 4
  {
    Misfit(Abscissae(window, base), Ordinates(window, axis), c)
  }

  /** No polynomial with as many coefficients, about whatever origin, has a smaller error; and
      one about the same origin that does as well is c. */
  ghost predicate BestFit(window: seq<Element>, axis: nat, base: real, c: Vector)
    requires axis < 4
  {
    && (forall q: Vector, b: real | |q| == |c| :: Error(window, axis, base, c) <= Error(window, axis, b, q))
    && (forall q: Vector | |q| == |c| && q != c :: Error(window, axis, base, c) < Error(window, axis, base, q))
  }

  lemma {:induction false} ErrorOfShifted(window: seq<Element>, axis: nat, base: real, b: real, q: Vector)
    requires axis < 4
    ensures Error(window, axis, base, Shift(q, base - b)) == Error(window, axis, b, q)
  {
    if window != [] {
      var n := |window| - 1;
      ErrorOfShifted(window[..n], axis, base, b, q);
      assert Abscissae(window, base)[..n] == Abscissae(window[..n], base);
      assert Abscissae(window, b)[..n] == Abscissae(window[..n], b);
      assert Ordinates(window, axis)[..n] == Ordinates(window[..n], axis);
      EvalShift(q, base - b, window[n].x - b);
      assert window[n].x - b - (base - b) == window[n].x - base;
    }
  }

  /** A solution of the normal equations over enough different points is the best fit. */
  lemma NormalEquationsFit(window: seq<Element>, axis: nat, base: real, c: Vector)
    requires axis < 4 && |c| > 0 && Spread(window) >= |c|
    requires NormalEquations(Abscissae(window, base), Ordinates(window, axis), c)
    ensures BestFit(window, axis, base, c)
  {
    var xs, ys := Abscissae(window, base), Ordinates(window, axis);
    forall q: Vector, b: real | |q| == |c|
      ensures Error(window, axis, base, c) <= Error(window, axis, b, q)
    {
      ErrorOfShifted(window, axis, base, b, q);
      NormalEquationsAreOptimal(xs, ys, c, Shift(q, base - b));
    }
    forall q: Vector | |q| == |c| && q != c
      ensures Error(window, axis, base, c) < Error(window, axis, base, q)
    {
      NormalEquationsAreOptimal(xs, ys, c, q);
      if Misfit(xs, ys, c) == Misfit(xs, ys, q) {
        SpreadOfShifted(window, base);
        AgreeOnPoints(c, q, xs);
      }
    }
  }

  lemma AgreeOnPoints(c: Vector, q: Vector, xs: Vector)
    requires |c| == |q| <= |Points(xs)|
    requires forall x | x in xs :: Eval(q, x) == Eval(c, x)
    ensures c == q
  {
    var d := Comb(1.0, q, -1.0, c);
    forall x | x in Points(xs)
      ensures Eval(d, x) == 0.0
    {
      EvalDifference(1.0, q, -1.0, c, x);
    }
    hide Comb;
    RootBound(d, Points(xs));
    forall i | 0 <= i < |c|
      ensures c[i] == q[i]
    {
      CombAt(1.0, q, -1.0, c, i);
    }
  }

  lemma {:induction false} PowerSumZero(xs: Vector)
    ensures PowerSum(xs, 0) == |xs| as real
  {
    if xs != [] {
      PowerSumZero(xs[..|xs| - 1]);
    }
  }

  lemma NoPowers()
    ensures forall k: nat :: PowerSum([], k) == 0.0
  {
  }

  lemma NextPowerSum(xs: Vector, i: nat, k: nat)
    requires i < |xs|
    ensures PowerSum(xs[..i + 1], k) == PowerSum(xs[..i], k) + Pow(xs[i], k)
  {
    assert xs[..i + 1][..i] == xs[..i];
  }

  lemma PowerZero(x: real)
    ensures Pow(x, 0) == 1.0
  {
  }

  lemma TermZero(x: real, y: real)
    ensures MomentTerm(Pow(x, 0), y) == y
  {
  }

  lemma TermNext(x: real, y: real, k: nat)
    ensures MomentTerm(Pow(x, k + 1), y) == MomentTerm(Pow(x, k), y) * x
  {
    assert Pow(x, k + 1) == x * Pow(x, k);
    hide Pow;
  }

  // ----- The class -----

  class LsFit {
    var elementCnt: nat
    var depth: nat
    var order: nat
    var basex: real
    var window: seq<Element>
    var parms: seq<Vector>
    /** The last fit divided by zero nowhere. */
    var finite: bool

    /** Once more than `order` samples are held there is a fit, and it is the best fit on every
        axis unless the samples have too few different x. */
    ghost predicate Valid()
      reads this
    {
      && 0 < order <= 0xFFFF
      && |window| <= elementCnt <= 0xFFFF
      && depth <= 4
      && (|window| > order ==> order <= 0x7FFF && Fitted())
    }

    ghost predicate Fitted()
      requires depth <= 4
      reads this
    {
      && |parms| == depth
      && (forall i | 0 <= i < depth :: |parms[i]| == order + 1)
      && (depth > 0 ==> (finite <==> Spread(window) > order))
      && (finite ==> forall i | 0 <= i < depth :: BestFit(window, i, basex, parms[i]))
    }

    lemma FitIs()
      requires Valid() && |window| > order && Spread(window) == |window| && depth > 0
      ensures finite && |parms| == depth && |window| <= 0xFFFF
      ensures forall i | 0 <= i < depth :: |parms[i]| == order + 1 && BestFit(window, i, basex, parms[i])
    {
      hide Spread, BestFit;
    }

    /** The count is kept in 16 bits. */
    constructor (cnt: nat, ord: nat)
      requires cnt <= 0xFFFF && ord <= 0xFFFF
      ensures Valid() && window == []
      ensures order == if ord == 0 then 1 else ord
      ensures elementCnt == if cnt == 0 then (order + 1) % 0x1_0000 else cnt
    {
      order := if ord != 0 then ord else 1;
      elementCnt := if cnt != 0 then cnt else ((if ord != 0 then ord else 1) + 1) % 0x1_0000;
      window, depth, parms, basex, finite := [], 0, [], 0.0, true;
    }

    /** The 16-bit loop of `fit` over 2*order never ends for larger orders, so with those a fit must
        not come up. */
    method Update(cfit: Element, dep: nat)
      requires Valid() && dep <= 4 && (order <= 0x7FFF || |window| < order || elementCnt <= order)
      modifies this
      ensures Valid() && order == old(order) && elementCnt == old(elementCnt)
      ensures window == Pushed(old(window), elementCnt, dep, cfit, D_SMALL)
      ensures depth == if Accepted(old(window), cfit) then dep else old(depth)
    {
      hide LengthSquared, BestFit, Spread;
      if |window| > 0 && cfit.x == window[|window| - 1].x {
        return;
      }
      depth := dep;
      if depth == 4 && |window| > 0 {
        if LengthSquared(Minus(cfit.y, window[|window| - 1].y), D_SMALL)
         > LengthSquared(Minus(Negated(cfit.y), window[|window| - 1].y), D_SMALL) {
          Mirror();
        }
      }
      window := window + [cfit];
      if |window| > elementCnt {
        window := window[1..];
      }
      if |window| > order {
        Fit();
      }
    }

    /** Replace every stored quaternion by its mirror image. */
    method Mirror()
      modifies this`window
      ensures window == AllNegated(old(window))
    {
      hide Negated;
      for i := 0 to |window|
        invariant |window| == |old(window)|
        invariant forall k | 0 <= k < i :: window[k] == AllNegated(old(window))[k]
        invariant forall k | i <= k < |window| :: window[k] == old(window)[k]
      {
        window := window[i := Element(window[i].x, Negated(window[i].y))];
      }
    }

    method Fit()
      requires 0 < order <= 0x7FFF && order < |window| <= 0xFFFF && depth <= 4
      modifies this`basex, this`parms, this`finite
      ensures Fitted()
    {
      basex := window[0].x;
      var xs := Abscissae(window, basex);
      var sumx := SumPowers();
      parms := [];
      finite := true;
      for i := 0 to depth
        invariant basex == window[0].x && |parms| == i
        invariant forall k | 0 <= k < i :: |parms[k]| == order + 1
        invariant i > 0 ==> (finite <==> Spread(window) > order)
        invariant finite ==> forall k | 0 <= k < i :: BestFit(window, k, basex, parms[k])
      {
        var c, ok := FitAxis(i, sumx);
        parms := parms + [c];
        finite := ok;
      }
    }

    /** Sums of the powers of x - basex up to 2*order. */
    method SumPowers() returns (sumx: seq<real>)
      requires |window| > 0
      ensures |sumx| == 2 * order + 1
      ensures forall k | 0 <= k <= 2 * order :: sumx[k] == PowerSum(Abscissae(window, basex), k)
    {
      hide Pow, PowerSum;
      ghost var xs := Abscissae(window, basex);
      var sums := new real[2 * order + 1](_ => 0.0);
      sums[0] := |window| as real;
      PowerSumZero(xs);
      NoPowers();
      for i := 0 to |window|
        invariant sums[0] == |window| as real
        invariant forall k | 0 < k <= 2 * order :: sums[k] == PowerSum(xs[..i], k)
      {
        var ix := 1.0;
        PowerZero(window[i].x - basex);
        var cx := window[i].x - basex;
        for j := 0 to 2 * order
          invariant ix == Pow(cx, j) && sums[0] == |window| as real
          invariant forall k | 0 < k <= j :: sums[k] == PowerSum(xs[..i + 1], k)
          invariant forall k | j < k <= 2 * order :: sums[k] == PowerSum(xs[..i], k)
        {
          PowerNext(cx, j);
          NextPowerSum(xs, i, j + 1);
          ix := ix * cx;
          sums[j + 1] := sums[j + 1] + ix;
        }
      }
      assert xs[..|window|] == xs;
      sumx := sums[..];
    }

    /** One axis: the sums of products, the normal equations and their solution. */
    method FitAxis(i: nat, sumx: seq<real>) returns (c: Vector, ok: bool)
      requires i < 4 && 0 < order <= 0x7FFF && order < |window| <= 0xFFFF
      requires |sumx| == 2 * order + 1
      requires forall k | 0 <= k <= 2 * order :: sumx[k] == PowerSum(Abscissae(window, basex), k)
      ensures |c| == order + 1
      ensures ok <==> Spread(window) > order
      ensures ok ==> BestFit(window, i, basex, c)
    {
      hide Pow, Misfit, PowerSum, GramRow, Defined, Solves, BestFit, Moment;
      ghost var xs, ys := Abscissae(window, basex), Ordinates(window, i);
      var sumxy := SumProducts(i);
      var xm: Matrix := [];
      for j := 0 to order + 1
        invariant xm == Gram(xs, order + 1)[..j]
      {
        var tx: Vector := [];
        ghost var row := GramRow(xs, j, order + 1);
        for k := 0 to order + 1
          invariant tx == row[..k]
        {
          GramRowAt(xs, j, order + 1, k);
          tx := tx + [sumx[k + j]];
          assert tx[k] == row[k];
        }
        assert tx == Gram(xs, order + 1)[j];
        xm := xm + [tx];
      }
      assert xm == Gram(xs, order + 1);
      var a := new real[order + 1];
      ok := MultiSolve(xm, sumxy, a);
      c := a[..];
      GramDefined(xs, order + 1);
      SpreadOfShifted(window, basex);
      if ok {
        SolvesNormalEquations(xs, ys, c);
        NormalEquationsFit(window, i, basex, c);
      }
    }

    method SumProducts(i: nat) returns (sumxy: seq<real>)
      requires i < 4
      ensures sumxy == Moments(Abscissae(window, basex), Ordinates(window, i), order + 1)
    {
      hide Pow, MomentTerm;
      ghost var xs, ys := Abscissae(window, basex), Ordinates(window, i);
      var sums := new real[order + 1](_ => 0.0);
      for j := 0 to |window|
        invariant forall k | 0 <= k <= order :: sums[k] == Moment(xs[..j], ys[..j], k)
      {
        var ixy := window[j].y[i];
        var cx := window[j].x - basex;
        TermZero(cx, ixy);
        assert xs[j] == cx && ys[j] == ixy;
        assert xs[..j + 1][..j] == xs[..j] && ys[..j + 1][..j] == ys[..j];
        for k := 0 to order + 1
          invariant ixy == MomentTerm(Pow(cx, k), ys[j])
          invariant forall m | 0 <= m < k :: sums[m] == Moment(xs[..j + 1], ys[..j + 1], m)
          invariant forall m | k <= m <= order :: sums[m] == Moment(xs[..j], ys[..j], m)
        {
          sums[k] := sums[k] + ixy;
          TermNext(cx, ys[j], k);
          ixy := ixy * cx;
        }
      }
      assert xs[..|window|] == xs && ys[..|window|] == ys;
      sumxy := sums[..];
    }

    /** The fitted value at x, zero while there are too few samples. */
    method Eval(x: real) returns (r: real)
      requires Valid() && depth > 0
      ensures |window| <= order ==> r == 0.0
      ensures |window| > order ==> r == Poly.Eval(parms[0], x - basex)
    {
      if |window| > order {
        r := EvaluatePoly(x - basex, parms[0]);
      } else {
        r := 0.0;
      }
    }
  }

  // ----- Whole runs of updates -----

  /** The window after a run of updates, oldest sample first. */
  function Run(samples: seq<Element>, count: nat, depth: nat, small: Length): seq<Element> {
    if samples == [] then []
    else Pushed(Run(samples[..|samples| - 1], count, depth, small), count, depth, samples[|samples| - 1], small)
  }

  /** The samples of a run that were not ignored. */
  function Taken(samples: seq<Element>, count: nat, depth: nat, small: Length): seq<Element> {
    if samples == [] then []
    else
      var init, e := samples[..|samples| - 1], samples[|samples| - 1];
      if Accepted(Run(init, count, depth, small), e) then Taken(init, count, depth, small) + [e]
      else Taken(init, count, depth, small)
  }

  function Last(samples: seq<Element>, n: nat): (r: seq<Element>)
    ensures |r| <= n && |r| <= |samples|
  {
    if |samples| <= n then samples else samples[|samples| - n..]
  }

  predicate SameUpToSign(p: Element, q: Element) {
    p.x == q.x && (p.y == q.y || p.y == Negated(q.y))
  }

  /** The window holds the latest samples taken, in order, each one or its mirror image. */
  lemma {:induction false} WindowHoldsLatest(samples: seq<Element>, count: nat, depth: nat, small: Length)
    ensures var w, t := Run(samples, count, depth, small), Last(Taken(samples, count, depth, small), count);
            && |w| == |t|
            && (forall i | 0 <= i < |w| :: SameUpToSign(w[i], t[i]))
            && (depth != 4 ==> w == t)
  {
    if samples != [] {
      var init, e := samples[..|samples| - 1], samples[|samples| - 1];
      WindowHoldsLatest(init, count, depth, small);
      PushedHoldsLatest(Run(init, count, depth, small), Taken(init, count, depth, small), count, depth, e, small);
    }
  }

  lemma PushedHoldsLatest(w: seq<Element>, taken: seq<Element>, count: nat, depth: nat, e: Element, small: Length)
    requires |w| == |Last(taken, count)|
    requires forall i | 0 <= i < |w| :: SameUpToSign(w[i], Last(taken, count)[i])
    requires depth != 4 ==> w == Last(taken, count)
    ensures Accepted(w, e) ==>
              var v, t := Pushed(w, count, depth, e, small), Last(taken + [e], count);
              && |v| == |t|
              && (forall i | 0 <= i < |v| :: SameUpToSign(v[i], t[i]))
              && (depth != 4 ==> v == t)
  {
    hide Mirrored, Negated, Inner, SameUpToSign;
    if Accepted(w, e) {
      var t := Last(taken, count);
      var kept := if depth == 4 && w != [] && Mirrored(e.y, w[|w| - 1].y, small) then AllNegated(w) else w;
      forall i | 0 <= i < |w|
        ensures SameUpToSign(kept[i], t[i])
      {
        SameSignOfMirror(w[i], t[i]);
      }
      SameSignOfSelf(e);
      assert forall i | 0 <= i < |w| + 1 :: SameUpToSign((kept + [e])[i], (t + [e])[i]);
      if |w| + 1 > count {
        assert Last(taken + [e], count) == (t + [e])[1..];
      } else {
        assert Last(taken + [e], count) == t + [e];
      }
    }
  }

  lemma SameSignOfSelf(e: Element)
    ensures SameUpToSign(e, e)
  {
  }

  lemma SameSignOfMirror(p: Element, q: Element)
    requires SameUpToSign(p, q)
    ensures SameUpToSign(Element(p.x, Negated(p.y)), q)
  {
    assert Negated(Negated(q.y)) == q.y;
  }

  // Quaternions

  /** On the same side of the sphere, or too close together for their distance to be seen. */
  predicate Aligned(p: Axes, q: Axes, small: Length) {
    Inner(p, q) >= 0.0 || Inner(Minus(q, p), Minus(q, p)) < SquareOf(small)
  }

  lemma InnerOfMirror(p: Axes, q: Axes)
    ensures Inner(Negated(p), Negated(q)) == Inner(p, q)
    ensures Inner(p, Negated(q)) == Inner(Negated(p), q) == -Inner(p, q)
  {
  }

  /** The parallelogram law, from both sides. */
  lemma DistanceOfMirror(y: Axes, last: Axes)
    ensures Inner(Minus(y, last), Minus(y, last)) == Inner(y, y) + Inner(last, last) - 2.0 * Inner(last, y)
    ensures Inner(Minus(Negated(y), last), Minus(Negated(y), last))
              == Inner(y, y) + Inner(last, last) + 2.0 * Inner(last, y)
  {
  }

  /** Mirroring the stored values when `Mirrored` says so, and only then, aligns the new value
      with the last one. */
  lemma ChoiceAligns(y: Axes, last: Axes, small: Length)
    ensures Mirrored(y, last, small) ==> Inner(Negated(last), y) > 0.0
    ensures !Mirrored(y, last, small) ==> Aligned(last, y, small)
  {
    DistanceOfMirror(y, last);
    InnerOfMirror(last, y);
    SquareBound(small);
    hide Inner, SquareOf;
  }

  lemma AlignedMirror(p: Axes, q: Axes, small: Length)
    requires Aligned(p, q, small)
    ensures Aligned(Negated(p), Negated(q), small)
  {
    InnerOfMirror(p, q);
    InnerOfMirror(Minus(q, p), Minus(q, p));
    assert Minus(Negated(q), Negated(p)) == Negated(Minus(q, p));
    hide Inner;
  }

  predicate Chained(w: seq<Element>, small: Length) {
    forall i | 0 <= i < |w| - 1 :: Aligned(w[i].y, w[i + 1].y, small)
  }

  /** Over any run of quaternion updates, neighbouring stored quaternions stay aligned. */
  lemma {:induction false} NeighboursAligned(samples: seq<Element>, count: nat, small: Length)
    ensures Chained(Run(samples, count, 4, small), small)
  {
    if samples != [] {
      var init, e := samples[..|samples| - 1], samples[|samples| - 1];
      NeighboursAligned(init, count, small);
      var w := Run(init, count, 4, small);
      PushedAligned(w, count, e, small);
    }
  }

  lemma PushedAligned(w: seq<Element>, count: nat, e: Element, small: Length)
    requires Chained(w, small)
    ensures Chained(Pushed(w, count, 4, e, small), small)
  {
    hide Mirrored, Aligned, Negated, Inner;
    if Accepted(w, e) && w != [] {
      var last := w[|w| - 1];
      ChoiceAligns(e.y, last.y, small);
      var kept := w;
      if Mirrored(e.y, last.y, small) {
        kept := AllNegated(w);
        PositiveAligned(Negated(last.y), e.y, small);
        forall i | 0 <= i < |w| - 1
          ensures Aligned(kept[i].y, kept[i + 1].y, small)
        {
          AlignedMirror(w[i].y, w[i + 1].y, small);
        }
      }
      var all := kept + [e];
      assert Chained(all, small) && Chained(all[1..], small);
    }
  }

  lemma PositiveAligned(p: Axes, q: Axes, small: Length)
    requires Inner(p, q) > 0.0
    ensures Aligned(p, q, small)
  {
  }

  /** Exactly when the newest two quaternions are on different sides of the sphere: they were
      before, and their distance could not be seen. */
  lemma NewestPair(w: seq<Element>, count: nat, e: Element, small: Length)
    requires Accepted(w, e) && w != [] && count >= 2 && |w| <= count
    ensures var v, last := Pushed(w, count, 4, e, small), w[|w| - 1].y;
      && |v| >= 2
      && (Inner(v[|v| - 2].y, v[|v| - 1].y) < 0.0 <==>
          Inner(last, e.y) < 0.0 && Inner(Minus(e.y, last), Minus(e.y, last)) < SquareOf(small))
  {
    var last := w[|w| - 1].y;
    DistanceOfMirror(e.y, last);
    InnerOfMirror(last, e.y);
    SquareBound(small);
    hide Inner, SquareOf, Negated, Minus;
  }

  /** The other neighbours keep their inner products. */
  lemma OlderPairs(w: seq<Element>, count: nat, e: Element, i: nat, small: Length)
    requires Accepted(w, e) && |w| <= count && i + 2 < |Pushed(w, count, 4, e, small)|
    ensures var v, j := Pushed(w, count, 4, e, small), if |w| == count then i + 1 else i;
      && j + 1 < |w| && Inner(v[i].y, v[i + 1].y) == Inner(w[j].y, w[j + 1].y)
  {
    var j := if |w| == count then i + 1 else i;
    InnerOfMirror(w[j].y, w[j + 1].y);
    hide Inner, Mirrored, Negated;
  }

  /** Two opposite quaternions that are too close together for the mirroring to happen. */
  lemma TinyOpposites(t: real, small: Length)
    requires t != 0.0
    ensures var w := Run([Along(0.0, Quarter(small)), Along(t, -Quarter(small))], 2, 4, small);
      |w| == 2 && Inner(w[0].y, w[1].y) < 0.0
  {
    var p, q := Along(0.0, Quarter(small)), Along(t, -Quarter(small));
    assert p.x != q.x && Quarter(small) == small / 4.0;
    hide *;
    TinyProducts(small, Quarter(small), p, q);
    RunOfTwo(p, q, small);
    NewestPair([p], 2, q, small);
    SquareIs(small);
  }

  function Quarter(d: real): real { d / 4.0 }

  function Along(x: real, d: real): Element { Element(x, [d, 0.0, 0.0, 0.0]) }

  lemma SquareIs(small: real)
    ensures SquareOf(small) == small * small
  {
  }

  lemma RunOfTwo(p: Element, q: Element, small: Length)
    requires p.x != q.x
    ensures Accepted([p], q) && Run([p, q], 2, 4, small) == Pushed([p], 2, 4, q, small)
    ensures |Run([p, q], 2, 4, small)| == 2
  {
    hide Mirrored, Inner;
    assert [p, q][..1] == [p] && [p][..0] == [];
    assert Run([p], 2, 4, small) == [p];
  }

  lemma TinyProducts(s: real, d: real, p: Element, q: Element)
    requires s > 0.0 && d == s / 4.0 && p.y == Along(0.0, d).y && q.y == Along(0.0, -d).y
    ensures Inner(p.y, q.y) < 0.0 && Inner(Minus(q.y, p.y), Minus(q.y, p.y)) < s * s
  {
    assert Inner(p.y, q.y) == -(d * d) && d * d > 0.0;
    assert Inner(Minus(q.y, p.y), Minus(q.y, p.y)) == (-d - d) * (-d - d) == 4.0 * (d * d);
    assert s * s == (4.0 * d) * (4.0 * d) == 16.0 * (d * d);
  }

  /** For unit quaternions there is no exception: neighbours have a non-negative inner product. */
  lemma UnitNeighbours(samples: seq<Element>, count: nat, small: Length)
    requires forall e | e in samples :: Inner(e.y, e.y) == 1.0
    ensures var w := Run(samples, count, 4, small); forall i | 0 <= i < |w| - 1 :: Inner(w[i].y, w[i + 1].y) >= 0.0
  {
    var w := Run(samples, count, 4, small);
    NeighboursAligned(samples, count, small);
    RunOfUnits(samples, count, small);
    hide Inner, Run;
    forall i | 0 <= i < |w| - 1
      ensures Inner(w[i].y, w[i + 1].y) >= 0.0
    {
      assert w[i] in w && w[i + 1] in w;
      UnitAligned(w[i].y, w[i + 1].y, small);
    }
  }

  lemma SquareBound(s: real)
    requires 0.0 < s < 1.0
    ensures 0.0 < SquareOf(s) < 1.0
  {
    hide SquareOf;
    SquareIs(s);
    BelowOne(s, s * s);
  }

  lemma BelowOne(s: real, p: real)
    requires 0.0 < s < 1.0 && p == s * s
    ensures 0.0 < p < 1.0
  {
    SameSignProduct(s, s, p);
    SameSignProduct(s, 1.0 - s, s - p);
  }

  lemma UnitAligned(p: Axes, q: Axes, small: Length)
    requires Inner(p, p) == Inner(q, q) == 1.0 && Aligned(p, q, small)
    ensures Inner(p, q) >= 0.0
  {
    DistanceOfMirror(q, p);
    SquareBound(small);
    hide Inner, SquareOf;
  }

  lemma {:induction false} RunOfUnits(samples: seq<Element>, count: nat, small: Length)
    requires forall e | e in samples :: Inner(e.y, e.y) == 1.0
    ensures forall e | e in Run(samples, count, 4, small) :: Inner(e.y, e.y) == 1.0
  {
    hide Inner, Mirrored, Negated;
    if samples != [] {
      RunOfUnits(samples[..|samples| - 1], count, small);
      var w := Run(samples[..|samples| - 1], count, 4, small);
      forall e | e in AllNegated(w)
        ensures Inner(e.y, e.y) == 1.0
      {
        var i :| 0 <= i < |w| && e == Element(w[i].x, Negated(w[i].y));
        InnerOfMirror(w[i].y, w[i].y);
      }
    }
  }

  // Definedness

  predicate Increasing(samples: seq<Element>) {
    forall i, j | 0 <= i < j < |samples| :: samples[i].x < samples[j].x
  }

  /** With strictly increasing x nothing is ignored and all x in the window differ, so every fit
      of the run divides by zero nowhere. */
  lemma {:induction false} IncreasingRun(samples: seq<Element>, count: nat, depth: nat, small: Length)
    requires Increasing(samples)
    ensures Taken(samples, count, depth, small) == samples
    ensures Spread(Run(samples, count, depth, small)) == |Run(samples, count, depth, small)|
    ensures forall n: nat, base: real | 0 < n <= |Run(samples, count, depth, small)| ::
              Defined(Gram(Abscissae(Run(samples, count, depth, small), base), n))
  {
    AllDifferent(samples, count, depth, small);
    var w := Run(samples, count, depth, small);
    hide *;
    forall n: nat, base: real | 0 < n <= |w|
      ensures Defined(Gram(Abscissae(w, base), n))
    {
      GramDefined(Abscissae(w, base), n);
      SpreadOfShifted(w, base);
    }
  }

  lemma {:induction false} AllDifferent(samples: seq<Element>, count: nat, depth: nat, small: Length)
    requires Increasing(samples)
    ensures Taken(samples, count, depth, small) == samples
    ensures Spread(Run(samples, count, depth, small)) == |Run(samples, count, depth, small)|
  {
    AllTaken(samples, count, depth, small);
    WindowHoldsLatest(samples, count, depth, small);
    var w := Run(samples, count, depth, small);
    var xs := Abscissae(w, 0.0);
    PointsSize(xs);
    assert Distinct(xs) by {
      var t := Last(samples, count);
      assert forall i | 0 <= i < |w| :: SameUpToSign(w[i], t[i]);
    }
  }

  lemma {:induction false} AllTaken(samples: seq<Element>, count: nat, depth: nat, small: Length)
    requires Increasing(samples)
    ensures Taken(samples, count, depth, small) == samples
  {
    hide Run, Pushed, Mirrored, Negated, Inner;
    if samples != [] {
      var init := samples[..|samples| - 1];
      AllTaken(init, count, depth, small);
      if Run(init, count, depth, small) != [] {
        NewestStored(init, count, depth, small);
      }
    }
  }

  lemma NewestStored(samples: seq<Element>, count: nat, depth: nat, small: Length)
    requires Run(samples, count, depth, small) != [] && Taken(samples, count, depth, small) == samples
    ensures samples != []
    ensures var w := Run(samples, count, depth, small); w[|w| - 1].x == samples[|samples| - 1].x
  {
    WindowHoldsLatest(samples, count, depth, small);
    hide Run, Taken, Negated;
    var w, t := Run(samples, count, depth, small), Last(samples, count);
    assert SameUpToSign(w[|w| - 1], t[|w| - 1]);
    assert t[|w| - 1] == samples[|samples| - 1];
  }

  /** A run of updates: with strictly increasing x, whenever more than `order` samples are held
      the fit is finite, and the best. */
  method UpdateEach(f: LsFit, samples: seq<Element>, depth: nat)
    requires f.Valid() && f.window == [] && 0 < depth <= 4 && f.order <= 0x7FFF
    modifies f
    ensures f.Valid() && f.order == old(f.order) && f.elementCnt == old(f.elementCnt)
    ensures f.window == Run(samples, f.elementCnt, depth, D_SMALL)
    ensures Increasing(samples) && |f.window| > f.order ==>
              f.finite && |f.parms| == depth && forall i | 0 <= i < depth :: BestFit(f.window, i, f.basex, f.parms[i])
  {
    hide *;
    RunOfNone(f.elementCnt, depth, D_SMALL);
    for n := 0 to |samples|
      invariant f.Valid() && f.order == old(f.order) && f.elementCnt == old(f.elementCnt)
      invariant f.window == Run(samples[..n], f.elementCnt, depth, D_SMALL) && (f.window != [] ==> f.depth == depth)
    {
      RunExtends(samples[..n], samples[n], f.elementCnt, depth, D_SMALL);
      assert samples[..n + 1] == samples[..n] + [samples[n]];
      f.Update(samples[n], depth);
    }
    assert samples[..|samples|] == samples;
    if Increasing(samples) && |f.window| > f.order {
      AllDifferent(samples, f.elementCnt, depth, D_SMALL);
      f.FitIs();
    }
  }

  lemma RunOfNone(count: nat, depth: nat, small: Length)
    ensures Run([], count, depth, small) == []
  {
  }

  lemma RunExtends(samples: seq<Element>, e: Element, count: nat, depth: nat, small: Length)
    ensures Run(samples + [e], count, depth, small) == Pushed(Run(samples, count, depth, small), count, depth, e, small)
    ensures Run(samples, count, depth, small) == [] ==> Accepted(Run(samples, count, depth, small), e)
    ensures !Accepted(Run(samples, count, depth, small), e) ==>
              Run(samples + [e], count, depth, small) == Run(samples, count, depth, small)
  {
    assert (samples + [e])[..|samples|] == samples;
    hide Mirrored, Negated;
  }

  /** Going back and forth between two values of x is not ignored, yet leaves a quadratic fit
      undefined: the spread is too small. */
  lemma AlternatingRunIsUndefined(y: Axes, small: Length)
    ensures var samples := [Element(0.0, y), Element(1.0, y), Element(0.0, y)];
            Run(samples, 3, 1, small) == samples && Spread(samples) == 2
  {
    var a, b := Element(0.0, y), Element(1.0, y);
    var samples := [a, b, a];
    assert samples[..2] == [a, b] && [a, b][..1] == [a] && [a][..0] == [];
    assert Run([a], 3, 1, small) == [a];
    assert Run([a, b], 3, 1, small) == [a, b];
    assert Abscissae(samples, 0.0) == [0.0, 1.0, 0.0];
    assert Points([0.0, 1.0, 0.0]) == {0.0, 1.0};
  }
}
