/** One axis of the Gauss-Jackson integrator of libraries/math/mathlib.cpp: the loops over its
    nodes, and what they do to a node on a polynomial motion. */
module GaussJacksonAxis {
  import opened Linear
  import opened Poly
  import opened Series
  import opened GaussJacksonKernel
  import opened GaussJacksonSeries
  import opened GaussJacksonMotion

  // ----- One axis -----

  /** A node of one axis: position, velocity, acceleration, rows and sums. */
  datatype GjStep = GjStep(vd0: real, vd1: real, vd2: real, a: Vector, b: Vector, s: real, ss: real, sa: real, sb: real)

  function Accels(st: seq<GjStep>): (r: Vector)
    ensures |r| == |st| && forall i | 0 <= i < |st| :: r[i] == st[i].vd2
  {
    seq(|st|, i requires 0 <= i < |st| => st[i].vd2)
  }

  predicate Shaped(k: GjKernel, st: seq<GjStep>) {
    |st| == k.order + 2 && forall i | 0 <= i < |st| :: |st[i].a| == |st[i].b| == k.order + 1
  }

  /** The nodes hold the rows they were created with. */
  ghost predicate HasRows(k: GjKernel, st: seq<GjStep>) {
    && IsKernel(k) && Shaped(k, st)
    && forall j | 0 <= j < |st| :: st[j].a == RowA(k, j) && st[j].b == RowB(k, j)
  }

  /** The node holds the position, velocity, acceleration and sums of the motion p at x. */
  ghost predicate AtNode(k: GjKernel, p: Vector, x: real, step: GjStep)
    requires IsKernel(k) && k.dvi != 0.0 && k.dvi2 != 0.0
  {
    && step.vd0 == Eval(p, x) && step.vd1 == Eval(Deriv(p), x) && step.vd2 == Eval(Deriv(Deriv(p)), x)
    && step.s == FirstSum(k, Deriv(p), Deriv(Deriv(p)), x)
    && step.ss == SecondSum(k, p, Deriv(Deriv(p)), x)
  }

  /** A row's weights times the accelerations. */
  method RowSum(row: Vector, st: array<GjStep>) returns (sum: real)
    requires |row| <= st.Length
    ensures sum == Dot(row, Accels(st[..|row|]))
  {
    hide Dot;
    sum := 0.0;
    DotZero([]);
    for k := 0 to |row|
      invariant sum == Dot(row[..k], Accels(st[..k]))
    {
      DotExtends(row[..k], Accels(st[..k]), row[k], st[k].vd2);
      assert row[..k + 1] == row[..k] + [row[k]];
      assert Accels(st[..k + 1]) == Accels(st[..k]) + [st[k].vd2];
      sum := sum + row[k] * st[k].vd2;
    }
    assert row[..|row|] == row;
  }

  // ----- Extrapolation of one axis -----

  function Mean(p: real, q: real): real { (p + q) / 2.0 }

  /** The next node, its acceleration still to be calculated. */
  function Predicted(k: GjKernel, st: seq<GjStep>): GjStep
    requires Shaped(k, st)
  {
    var last, next, f := st[k.order], st[k.order + 1], Accels(st[..k.order + 1]);
    var ss, sb, sa := last.ss + last.s + Mul(0.5, last.vd2), Dot(next.b, f), Dot(next.a, f);
    next.(ss := ss, sb := sb, sa := sa,
          vd1 := Times(k.dvi, last.s + Mul(0.5, last.vd2) + sb), vd0 := Times(Mul(k.dvi, k.dvi), ss + sa))
  }

  /** The nodes one step later. */
  function Advanced(k: GjKernel, st: seq<GjStep>, vd2: real): (r: seq<GjStep>)
    requires Shaped(k, st)
    ensures |r| == |st|
  {
    var last := st[k.order];
    var next := Predicted(k, st).(vd2 := vd2, s := last.s + Mean(last.vd2, vd2));
    st[1..k.order + 1] + [next, next]
  }

  method Predict(k: GjKernel, st: array<GjStep>)
    requires Shaped(k, st[..])
    modifies st
    ensures st[..] == old(st[..])[k.order + 1 := Predicted(k, old(st[..]))]
  {
    hide Dot, Times, Mul;
    var n := k.order;
    ghost var was := st[..];
    assert st[..n + 1] == was[..n + 1];
    st[n + 1] := st[n + 1].(ss := st[n].ss + st[n].s + Mul(0.5, st[n].vd2));
    assert st[..n + 1] == was[..n + 1] && st[n + 1].a == was[n + 1].a && st[n + 1].b == was[n + 1].b;
    var sb := RowSum(st[n + 1].b, st);
    var sa := RowSum(st[n + 1].a, st);
    assert sb == Dot(was[n + 1].b, Accels(was[..n + 1])) && sa == Dot(was[n + 1].a, Accels(was[..n + 1]));
    assert st[n] == was[n];
    st[n + 1] := st[n + 1].(sb := sb, sa := sa);
    st[n + 1] := st[n + 1].(vd1 := Times(k.dvi, st[n].s + Mul(0.5, st[n].vd2) + st[n + 1].sb));
    st[n + 1] := st[n + 1].(vd0 := Times(Mul(k.dvi, k.dvi), st[n + 1].ss + st[n + 1].sa));
    ghost var r := Predicted(k, was);
    assert st[n + 1].ss == r.ss && st[n + 1].sa == r.sa && st[n + 1].vd1 == r.vd1 && st[n + 1].vd0 == r.vd0;
    assert st[n + 1] == r;
  }

  /** Set the new acceleration and shift the nodes by one. */
  method Advance(k: GjKernel, st: array<GjStep>, vd2: real, ghost was: seq<GjStep>)
    requires Shaped(k, was) && st[..] == was[k.order + 1 := Predicted(k, was)]
    modifies st
    ensures st[..] == Advanced(k, was, vd2)
  {
    var n := k.order;
    hide Predicted, Mean;
    st[n + 1] := st[n + 1].(vd2 := vd2);
    st[n + 1] := st[n + 1].(s := st[n].s + Mean(st[n].vd2, st[n + 1].vd2));
    ShiftNodes(st);
  }

  method ShiftNodes(st: array<GjStep>)
    requires st.Length > 0
    modifies st
    ensures st[..] == old(st[..])[1..] + [old(st[st.Length - 1])]
  {
    ghost var was := st[..];
    for i := 0 to st.Length - 1
      invariant forall l | 0 <= l < i :: st[l] == was[l + 1]
      invariant forall l | i <= l < st.Length :: st[l] == was[l]
    {
      st[i] := st[i + 1];
    }
  }

  /** All nodes up to `order` are on the motion, and the next row is in place. */
  ghost predicate AxisOnMotion(k: GjKernel, p: Vector, times: seq<real>, st: seq<GjStep>) {
    && IsKernel(k) && k.dvi != 0.0 && k.dvi2 != 0.0 && |p| <= k.order + 3
    && |times| == k.order + 1 && Uniform(times, k.dvi) && Shaped(k, st)
    && st[k.order + 1].a == RowA(k, k.order + 1) && st[k.order + 1].b == RowB(k, k.order + 1)
    && forall i | 0 <= i <= k.order :: AtNode(k, p, times[i], st[i])
  }

  lemma PredictedFields(k: GjKernel, st: seq<GjStep>)
    requires Shaped(k, st)
    ensures var r, last, f := Predicted(k, st), st[k.order], Accels(st[..k.order + 1]);
      && r.a == st[k.order + 1].a && r.b == st[k.order + 1].b
      && r.ss == last.ss + last.s + Mul(0.5, last.vd2)
      && r.sa == Dot(r.a, f) && r.sb == Dot(r.b, f)
      && r.vd1 == Times(k.dvi, last.s + Mul(0.5, last.vd2) + r.sb)
      && r.vd0 == Times(Mul(k.dvi, k.dvi), r.ss + r.sa)
  {
  }

  /** The predictor is exact. */
  lemma PredictedOnMotion(k: GjKernel, p: Vector, times: seq<real>, st: seq<GjStep>, x: real)
    requires AxisOnMotion(k, p, times, st) && x == times[k.order] + k.dvi
    ensures Predicted(k, st).vd0 == Eval(p, x) && Predicted(k, st).vd1 == Eval(Deriv(p), x)
    ensures Predicted(k, st).ss == SecondSum(k, p, Deriv(Deriv(p)), x)
    ensures Predicted(k, st).a == RowA(k, k.order + 1) && Predicted(k, st).b == RowB(k, k.order + 1)
  {
    var v, f, n := Deriv(p), Deriv(Deriv(p)), k.order;
    hide *;
    OnMotionFacts(k, p, times, st);
    var y, values := times[n], Accels(st[..n + 1]);
    KernelFacts(k);
    AccelsSampled(k, p, times, st);
    assert x - k.dvi == y;
    RowsAfterMotion(k, f, times, values, x);
    SumsStep(k, p, v, f, x);
    SumsGiveMotion(k, p, v, f, x);
    PredictedFields(k, st);
    HalfSum(Eval(f, x));
  }

  lemma KernelFacts(k: GjKernel)
    requires IsKernel(k)
    ensures |k.c| == |k.q| == k.order + 3 && |k.alpha| == |k.beta| == k.order + 2
    ensures (forall j | 0 <= j < |k.beta| :: |k.beta[j]| == |k.alpha[j]| == k.order + 1)
    ensures k.horder == k.order / 2 && Mul(k.dvi, k.dvi) == k.dvi2
  {
    hide BackPower, PartialSum, Conv;
  }

  lemma OnMotionFacts(k: GjKernel, p: Vector, times: seq<real>, st: seq<GjStep>)
    requires AxisOnMotion(k, p, times, st)
    ensures IsMotion(k, p, Deriv(p), Deriv(Deriv(p))) && |Deriv(Deriv(p))| <= k.order + 1
    ensures IsKernel(k) && |k.c| == |k.q| == k.order + 3 && |k.alpha| == |k.beta| == k.order + 2
    ensures forall j | 0 <= j < |k.beta| :: |k.beta[j]| == |k.alpha[j]| == k.order + 1
    ensures k.dvi != 0.0 && k.dvi2 != 0.0 && |times| == k.order + 1 && Uniform(times, k.dvi)
    ensures |st| == k.order + 2 && Shaped(k, st)
    ensures st[k.order + 1].a == RowA(k, k.order + 1) && st[k.order + 1].b == RowB(k, k.order + 1)
    ensures var y, last := times[k.order], st[k.order];
      && last.vd2 == Eval(Deriv(Deriv(p)), y) && last.s == FirstSum(k, Deriv(p), Deriv(Deriv(p)), y)
      && last.ss == SecondSum(k, p, Deriv(Deriv(p)), y)
  {
    KernelFacts(k);
    assert AtNode(k, p, times[k.order], st[k.order]);
    hide IsKernel, Eval, Uniform, RowA, RowB, FirstSum, SecondSum;
  }

  lemma AccelsSampled(k: GjKernel, p: Vector, times: seq<real>, st: seq<GjStep>)
    requires AxisOnMotion(k, p, times, st)
    ensures Sampled(Deriv(Deriv(p)), times, Accels(st[..k.order + 1]))
    ensures |Deriv(Deriv(p))| <= k.order + 1
  {
    hide FirstSum, SecondSum, Eval, Conv, BackPower, PartialSum;
    forall i | 0 <= i <= k.order
      ensures Accels(st[..k.order + 1])[i] == Eval(Deriv(Deriv(p)), times[i])
    {
      assert AtNode(k, p, times[i], st[i]);
    }
  }

  lemma HalfSum(p: real)
    ensures Mul(0.5, p) + Mul(0.5, p) == p
  {
  }

  /** One step of extrapolation keeps every node on the motion. */
  lemma AdvancedOnMotion(k: GjKernel, p: Vector, times: seq<real>, st: seq<GjStep>, x: real)
    requires AxisOnMotion(k, p, times, st) && x == times[k.order] + k.dvi
    ensures AxisOnMotion(k, p, times[1..] + [x], Advanced(k, st, Eval(Deriv(Deriv(p)), x)))
  {
    var n, r, after := k.order, Advanced(k, st, Eval(Deriv(Deriv(p)), x)), times[1..] + [x];
    PredictedOnMotion(k, p, times, st, x);
    NextNodeOnMotion(k, p, times, st, x);
    hide Dot, Times, Eval, Deriv, FirstSum, SecondSum, RowA, RowB, Mul, Conv, BackPower, PartialSum, Predicted,
         IsKernel;
    forall i | 0 <= i <= n
      ensures AtNode(k, p, after[i], r[i])
    {
      if i < n {
        assert AtNode(k, p, times[i + 1], st[i + 1]);
      }
    }
  }

  lemma NextNodeOnMotion(k: GjKernel, p: Vector, times: seq<real>, st: seq<GjStep>, x: real)
    requires AxisOnMotion(k, p, times, st) && x == times[k.order] + k.dvi
    ensures AtNode(k, p, x, Advanced(k, st, Eval(Deriv(Deriv(p)), x))[k.order])
  {
    var v, f, n := Deriv(p), Deriv(Deriv(p)), k.order;
    var y := times[n];
    assert IsMotion(k, p, v, f) && x - k.dvi == y;
    assert AtNode(k, p, y, st[n]);
    hide Dot, Times, Eval, Deriv, FirstSum, SecondSum, RowA, RowB, Mul, Mean, BackPower, PartialSum, Predicted,
         IsKernel;
    PredictedOnMotion(k, p, times, st, x);
    SumsStep(k, p, v, f, x);
    MeanIs(st[n].vd2, Eval(f, x));
  }

  // ----- Preset of one axis -----

  /** The first sum grows from node to node by the mean of their accelerations. */
  predicate FirstLink(from: GjStep, to: GjStep) {
    to.s == from.s + Mean(from.vd2, to.vd2)
  }

  /** The second sum grows by the first sum and half the acceleration. */
  predicate SecondLink(from: GjStep, to: GjStep) {
    to.ss == from.ss + from.s + Mul(0.5, from.vd2)
  }

  /** Nodes lo to hi carry linked first sums; nothing else has changed. */
  predicate FirstChain(was: seq<GjStep>, st: seq<GjStep>, lo: int, hi: int) {
    && |st| == |was| && (forall i | 0 <= i < |st| :: st[i] == was[i].(s := st[i].s))
    && 0 <= lo <= hi < |st| && forall i, j | lo <= i < hi && j == i + 1 :: FirstLink(st[i], st[j])
  }

  predicate SecondChain(was: seq<GjStep>, st: seq<GjStep>, lo: int, hi: int) {
    && |st| == |was| && (forall i | 0 <= i < |st| :: st[i] == was[i].(ss := st[i].ss))
    && 0 <= lo <= hi < |st| && forall i, j | lo <= i < hi && j == i + 1 :: SecondLink(st[i], st[j])
  }

  /** The first sums of nodes 0 to 2*horder, anchored at the centre's velocity. */
  predicate FirstSummed(k: GjKernel, was: seq<GjStep>, st: seq<GjStep>)
    requires Shaped(k, was) && k.dvi != 0.0
  {
    var h := k.order / 2;
    && FirstChain(was, st, 0, 2 * h)
    && st[h].s == Over(was[h].vd1, k.dvi) - Dot(was[h].b, Accels(was[..k.order + 1]))
  }

  /** The second sums, anchored at the centre's position. */
  predicate SecondSummed(k: GjKernel, was: seq<GjStep>, st: seq<GjStep>)
    requires Shaped(k, was) && k.dvi2 != 0.0
  {
    var h := k.order / 2;
    && SecondChain(was, st, 0, 2 * h)
    && st[h].ss == Over(was[h].vd0, k.dvi2) - Dot(was[h].a, Accels(was[..k.order + 1]))
  }

  /** The row sums of every node but the centre and the last. */
  predicate RowsSummed(k: GjKernel, was: seq<GjStep>, st: seq<GjStep>)
    requires Shaped(k, was)
  {
    var h, f := k.order / 2, Accels(was[..k.order + 1]);
    && |st| == |was| && st[h] == was[h] && st[k.order + 1] == was[k.order + 1]
    && forall i | 0 <= i <= k.order && i != h :: st[i] == was[i].(sb := Dot(was[i].b, f), sa := Dot(was[i].a, f))
  }

  lemma MeanIs(p: real, q: real)
    ensures Mean(p, q) == Mul(0.5, p) + Mul(0.5, q)
  {
  }

  lemma Links(from: GjStep, to: GjStep)
    ensures FirstLink(from, to) <==> to.s == from.s + Mul(0.5, from.vd2) + Mul(0.5, to.vd2)
  {
  }

  lemma FirstChainExtends(was: seq<GjStep>, before: seq<GjStep>, lo: int, hi: int, p: real, q: real)
    requires FirstChain(was, before, lo, hi) && 0 < lo && hi + 1 < |was|
    requires p == before[hi].s + Mean(before[hi].vd2, before[hi + 1].vd2)
    requires q == before[lo].s - Mean(before[lo - 1].vd2, before[lo].vd2)
    ensures FirstChain(was, before[hi + 1 := before[hi + 1].(s := p)][lo - 1 := before[lo - 1].(s := q)], lo - 1,
                       hi + 1)
  {
    hide Mean;
  }

  lemma SecondChainExtends(was: seq<GjStep>, before: seq<GjStep>, lo: int, hi: int, p: real, q: real)
    requires SecondChain(was, before, lo, hi) && 0 < lo && hi + 1 < |was|
    requires FirstLink(was[lo - 1], was[lo])
    requires p == before[hi].ss + before[hi].s + Mul(0.5, before[hi].vd2)
    requires q == before[lo].ss - before[lo].s + Mul(0.5, before[lo].vd2)
    ensures SecondChain(was, before[hi + 1 := before[hi + 1].(ss := p)][lo - 1 := before[lo - 1].(ss := q)], lo - 1,
                        hi + 1)
  {
    Links(was[lo - 1], was[lo]);
    hide Mean, Mul, FirstLink;
  }

  /** One node outward on each side. */
  method ExtendFirst(st: array<GjStep>, lo: int, hi: int, ghost was: seq<GjStep>)
    requires FirstChain(was, st[..], lo, hi) && 0 < lo && hi + 1 < st.Length
    modifies st
    ensures FirstChain(was, st[..], lo - 1, hi + 1)
    ensures forall i | lo <= i <= hi :: st[i] == old(st[i])
  {
    ghost var before := st[..];
    hide Mean, FirstChain, FirstLink;
    var p := st[hi].s + Mean(st[hi].vd2, st[hi + 1].vd2);
    st[hi + 1] := st[hi + 1].(s := p);
    var q := st[lo].s - Mean(st[lo - 1].vd2, st[lo].vd2);
    st[lo - 1] := st[lo - 1].(s := q);
    FirstChainExtends(was, before, lo, hi, p, q);
    assert st[..] == before[hi + 1 := before[hi + 1].(s := p)][lo - 1 := before[lo - 1].(s := q)];
  }

  method ExtendSecond(st: array<GjStep>, lo: int, hi: int, ghost was: seq<GjStep>)
    requires SecondChain(was, st[..], lo, hi) && 0 < lo && hi + 1 < st.Length && FirstLink(was[lo - 1], was[lo])
    modifies st
    ensures SecondChain(was, st[..], lo - 1, hi + 1)
    ensures forall i | lo <= i <= hi :: st[i] == old(st[i])
  {
    ghost var before := st[..];
    hide Mul, SecondChain, FirstLink;
    var p := st[hi].ss + st[hi].s + Mul(0.5, st[hi].vd2);
    st[hi + 1] := st[hi + 1].(ss := p);
    var q := st[lo].ss - st[lo].s + Mul(0.5, st[lo].vd2);
    st[lo - 1] := st[lo - 1].(ss := q);
    SecondChainExtends(was, before, lo, hi, p, q);
    assert st[..] == before[hi + 1 := before[hi + 1].(ss := p)][lo - 1 := before[lo - 1].(ss := q)];
  }

  method FirstSums(k: GjKernel, st: array<GjStep>)
    requires Shaped(k, st[..]) && k.dvi != 0.0 && k.horder == k.order / 2
    modifies st
    ensures FirstSummed(k, old(st[..]), st[..])
  {
    ghost var was := st[..];
    assert st[..k.order + 1] == was[..k.order + 1];
    var h := k.horder;
    var sum := RowSum(st[h].b, st);
    st[h] := st[h].(s := Over(st[h].vd1, k.dvi) - sum);
    assert FirstChain(was, st[..], h, h);
    hide Dot, Mean, Mul, Over, FirstChain, FirstLink;
    for n := 1 to h + 1
      invariant FirstChain(was, st[..], h - n + 1, h + n - 1)
      invariant st[h].s == Over(was[h].vd1, k.dvi) - sum
    {
      ExtendFirst(st, h - n + 1, h + n - 1, was);
    }
  }

  method SecondSums(k: GjKernel, st: array<GjStep>, ghost first: seq<GjStep>)
    requires Shaped(k, st[..]) && k.dvi2 != 0.0 && k.horder == k.order / 2
    requires FirstChain(first, st[..], 0, 2 * k.horder)
    modifies st
    ensures SecondSummed(k, old(st[..]), st[..])
  {
    ghost var was := st[..];
    assert st[..k.order + 1] == was[..k.order + 1];
    var h := k.horder;
    var sum := RowSum(st[h].a, st);
    st[h] := st[h].(ss := Over(st[h].vd0, k.dvi2) - sum);
    assert SecondChain(was, st[..], h, h);
    hide Dot, Mean, Mul, Over, SecondChain, FirstLink;
    for n := 1 to h + 1
      invariant SecondChain(was, st[..], h - n + 1, h + n - 1)
      invariant st[h].ss == Over(was[h].vd0, k.dvi2) - sum
    {
      assert FirstLink(was[h - n], was[h - n + 1]);
      ExtendSecond(st, h - n + 1, h + n - 1, was);
    }
  }

  method RowSums(k: GjKernel, st: array<GjStep>)
    requires Shaped(k, st[..]) && k.horder == k.order / 2
    modifies st
    ensures RowsSummed(k, old(st[..]), st[..])
  {
    hide Dot;
    ghost var was := st[..];
    ghost var f := Accels(was[..k.order + 1]);
    for n := 0 to k.order + 1
      invariant forall i | 0 <= i < n && i != k.horder ::
                  st[i] == was[i].(sb := Dot(was[i].b, f), sa := Dot(was[i].a, f))
      invariant st[k.horder] == was[k.horder]
      invariant forall i | n <= i < |was| :: st[i] == was[i]
      invariant Accels(st[..k.order + 1]) == f
    {
      if n != k.horder {
        var sb := RowSum(st[n].b, st);
        var sa := RowSum(st[n].a, st);
        st[n] := st[n].(sb := sb, sa := sa);
      }
    }
  }

  /** All the sums of an axis: what one pass of `gauss_jackson_preset` does before it corrects
      the nodes. */
  predicate Summed(k: GjKernel, was: seq<GjStep>, st: seq<GjStep>)
    requires Shaped(k, was) && k.dvi != 0.0 && k.dvi2 != 0.0
  {
    var h, f := k.order / 2, Accels(was[..k.order + 1]);
    && |st| == |was|
    && (forall i | 0 <= i < |st| :: st[i] == was[i].(s := st[i].s, ss := st[i].ss, sb := st[i].sb, sa := st[i].sa))
    && st[h].s == Over(was[h].vd1, k.dvi) - Dot(was[h].b, f)
    && st[h].ss == Over(was[h].vd0, k.dvi2) - Dot(was[h].a, f)
    && (forall i, j | 0 <= i < 2 * h && j == i + 1 :: FirstLink(st[i], st[j]) && SecondLink(st[i], st[j]))
    && (forall i | 0 <= i <= k.order && i != h :: st[i].sb == Dot(was[i].b, f) && st[i].sa == Dot(was[i].a, f))
  }

  predicate SummedAxis(k: GjKernel, was: seq<GjStep>, st: seq<GjStep>) {
    Shaped(k, was) && k.dvi != 0.0 && k.dvi2 != 0.0 && Summed(k, was, st)
  }

  method SumAxis(k: GjKernel, st: array<GjStep>)
    requires Shaped(k, st[..]) && k.dvi != 0.0 && k.dvi2 != 0.0 && k.horder == k.order / 2
    modifies st
    ensures SummedAxis(k, old(st[..]), st[..])
  {
    ghost var was := st[..];
    FirstSums(k, st);
    ghost var first := st[..];
    assert FirstChain(was, first, 0, 2 * k.horder) && Shaped(k, first);
    SecondSums(k, st, was);
    ghost var second := st[..];
    assert SecondChain(first, second, 0, 2 * k.horder) && Shaped(k, second);
    RowSums(k, st);
    SumsCompose(k, was, first, second, st[..]);
  }

  lemma SumsCompose(k: GjKernel, was: seq<GjStep>, first: seq<GjStep>, second: seq<GjStep>, st: seq<GjStep>)
    requires Shaped(k, was) && Shaped(k, first) && Shaped(k, second) && k.dvi != 0.0 && k.dvi2 != 0.0
    requires FirstSummed(k, was, first) && SecondSummed(k, first, second) && RowsSummed(k, second, st)
    ensures Summed(k, was, st)
  {
    hide Dot, Over, FirstLink, SecondLink;
    var m := k.order + 1;
    assert Accels(first[..m]) == Accels(was[..m]);
    assert Accels(second[..m]) == Accels(was[..m]);
    OtherFieldsKept(k, was, first, second, st);
    LinksSurvive(first, second);
    LinksSurvive(second, st);
  }

  lemma OtherFieldsKept(k: GjKernel, was: seq<GjStep>, first: seq<GjStep>, second: seq<GjStep>, st: seq<GjStep>)
    requires Shaped(k, was) && Shaped(k, first) && Shaped(k, second) && k.dvi != 0.0 && k.dvi2 != 0.0
    requires FirstSummed(k, was, first) && SecondSummed(k, first, second) && RowsSummed(k, second, st)
    ensures |st| == |was| == |first| == |second|
    ensures forall i | 0 <= i < |st| :: st[i] == was[i].(s := st[i].s, ss := st[i].ss, sb := st[i].sb, sa := st[i].sa)
    ensures forall i | 0 <= i < |st| :: st[i].s == second[i].s == first[i].s && st[i].ss == second[i].ss
    ensures forall i | 0 <= i < |st| :: second[i].vd2 == first[i].vd2 == st[i].vd2
  {
    hide Dot, Over, FirstLink, SecondLink, Accels;
    forall i | 0 <= i < |st|
      ensures st[i] == was[i].(s := st[i].s, ss := st[i].ss, sb := st[i].sb, sa := st[i].sa)
      ensures st[i].s == second[i].s == first[i].s && st[i].ss == second[i].ss
      ensures second[i].vd2 == first[i].vd2 == st[i].vd2
    {
      assert first[i] == was[i].(s := first[i].s) && second[i] == first[i].(ss := second[i].ss);
    }
  }

  /** A change of the second sums keeps the first links, and a change of the row sums both. */
  lemma LinksSurvive(was: seq<GjStep>, st: seq<GjStep>)
    requires |st| == |was| && forall i | 0 <= i < |st| :: st[i].s == was[i].s && st[i].vd2 == was[i].vd2
    ensures forall i, j | 0 <= i && j == i + 1 && j < |st| :: FirstLink(st[i], st[j]) <==> FirstLink(was[i], was[j])
    ensures (forall i | 0 <= i < |st| :: st[i].ss == was[i].ss) ==>
              forall i, j | 0 <= i && j == i + 1 && j < |st| :: SecondLink(st[i], st[j]) <==> SecondLink(was[i], was[j])
  {
    hide Mean, Mul;
  }

  /** What the caller has set before `gauss_jackson_preset`: fresh rows, an even order, a uniform
      grid, and the centre node on the motion p. */
  ghost predicate AxisReady(k: GjKernel, p: Vector, times: seq<real>, st: seq<GjStep>) {
    var x, step := if |times| == k.order + 1 then times[k.order / 2] else 0.0, k.order / 2;
    && HasRows(k, st) && k.dvi != 0.0 && k.dvi2 != 0.0 && k.order % 2 == 0 && |p| <= k.order + 3
    && |times| == k.order + 1 && Uniform(times, k.dvi)
    && st[step].vd0 == Eval(p, x) && st[step].vd1 == Eval(Deriv(p), x) && st[step].vd2 == Eval(Deriv(Deriv(p)), x)
  }

  /** All accelerations are those of the motion. */
  ghost predicate AxisAccurate(k: GjKernel, p: Vector, times: seq<real>, st: seq<GjStep>) {
    |st| == k.order + 2 && Sampled(Deriv(Deriv(p)), times, Accels(st[..k.order + 1]))
  }

  lemma ReadyFacts(k: GjKernel, p: Vector, times: seq<real>, st: seq<GjStep>)
    requires AxisReady(k, p, times, st)
    ensures IsMotion(k, p, Deriv(p), Deriv(Deriv(p))) && |Deriv(Deriv(p))| <= k.order + 1
    ensures IsKernel(k) && |k.c| == |k.q| == k.order + 3 && |k.alpha| == |k.beta| == k.order + 2
    ensures forall j | 0 <= j < |k.beta| :: |k.beta[j]| == |k.alpha[j]| == k.order + 1
    ensures |st| == k.order + 2 && Shaped(k, st) && k.dvi != 0.0 && k.dvi2 != 0.0 && k.order % 2 == 0
    ensures |times| == k.order + 1 && Uniform(times, k.dvi)
    ensures forall j | 0 <= j < |st| :: st[j].a == RowA(k, j) && st[j].b == RowB(k, j)
    ensures st[k.order / 2].vd0 == Eval(p, times[k.order / 2])
    ensures st[k.order / 2].vd1 == Eval(Deriv(p), times[k.order / 2])
    ensures st[k.order / 2].vd2 == Eval(Deriv(Deriv(p)), times[k.order / 2])
  {
    KernelFacts(k);
    hide IsKernel, Eval, Uniform, RowA, RowB;
  }

  lemma SummedCentre(k: GjKernel, was: seq<GjStep>, st: seq<GjStep>)
    requires Shaped(k, was) && k.dvi != 0.0 && k.dvi2 != 0.0 && Summed(k, was, st)
    ensures |st| == |was| == k.order + 2
    ensures st[k.order / 2].s == Over(was[k.order / 2].vd1, k.dvi) - Dot(was[k.order / 2].b, Accels(was[..k.order + 1]))
    ensures st[k.order / 2].ss
              == Over(was[k.order / 2].vd0, k.dvi2) - Dot(was[k.order / 2].a, Accels(was[..k.order + 1]))
  {
    hide Dot, Over, Accels;
  }

  lemma SummedNode(k: GjKernel, was: seq<GjStep>, st: seq<GjStep>, i: nat)
    requires Shaped(k, was) && k.dvi != 0.0 && k.dvi2 != 0.0 && k.order % 2 == 0 && Summed(k, was, st) && i <= k.order
    ensures |st| == |was| == k.order + 2 && st[i].vd2 == was[i].vd2 == Accels(was[..k.order + 1])[i]
    ensures i < k.order ==> FirstLink(st[i], st[i + 1]) && SecondLink(st[i], st[i + 1])
    ensures i != k.order / 2 ==>
              st[i].sb == Dot(was[i].b, Accels(was[..k.order + 1]))
                  && st[i].sa == Dot(was[i].a, Accels(was[..k.order + 1]))
  {
    hide Dot, Over, FirstLink, SecondLink;
    assert st[i] == was[i].(s := st[i].s, ss := st[i].ss, sb := st[i].sb, sa := st[i].sa);
    if i < k.order {
      var j := i + 1;
      assert FirstLink(st[i], st[j]) && SecondLink(st[i], st[j]);
    }
  }

  lemma AccurateIs(k: GjKernel, p: Vector, times: seq<real>, st: seq<GjStep>)
    requires AxisReady(k, p, times, st) && AxisAccurate(k, p, times, st)
    ensures |st| == k.order + 2 && Sampled(Deriv(Deriv(p)), times, Accels(st[..k.order + 1]))
    ensures forall i | 0 <= i <= k.order :: Accels(st[..k.order + 1])[i] == Eval(Deriv(Deriv(p)), times[i])
    ensures forall i, j | 0 <= i < k.order && j == i + 1 :: times[i] + k.dvi == times[j]
  {
    hide IsKernel, Eval, RowA, RowB;
  }

  /** The sums of the centre node are those of the motion. */
  lemma CentreSums(k: GjKernel, p: Vector, times: seq<real>, was: seq<GjStep>, st: seq<GjStep>)
    requires AxisReady(k, p, times, was) && AxisAccurate(k, p, times, was) && Summed(k, was, st)
    ensures |st| == |was| == k.order + 2 && SumsAt(k, p, times, st, k.order / 2)
  {
    hide *;
    AccurateIs(k, p, times, was);
    var h, values := k.order / 2, Accels(was[..k.order + 1]);
    ReadyFacts(k, p, times, was);
    SummedCentre(k, was, st);
    RowsOnMotion(k, Deriv(Deriv(p)), times, values, h);
    SumsAre(k, p, times, st, h);
  }

  lemma SumsAre(k: GjKernel, p: Vector, times: seq<real>, st: seq<GjStep>, i: nat)
    requires IsKernel(k) && k.dvi != 0.0 && k.dvi2 != 0.0 && i < |st| && i < |times|
    ensures SumsAt(k, p, times, st, i) <==>
        && st[i].s == Over(Eval(Deriv(p), times[i]), k.dvi)
                      - (FirstCorrection(k, Deriv(Deriv(p)), times[i]) + Mul(0.5, Eval(Deriv(Deriv(p)), times[i])))
        && st[i].ss == Over(Eval(p, times[i]), k.dvi2) - SecondCorrection(k, Deriv(Deriv(p)), times[i])
  {
    hide Conv, BackPower, PartialSum, Eval, Over, Mul, Dot, FirstCorrection, SecondCorrection;
  }

  /** The links carry the sums from node to node as the motion's sums grow. */
  lemma LinkOnMotion(k: GjKernel, p: Vector, x: real, y: real, from: GjStep, to: GjStep)
    requires IsMotion(k, p, Deriv(p), Deriv(Deriv(p))) && k.dvi != 0.0 && k.dvi2 != 0.0 && y == x + k.dvi
    requires FirstLink(from, to) && SecondLink(from, to)
    requires from.vd2 == Eval(Deriv(Deriv(p)), x) && to.vd2 == Eval(Deriv(Deriv(p)), y)
    ensures from.s == FirstSum(k, Deriv(p), Deriv(Deriv(p)), x) <==> to.s == FirstSum(k, Deriv(p), Deriv(Deriv(p)), y)
    ensures from.s == FirstSum(k, Deriv(p), Deriv(Deriv(p)), x) ==>
              (from.ss == SecondSum(k, p, Deriv(Deriv(p)), x) <==> to.ss == SecondSum(k, p, Deriv(Deriv(p)), y))
  {
    assert y - k.dvi == x;
    hide Eval, Deriv, FirstSum, SecondSum, BackPower, PartialSum, Conv, Mul, Mean;
    SumsStep(k, p, Deriv(p), Deriv(Deriv(p)), y);
    Links(from, to);
  }

  ghost predicate SumsAt(k: GjKernel, p: Vector, times: seq<real>, st: seq<GjStep>, i: nat)
    requires IsKernel(k) && k.dvi != 0.0 && k.dvi2 != 0.0 && i < |st| && i < |times|
  {
    && st[i].s == FirstSum(k, Deriv(p), Deriv(Deriv(p)), times[i])
    && st[i].ss == SecondSum(k, p, Deriv(Deriv(p)), times[i])
  }

  lemma NodeLink(k: GjKernel, p: Vector, times: seq<real>, was: seq<GjStep>, st: seq<GjStep>, i: nat)
    requires AxisReady(k, p, times, was) && AxisAccurate(k, p, times, was) && Summed(k, was, st)
    requires i < k.order
    ensures SumsAt(k, p, times, st, i) <==> SumsAt(k, p, times, st, i + 1)
  {
    hide *;
    AccurateIs(k, p, times, was);
    ReadyFacts(k, p, times, was);
    SummedNode(k, was, st, i);
    SummedNode(k, was, st, i + 1);
    LinkOnMotion(k, p, times[i], times[i + 1], st[i], st[i + 1]);
    SumsAreSums(k, p, times, st, i);
    SumsAreSums(k, p, times, st, i + 1);
  }

  lemma SumsAreSums(k: GjKernel, p: Vector, times: seq<real>, st: seq<GjStep>, i: nat)
    requires IsKernel(k) && k.dvi != 0.0 && k.dvi2 != 0.0 && i < |st| && i < |times|
    ensures SumsAt(k, p, times, st, i) <==>
              && st[i].s == FirstSum(k, Deriv(p), Deriv(Deriv(p)), times[i])
              && st[i].ss == SecondSum(k, p, Deriv(Deriv(p)), times[i])
  {
    hide IsKernel, FirstSum, SecondSum;
  }

  lemma {:induction false} SumsUp(k: GjKernel, p: Vector, times: seq<real>, was: seq<GjStep>, st: seq<GjStep>, i: nat)
    requires AxisReady(k, p, times, was) && AxisAccurate(k, p, times, was) && Summed(k, was, st)
    requires k.order / 2 <= i <= k.order
    ensures SumsAt(k, p, times, st, i)
  {
    hide SumsAt, AxisAccurate, Summed;
    if i == k.order / 2 {
      CentreSums(k, p, times, was, st);
    } else {
      SumsUp(k, p, times, was, st, i - 1);
      NodeLink(k, p, times, was, st, i - 1);
    }
  }

  lemma {:induction false} SumsDown(k: GjKernel, p: Vector, times: seq<real>, was: seq<GjStep>, st: seq<GjStep>, i: nat)
    requires AxisReady(k, p, times, was) && AxisAccurate(k, p, times, was) && Summed(k, was, st)
    requires i <= k.order / 2
    ensures SumsAt(k, p, times, st, i)
    decreases k.order - i
  {
    hide SumsAt, AxisAccurate, Summed;
    if i == k.order / 2 {
      CentreSums(k, p, times, was, st);
    } else {
      SumsDown(k, p, times, was, st, i + 1);
      NodeLink(k, p, times, was, st, i);
    }
  }

  /** From the right accelerations, the sums give every node's position and velocity. */
  lemma NodeOnMotion(k: GjKernel, p: Vector, times: seq<real>, was: seq<GjStep>, st: seq<GjStep>, i: nat)
    requires AxisReady(k, p, times, was) && AxisAccurate(k, p, times, was) && Summed(k, was, st)
    requires i <= k.order
    ensures SumsAt(k, p, times, st, i)
    ensures i != k.order / 2 ==>
              && Times(k.dvi, st[i].s + st[i].sb) == Eval(Deriv(p), times[i])
              && Times(k.dvi2, st[i].ss + st[i].sa) == Eval(p, times[i])
  {
    if i <= k.order / 2 {
      SumsDown(k, p, times, was, st, i);
    } else {
      SumsUp(k, p, times, was, st, i);
    }
    if i != k.order / 2 {
      NodeValues(k, p, times, was, st, i);
    }
  }

  lemma NodeValues(k: GjKernel, p: Vector, times: seq<real>, was: seq<GjStep>, st: seq<GjStep>, i: nat)
    requires AxisReady(k, p, times, was) && AxisAccurate(k, p, times, was) && Summed(k, was, st)
    requires i <= k.order && i != k.order / 2 && SumsAt(k, p, times, st, i)
    ensures Times(k.dvi, st[i].s + st[i].sb) == Eval(Deriv(p), times[i])
    ensures Times(k.dvi2, st[i].ss + st[i].sa) == Eval(p, times[i])
  {
    hide *;
    AccurateIs(k, p, times, was);
    ReadyFacts(k, p, times, was);
    SummedNode(k, was, st, i);
    SumsAreSums(k, p, times, st, i);
    var v, f, x := Deriv(p), Deriv(Deriv(p)), times[i];
    RowsOnMotion(k, f, times, Accels(was[..k.order + 1]), i);
    FromSums(k, p, x, st[i]);
  }

  lemma FromSums(k: GjKernel, p: Vector, x: real, step: GjStep)
    requires IsMotion(k, p, Deriv(p), Deriv(Deriv(p))) && k.dvi != 0.0 && k.dvi2 != 0.0
    requires step.s == FirstSum(k, Deriv(p), Deriv(Deriv(p)), x) && step.ss == SecondSum(k, p, Deriv(Deriv(p)), x)
    requires step.sb == FirstCorrection(k, Deriv(Deriv(p)), x) + Mul(0.5, Eval(Deriv(Deriv(p)), x))
    requires step.sa == SecondCorrection(k, Deriv(Deriv(p)), x)
    ensures Times(k.dvi, step.s + step.sb) == Eval(Deriv(p), x) && Times(k.dvi2, step.ss + step.sa) == Eval(p, x)
  {
    hide Conv, BackPower, PartialSum, Eval, Deriv, FirstSum, SecondSum, FirstCorrection, SecondCorrection, Mul, Times;
    SumsGiveMotion(k, p, Deriv(p), Deriv(Deriv(p)), x);
  }

  // ----- What the sums tell of the accelerations -----

  /** Right first sums at both ends of a link and a right acceleration at one of them leave no
      choice at the other. */
  lemma LinkTells(k: GjKernel, p: Vector, x: real, y: real, from: GjStep, to: GjStep)
    requires IsMotion(k, p, Deriv(p), Deriv(Deriv(p))) && k.dvi != 0.0 && k.dvi2 != 0.0 && y == x + k.dvi
    requires FirstLink(from, to)
    requires from.s == FirstSum(k, Deriv(p), Deriv(Deriv(p)), x) && to.s == FirstSum(k, Deriv(p), Deriv(Deriv(p)), y)
    ensures from.vd2 == Eval(Deriv(Deriv(p)), x) <==> to.vd2 == Eval(Deriv(Deriv(p)), y)
  {
    assert y - k.dvi == x;
    hide Eval, Deriv, FirstSum, SecondSum, BackPower, PartialSum, Conv, Mean;
    SumsStep(k, p, Deriv(p), Deriv(Deriv(p)), y);
    Links(from, to);
  }

  ghost predicate FirstSumsRight(k: GjKernel, p: Vector, times: seq<real>, st: seq<GjStep>)
    requires IsKernel(k) && k.dvi != 0.0 && |times| == k.order + 1 && |st| == k.order + 2
  {
    forall i | 0 <= i <= k.order :: st[i].s == FirstSum(k, Deriv(p), Deriv(Deriv(p)), times[i])
  }

  lemma NeighbourTells(k: GjKernel, p: Vector, times: seq<real>, was: seq<GjStep>, st: seq<GjStep>, i: nat)
    requires AxisReady(k, p, times, was) && Summed(k, was, st) && FirstSumsRight(k, p, times, st) && i < k.order
    ensures was[i].vd2 == Eval(Deriv(Deriv(p)), times[i]) <==> was[i + 1].vd2 == Eval(Deriv(Deriv(p)), times[i + 1])
  {
    SumsRightAt(k, p, times, st, i);
    SumsRightAt(k, p, times, st, i + 1);
    GridStep(times, k.dvi, i);
    hide *;
    ReadyFacts(k, p, times, was);
    SummedNode(k, was, st, i);
    SummedNode(k, was, st, i + 1);
    LinkTells(k, p, times[i], times[i + 1], st[i], st[i + 1]);
  }

  lemma SumsRightAt(k: GjKernel, p: Vector, times: seq<real>, st: seq<GjStep>, i: nat)
    requires IsKernel(k) && k.dvi != 0.0 && |times| == k.order + 1 && |st| == k.order + 2 && i <= k.order
    requires FirstSumsRight(k, p, times, st)
    ensures st[i].s == FirstSum(k, Deriv(p), Deriv(Deriv(p)), times[i])
  {
    hide FirstSum, IsKernel;
  }

  lemma GridStep(times: seq<real>, h: real, i: nat)
    requires Uniform(times, h) && i + 1 < |times|
    ensures times[i + 1] == times[i] + h
  {
    var j := i + 1;
    assert times[j - 1] + h == times[j];
  }

  /** The acceleration of node i is right when all first sums are: it follows from the centre's. */
  lemma {:induction false} SumsTell(k: GjKernel, p: Vector, times: seq<real>, was: seq<GjStep>, st: seq<GjStep>, i: nat)
    requires AxisReady(k, p, times, was) && Summed(k, was, st) && FirstSumsRight(k, p, times, st) && i <= k.order
    ensures was[i].vd2 == Eval(Deriv(Deriv(p)), times[i])
    decreases if i < k.order / 2 then k.order / 2 - i else i - k.order / 2
  {
    hide *;
    ReadyFacts(k, p, times, was);
    if i < k.order / 2 {
      SumsTell(k, p, times, was, st, i + 1);
      NeighbourTells(k, p, times, was, st, i);
    } else if i > k.order / 2 {
      SumsTell(k, p, times, was, st, i - 1);
      NeighbourTells(k, p, times, was, st, i - 1);
    }
  }

  /** The summed sums and the later nodes: where the nodes are on the motion, the accelerations
      before were right. */
  lemma OnMotionTells(k: GjKernel, p: Vector, times: seq<real>, was: seq<GjStep>, st: seq<GjStep>, now: seq<GjStep>)
    requires AxisReady(k, p, times, was) && SummedAxis(k, was, st) && AxisOnMotion(k, p, times, now)
    requires |now| == |st| && forall i | 0 <= i < |st| :: now[i].s == st[i].s
    ensures AxisAccurate(k, p, times, was)
  {
    hide *;
    ReadyFacts(k, p, times, was);
    SummedIs(k, was, st);
    SummedCentre(k, was, st);
    FirstSumsOf(k, p, times, st, now);
    forall i | 0 <= i <= k.order
      ensures was[i].vd2 == Eval(Deriv(Deriv(p)), times[i])
    {
      SumsTell(k, p, times, was, st, i);
    }
    AccurateFrom(k, p, times, was);
  }

  lemma FirstSumsOf(k: GjKernel, p: Vector, times: seq<real>, st: seq<GjStep>, now: seq<GjStep>)
    requires AxisOnMotion(k, p, times, now)
    requires |now| == |st| == k.order + 2 && forall i | 0 <= i < |st| :: now[i].s == st[i].s
    ensures IsKernel(k) && k.dvi != 0.0 && |times| == k.order + 1 && FirstSumsRight(k, p, times, st)
  {
    KernelFacts(k);
    hide IsKernel, FirstSum, SecondSum, Eval, Deriv, RowA, RowB, Uniform, Shaped;
    forall i | 0 <= i <= k.order
      ensures st[i].s == FirstSum(k, Deriv(p), Deriv(Deriv(p)), times[i])
    {
      assert AtNode(k, p, times[i], now[i]);
    }
  }

  lemma AccurateFrom(k: GjKernel, p: Vector, times: seq<real>, was: seq<GjStep>)
    requires |was| == k.order + 2 && |times| == k.order + 1
    requires forall i | 0 <= i <= k.order :: was[i].vd2 == Eval(Deriv(Deriv(p)), times[i])
    ensures AxisAccurate(k, p, times, was)
  {
    hide Eval, Deriv;
  }

  /** Order zero has one node, the centre. */
  lemma OneNodeAccurate(k: GjKernel, p: Vector, times: seq<real>, was: seq<GjStep>)
    requires AxisReady(k, p, times, was) && k.order < 2
    ensures AxisAccurate(k, p, times, was)
  {
    hide *;
    ReadyFacts(k, p, times, was);
    AccurateFrom(k, p, times, was);
  }

  // ----- The correction of a node -----

  function NewPositions(k: GjKernel, sums: seq<GjStep>): (r: Vector)
    ensures |r| == |sums| && forall i | 0 <= i < |sums| :: r[i] == Times(k.dvi2, sums[i].ss + sums[i].sa)
  {
    seq(|sums|, i requires 0 <= i < |sums| => Times(k.dvi2, sums[i].ss + sums[i].sa))
  }

  function Corrected(k: GjKernel, step: GjStep, vd2: real): GjStep {
    step.(vd1 := Times(k.dvi, step.s + step.sb), vd0 := Times(k.dvi2, step.ss + step.sa), vd2 := vd2)
  }

  method RepositionAxis(k: GjKernel, st: array<GjStep>, idx: nat)
    requires idx < st.Length
    modifies st
    ensures st[..] == old(st[..])[idx := Corrected(k, old(st[idx]), old(st[idx]).vd2)]
    ensures st[idx].vd0 == Times(k.dvi2, old(st[idx]).ss + old(st[idx]).sa) && st[idx].vd2 == old(st[idx]).vd2
  {
    hide Times;
    st[idx] := st[idx].(vd1 := Times(k.dvi, st[idx].s + st[idx].sb));
    st[idx] := st[idx].(vd0 := Times(k.dvi2, st[idx].ss + st[idx].sa));
  }

  predicate AtRest(st: seq<GjStep>) {
    forall j | 0 <= j < |st| :: st[j].vd0 == st[j].vd1 == st[j].vd2 == 0.0
  }

  /** The nodes of a new axis. */
  method StepTable(k: GjKernel) returns (st: array<GjStep>)
    requires IsKernel(k)
    ensures fresh(st) && Shaped(k, st[..])
    ensures k.order <= 33 ==> HasRows(k, st[..])
    ensures AtRest(st[..])
  {
    var n := k.order;
    KernelFacts(k);
    st := new GjStep[n + 2](_ => GjStep(0.0, 0.0, 0.0, [], [], 0.0, 0.0, 0.0, 0.0));
    hide IsKernel, RowA, RowB;
    for j := 0 to n + 2
      invariant forall l | 0 <= l < j :: |st[l].a| == |st[l].b| == n + 1
      invariant AtRest(st[..])
      invariant n <= 33 ==> forall l | 0 <= l < j :: st[l].a == RowA(k, l) && st[l].b == RowB(k, l)
    {
      var a, b := StepRows(k, j);
      st[j] := st[j].(a := a[..], b := b[..]);
    }
  }

  lemma DviSquared(k: GjKernel)
    requires IsKernel(k) && k.dvi != 0.0
    ensures k.dvi2 != 0.0
  {
    KernelFacts(k);
    hide *;
    SquareNonzero(k.dvi, k.dvi2);
  }

  lemma SummedShaped(k: GjKernel, was: seq<GjStep>, st: seq<GjStep>)
    requires SummedAxis(k, was, st)
    ensures Shaped(k, st) && forall i | 0 <= i < |st| :: st[i].vd2 == was[i].vd2
  {
    hide Dot, Over, FirstLink, SecondLink, Accels;
    forall i | 0 <= i < |st|
      ensures st[i].a == was[i].a && st[i].b == was[i].b && st[i].vd2 == was[i].vd2
    {
      assert st[i] == was[i].(s := st[i].s, ss := st[i].ss, sb := st[i].sb, sa := st[i].sa);
    }
  }

  lemma SummedIs(k: GjKernel, was: seq<GjStep>, st: seq<GjStep>)
    requires SummedAxis(k, was, st)
    ensures Shaped(k, was) && k.dvi != 0.0 && k.dvi2 != 0.0 && Summed(k, was, st)
  {
    hide Summed;
  }

  lemma NodeIs(k: GjKernel, p: Vector, x: real, step: GjStep)
    requires IsKernel(k) && |k.c| == |k.q| == k.order + 3 && k.dvi != 0.0 && k.dvi2 != 0.0
    requires step.vd0 == Eval(p, x) && step.vd1 == Eval(Deriv(p), x) && step.vd2 == Eval(Deriv(Deriv(p)), x)
    requires step.s == FirstSum(k, Deriv(p), Deriv(Deriv(p)), x) && step.ss == SecondSum(k, p, Deriv(Deriv(p)), x)
    ensures AtNode(k, p, x, step)
  {
    hide IsKernel, Eval, FirstSum, SecondSum;
  }

  lemma NodeFacts(k: GjKernel, p: Vector, times: seq<real>, was: seq<GjStep>, st: seq<GjStep>, i: nat)
    requires AxisReady(k, p, times, was) && AxisAccurate(k, p, times, was) && SummedAxis(k, was, st) && i <= k.order
    ensures IsKernel(k) && |k.c| == |k.q| == k.order + 3 && k.dvi != 0.0 && k.dvi2 != 0.0
    ensures |times| == k.order + 1 && |st| == k.order + 2
    ensures st[i].s == FirstSum(k, Deriv(p), Deriv(Deriv(p)), times[i])
    ensures st[i].ss == SecondSum(k, p, Deriv(Deriv(p)), times[i])
    ensures i != k.order / 2 ==>
              && Times(k.dvi, st[i].s + st[i].sb) == Eval(Deriv(p), times[i])
              && Times(k.dvi2, st[i].ss + st[i].sa) == Eval(p, times[i])
  {
    SummedIs(k, was, st);
    hide *;
    ReadyFacts(k, p, times, was);
    SummedNode(k, was, st, i);
    NodeOnMotion(k, p, times, was, st, i);
    SumsAreSums(k, p, times, st, i);
  }

  lemma CorrectedFields(k: GjKernel, step: GjStep, vd2: real)
    ensures var r := Corrected(k, step, vd2);
      && r.vd2 == vd2 && r.vd1 == Times(k.dvi, step.s + step.sb) && r.vd0 == Times(k.dvi2, step.ss + step.sa)
      && r.s == step.s && r.ss == step.ss
  {
  }

  lemma AdvancedShaped(k: GjKernel, st: seq<GjStep>, vd2: real)
    requires Shaped(k, st)
    ensures Shaped(k, Advanced(k, st, vd2))
  {
    PredictedFields(k, st);
  }
}
