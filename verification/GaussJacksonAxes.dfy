/** All axes of the Gauss-Jackson integrator together: what a round of extrapolation and a pass of
    the preset make of them, and what that means for a motion that solves the equation. */
module GaussJacksonAxes {
  import opened Numbers
  import opened Linear
  import opened Poly
  import opened Series
  import opened GaussJacksonKernel
  import opened GaussJacksonSeries
  import opened GaussJacksonMotion
  import opened GaussJacksonAxis

  // ----- Motions of all axes -----

  type Force = (real, Vector) -> Vector

  function PositionsAt(motion: seq<Vector>, x: real): (r: Vector)
    ensures |r| == |motion| && forall i | 0 <= i < |motion| :: r[i] == Eval(motion[i], x)
  {
    seq(|motion|, i requires 0 <= i < |motion| => Eval(motion[i], x))
  }

  function AccelerationsAt(motion: seq<Vector>, x: real): (r: Vector)
    ensures |r| == |motion| && forall i | 0 <= i < |motion| :: r[i] == Eval(Deriv(Deriv(motion[i])), x)
  {
    seq(|motion|, i requires 0 <= i < |motion| => Eval(Deriv(Deriv(motion[i])), x))
  }

  /** The motion solves the equation the integrator integrates. */
  ghost predicate IsSolution(force: Force, motion: seq<Vector>) {
    forall x: real :: force(x, PositionsAt(motion, x)) == AccelerationsAt(motion, x)
  }

  /** The force does not depend on the position. */
  ghost predicate Timed(force: Force, motion: seq<Vector>) {
    forall x: real, d: Vector | |d| == |motion| :: force(x, d) == AccelerationsAt(motion, x)
  }

  predicate Moved(p: real, q: real) {
    p - q > TOLERANCE || q - p > TOLERANCE
  }

  /** Times 10 to the -14. */
  const TOLERANCE: real := 0.00000000000001

  ghost predicate AllOnMotion(k: GjKernel, force: Force, motion: seq<Vector>, times: seq<real>,
                              nodes: seq<seq<GjStep>>) {
    && IsSolution(force, motion) && |nodes| == |motion|
    && forall i | 0 <= i < |nodes| :: AxisOnMotion(k, motion[i], times, nodes[i])
  }

  predicate AllShaped(k: GjKernel, nodes: seq<seq<GjStep>>) {
    forall i | 0 <= i < |nodes| :: Shaped(k, nodes[i])
  }

  /** The positions the predictor gives all axes. */
  function PredictedPositions(k: GjKernel, nodes: seq<seq<GjStep>>): (r: Vector)
    requires AllShaped(k, nodes)
    ensures |r| == |nodes| && forall i | 0 <= i < |nodes| :: r[i] == Predicted(k, nodes[i]).vd0
  {
    seq(|nodes|, i requires 0 <= i < |nodes| => Predicted(k, nodes[i]).vd0)
  }

  /** Every axis is one step on, with the force at x on the predicted positions. */
  ghost predicate AreAdvanced(k: GjKernel, force: Force, was: seq<seq<GjStep>>, x: real, nodes: seq<seq<GjStep>>)
    requires AllShaped(k, was)
  {
    var vd2 := force(x, PredictedPositions(k, was));
    |vd2| == |was| == |nodes| && forall i | 0 <= i < |was| :: nodes[i] == Advanced(k, was[i], vd2[i])
  }

  /** Node idx of every axis. */
  function Column(nodes: seq<seq<GjStep>>, idx: nat): (r: seq<GjStep>)
    requires forall i | 0 <= i < |nodes| :: idx < |nodes[i]|
    ensures |r| == |nodes| && forall i | 0 <= i < |nodes| :: r[i] == nodes[i][idx]
  {
    seq(|nodes|, i requires 0 <= i < |nodes| => nodes[i][idx])
  }

  /** The accelerations at node idx, at the positions its sums give. */
  function NewForces(k: GjKernel, force: Force, times: seq<real>, sums: seq<seq<GjStep>>, idx: nat): Vector
    requires idx < |times| && AllShaped(k, sums) && idx < k.order + 2
  {
    force(times[idx], NewPositions(k, Column(sums, idx)))
  }

  /** Nodes lo to hi but the centre have been corrected from their sums, the others not. */
  ghost predicate CorrectedOn(k: GjKernel, force: Force, times: seq<real>, sums: seq<seq<GjStep>>, lo: int, hi: int,
                              nodes: seq<seq<GjStep>>)
  {
    && AllShaped(k, sums) && |nodes| == |sums| && |times| == k.order + 2 && 0 <= lo && hi <= k.order
    && forall idx | 0 <= idx < k.order + 2 :: NodeCorrected(k, force, times, sums, idx, lo, hi, nodes)
  }

  ghost predicate NodeCorrected(k: GjKernel, force: Force, times: seq<real>, sums: seq<seq<GjStep>>, idx: nat,
                                lo: int, hi: int, nodes: seq<seq<GjStep>>)
    requires idx < |times| && AllShaped(k, sums) && idx < k.order + 2 && |nodes| == |sums|
  {
    var vd2, done := NewForces(k, force, times, sums, idx), lo <= idx <= hi && idx != k.order / 2;
    && (done ==> |vd2| == |sums|)
    && forall i | 0 <= i < |nodes| ::
         |nodes[i]| == k.order + 2 && nodes[i][idx] == if done then Corrected(k, sums[i][idx], vd2[i]) else sums[i][idx]
  }

  /** Node idx of every axis is where its sums put it, with the forces there. */
  ghost predicate AreMoved(k: GjKernel, force: Force, x: real, was: seq<seq<GjStep>>, idx: nat, now: seq<seq<GjStep>>)
    requires AllShaped(k, was) && idx < k.order + 2
  {
    var vd2 := force(x, NewPositions(k, Column(was, idx)));
    && |vd2| == |was| == |now|
    && forall i | 0 <= i < |was| :: now[i] == was[i][idx := Corrected(k, was[i][idx], vd2[i])]
  }

  /** The acceleration of some axis has moved at node idx. */
  predicate NodeMoved(was: seq<seq<GjStep>>, now: seq<seq<GjStep>>, idx: nat) {
    exists i | 0 <= i < |was| && i < |now| && idx < |was[i]| && idx < |now[i]| ::
        Moved(was[i][idx].vd2, now[i][idx].vd2)
  }

  /** What one pass of `gauss_jackson_preset` makes of all axes. */
  ghost predicate IsPass(k: GjKernel, force: Force, times: seq<real>, was: seq<seq<GjStep>>, sums: seq<seq<GjStep>>,
                         now: seq<seq<GjStep>>)
  {
    && |was| == |sums| && (forall i | 0 <= i < |was| :: SummedAxis(k, was[i], sums[i]))
    && CorrectedOn(k, force, times, sums, 0, 2 * (k.order / 2), now)
  }

  lemma NothingCorrected(k: GjKernel, force: Force, times: seq<real>, sums: seq<seq<GjStep>>)
    requires AllShaped(k, sums) && |times| == k.order + 2
    ensures CorrectedOn(k, force, times, sums, k.order / 2, k.order / 2, sums)
  {
    hide NewForces;
  }

  /** Shift the times over by one. */
  method ShiftTimes(vi: array<real>)
    requires vi.Length > 0
    modifies vi
    ensures vi[..] == old(vi[..])[1..] + [old(vi[vi.Length - 1])]
  {
    ghost var was := vi[..];
    var n := vi.Length - 1;
    for k := 0 to n
      invariant forall l | 0 <= l < k :: vi[l] == was[l + 1]
      invariant forall l | k <= l <= n :: vi[l] == was[l]
    {
      vi[k] := vi[k + 1];
    }
  }

  /** The uniform grid `now` is `times` moved by a number of steps. */
  ghost predicate GridAfter(times: seq<real>, h: real, rounds: nat, now: seq<real>) {
    Uniform(now, h) && |now| == |times| && forall l | 0 <= l < |now| :: now[l] == times[l] + Mul(AsReal(rounds), h)
  }

  lemma GridStarts(times: seq<real>, h: real)
    requires Uniform(times, h)
    ensures GridAfter(times, h, 0, times)
  {
    ManySteps(0.0, 0, h);
    hide Mul, AsReal, Uniform;
  }

  lemma GridSteps(times: seq<real>, h: real, rounds: nat, now: seq<real>)
    ensures GridAfter(times, h, rounds, now) && now != [] ==>
              GridAfter(times, h, rounds + 1, Next(now, h))
  {
    if GridAfter(times, h, rounds, now) && now != [] {
      StepsOfGrid(now, h);
      ManySteps(0.0, rounds, h);
      hide Mul, AsReal, Uniform;
    }
  }

  lemma Widened(lo: int, hi: int)
    ensures lo <= hi ==>
              Min(lo, lo - 1) == lo - 1 && Max(hi, lo - 1) == hi && Min(lo - 1, hi + 1) == lo - 1
                  && Max(hi, hi + 1) == hi + 1
  {
  }

  /** The grid one step on. */
  function Next(times: seq<real>, h: real): (r: seq<real>)
    ensures |r| == |times|
    ensures forall i | 0 <= i < |times| :: r[i] == if i + 1 < |times| then times[i + 1] else times[i] + h
  {
    if times == [] then [] else times[1..] + [times[|times| - 1] + h]
  }

  lemma NextIs(times: seq<real>, h: real)
    requires times != []
    ensures Next(times, h) == times[1..] + [times[|times| - 1] + h]
  {
  }

  lemma ShiftedGrid(was: seq<real>, n: nat, h: real, now: seq<real>)
    requires |was| == n + 2 && now == was[n + 1 := was[n] + h][1..] + [was[n] + h]
    ensures |now| == n + 2 && now[..n + 1] == Next(was[..n + 1], h) && now[n + 1] == now[n]
  {
  }

  lemma StepsOfGrid(times: seq<real>, h: real)
    requires times != [] && Uniform(times, h)
    ensures Uniform(Next(times, h), h) && forall i | 0 <= i < |times| :: Next(times, h)[i] == times[i] + h
  {
  }

  function AsReal(n: nat): real { n as real }

  lemma ManySteps(x: real, n: nat, h: real)
    ensures x + Mul(AsReal(n), h) + h == x + Mul(AsReal(n + 1), h)
    ensures x + Mul(AsReal(0), h) == x
  {
  }

  /** The number of rounds puts the centre of the grid within half a step of the target, unless
      the target lies before the centre. */
  lemma NearTarget(target: real, centre: real, h: real, rounds: int)
    requires h != 0.0 && rounds == Truncated(0.5 + (target - centre) / h) && (target - centre) / h >= -0.5
    ensures rounds >= 0
    ensures -Half(h) <= target - (centre + Mul(AsReal(rounds), h)) <= Half(h)
  {
    var r := (target - centre) / h;
    assert target - centre == r * h;
    assert rounds as real <= 0.5 + r < rounds as real + 1.0;
    NearProduct(r, rounds as real, h, target - centre);
  }

  function Half(h: real): real { if h < 0.0 then -h / 2.0 else h / 2.0 }

  lemma NearProduct(r: real, m: real, h: real, d: real)
    requires d == r * h && -0.5 <= r - m <= 0.5
    ensures -Half(h) <= d - Mul(m, h) <= Half(h)
  {
    var e := r - m;
    assert d - m * h == e * h;
    if h >= 0.0 {
      ProductBound(e, h);
    } else {
      ProductBound(e, -h);
    }
  }

  lemma ProductBound(e: real, h: real)
    requires -0.5 <= e <= 0.5 && h >= 0.0
    ensures -h / 2.0 <= e * h <= h / 2.0
  {
    assert (0.5 - e) * h >= 0.0 && (e + 0.5) * h >= 0.0;
  }

  lemma SummableAll(k: GjKernel, nodes: seq<seq<GjStep>>)
    requires IsKernel(k)
    ensures k.horder == k.order / 2
    ensures AllShaped(k, nodes) <==> forall i | 0 <= i < |nodes| :: Shaped(k, nodes[i])
  {
    hide BackPower, PartialSum, Conv;
  }

  lemma NotYetCorrected(k: GjKernel, force: Force, times: seq<real>, sums: seq<seq<GjStep>>, lo: int, hi: int,
                        nodes: seq<seq<GjStep>>, idx: nat)
    requires CorrectedOn(k, force, times, sums, lo, hi, nodes) && idx <= k.order && (idx < lo || idx > hi)
    ensures AllShaped(k, sums) && AllShaped(k, nodes) ==> Column(sums, idx) == Column(nodes, idx)
    ensures |nodes| == |sums| && AllShaped(k, sums) && |times| == k.order + 2
  {
    assert NodeCorrected(k, force, times, sums, idx, lo, hi, nodes);
    hide Corrected, NewForces;
  }

  lemma OneMoreCorrected(k: GjKernel, force: Force, times: seq<real>, sums: seq<seq<GjStep>>, lo: int, hi: int,
                         was: seq<seq<GjStep>>, idx: nat, now: seq<seq<GjStep>>)
    requires CorrectedOn(k, force, times, sums, lo, hi, was) && idx <= k.order && idx != k.order / 2 && lo <= hi
    requires (idx == lo - 1 || idx == hi + 1) && AllShaped(k, was) && |times| == k.order + 2
    requires AreMoved(k, force, times[idx], was, idx, now)
    ensures CorrectedOn(k, force, times, sums, Min(lo, idx), Max(hi, idx), now)
    ensures NodeMoved(was, now, idx) <==> NodeMoved(sums, now, idx)
  {
    hide Corrected, NewPositions, Moved;
    NotYetCorrected(k, force, times, sums, lo, hi, was, idx);
    assert Column(sums, idx) == Column(was, idx);
    forall i | 0 <= i < |now|
      ensures sums[i][idx] == was[i][idx]
    {
      assert Column(sums, idx)[i] == Column(was, idx)[i];
    }
    forall j | 0 <= j < k.order + 2
      ensures NodeCorrected(k, force, times, sums, j, Min(lo, idx), Max(hi, idx), now)
    {
      assert NodeCorrected(k, force, times, sums, j, lo, hi, was);
    }
  }

  lemma CorrectedShaped(k: GjKernel, force: Force, times: seq<real>, sums: seq<seq<GjStep>>, lo: int, hi: int,
                        nodes: seq<seq<GjStep>>)
    requires CorrectedOn(k, force, times, sums, lo, hi, nodes)
    ensures AllShaped(k, nodes)
  {
    hide NewForces;
    forall i | 0 <= i < |nodes|
      ensures Shaped(k, nodes[i])
    {
      forall idx | 0 <= idx < k.order + 2
        ensures |nodes[i]| == k.order + 2 && |nodes[i][idx].a| == |nodes[i][idx].b| == k.order + 1
      {
        assert NodeCorrected(k, force, times, sums, idx, lo, hi, nodes);
        assert Shaped(k, sums[i]);
      }
      assert NodeCorrected(k, force, times, sums, 0, lo, hi, nodes);
    }
  }

  ghost predicate AllReady(k: GjKernel, motion: seq<Vector>, times: seq<real>, nodes: seq<seq<GjStep>>) {
    |nodes| == |motion| && forall i | 0 <= i < |nodes| :: AxisReady(k, motion[i], times, nodes[i])
  }

  ghost predicate AllAccurate(k: GjKernel, motion: seq<Vector>, times: seq<real>, nodes: seq<seq<GjStep>>) {
    |nodes| == |motion| && forall i | 0 <= i < |nodes| :: AxisAccurate(k, motion[i], times, nodes[i])
  }

  /** What a pass makes of node idx of axis i. */
  lemma PassedNode(k: GjKernel, force: Force, times: seq<real>, was: seq<seq<GjStep>>, sums: seq<seq<GjStep>>,
                   now: seq<seq<GjStep>>, i: nat, idx: nat)
    requires IsPass(k, force, times, was, sums, now) && k.order % 2 == 0 && i < |was| && idx < k.order + 2
    ensures |now| == |sums| == |was| && |now[i]| == |sums[i]| == |was[i]| == k.order + 2 == |times|
    ensures AllShaped(k, sums)
    ensures var moved := idx <= k.order && idx != k.order / 2;
      && (moved ==> |NewForces(k, force, times, sums, idx)| == |sums|)
      && now[i][idx] == if moved then Corrected(k, sums[i][idx], NewForces(k, force, times, sums, idx)[i])
           else sums[i][idx]
    ensures sums[i][idx] ==
              was[i][idx].(s := sums[i][idx].s, ss := sums[i][idx].ss, sb := sums[i][idx].sb, sa := sums[i][idx].sa)
  {
    assert NodeCorrected(k, force, times, sums, idx, 0, 2 * (k.order / 2), now);
    assert SummedAxis(k, was[i], sums[i]);
    hide NewForces, Corrected, Dot, Over, FirstLink, SecondLink, Accels;
  }

  lemma PassKeepsReady(k: GjKernel, force: Force, motion: seq<Vector>, times: seq<real>, was: seq<seq<GjStep>>,
                       sums: seq<seq<GjStep>>, now: seq<seq<GjStep>>, i: nat)
    requires IsPass(k, force, times, was, sums, now) && i < |motion| == |was| && |times| == k.order + 2
    requires AxisReady(k, motion[i], times[..k.order + 1], was[i])
    ensures |now| == |was| && AxisReady(k, motion[i], times[..k.order + 1], now[i])
  {
    hide IsPass, NewForces, IsKernel, Eval, Deriv, RowA, RowB, Uniform;
    forall idx | 0 <= idx < k.order + 2
      ensures |now| == |was| && |now[i]| == |was[i]| && now[i][idx].a == was[i][idx].a && now[i][idx].b == was[i][idx].b
      ensures idx == k.order / 2 ==> now[i][idx].vd0 == was[i][idx].vd0 && now[i][idx].vd1 == was[i][idx].vd1
                                     && now[i][idx].vd2 == was[i][idx].vd2
    {
      PassedNode(k, force, times, was, sums, now, i, idx);
    }
  }

  /** Some axis has at node idx, at x, an acceleration that is not the motion's. */
  ghost predicate NodeOff(motion: seq<Vector>, x: real, nodes: seq<seq<GjStep>>, idx: nat) {
    exists i | 0 <= i < |motion| && i < |nodes| && idx < |nodes[i]| ::
        Moved(nodes[i][idx].vd2, AccelerationsAt(motion, x)[i])
  }

  /** What is known about the state and the force before the passes. */
  datatype Claims = Claims(ready: bool, accurate: bool, solves: bool, timed: bool, off: bool)

  /** What the passes so far have achieved. */
  ghost predicate PresetState(k: GjKernel, force: Force, motion: seq<Vector>, times: seq<real>, x: real,
                              nodes: seq<seq<GjStep>>, passes: int, cflag: bool, claims: Claims)
  {
    && (claims.solves ==> IsSolution(force, motion)) && (claims.timed ==> Timed(force, motion) && claims.solves)
    && (passes == 0 || k.order < 2 ==> cflag)
    && (claims.ready ==>
          && AllReady(k, motion, times, nodes)
          && (passes == 0 && AllAccurate(k, motion, times, nodes) ==> claims.accurate)
          && (claims.accurate && claims.solves ==>
                AllAccurate(k, motion, times, nodes) && (passes > 0 ==> AllOnMotion(k, force, motion, times, nodes)))
          && (claims.timed ==>
                && (passes > 0 ==> AllAccurate(k, motion, times, nodes))
                && (passes > 1 ==> AllOnMotion(k, force, motion, times, nodes))
                && (claims.off && passes == 0 ==> NodeOff(motion, x, nodes, k.order))
                && (claims.off && passes == 1 ==> cflag)
                && (!claims.off && k.order >= 2 && passes == 0 ==> !NodeOff(motion, x, nodes, k.order))
                && (!claims.off && k.order >= 2 && passes > 0 ==>
                      !cflag && (AllOnMotion(k, force, motion, times, nodes) ==> claims.accurate))))
  }

  lemma PresetStarts(k: GjKernel, force: Force, motion: seq<Vector>, times: seq<real>, x: real, was: seq<seq<GjStep>>,
                     claims: Claims)
    requires claims == Claims(AllReady(k, motion, times, was), AllAccurate(k, motion, times, was),
               IsSolution(force, motion), Timed(force, motion), NodeOff(motion, x, was, k.order))
    requires claims.timed ==> claims.solves
    ensures PresetState(k, force, motion, times, x, was, 0, true, claims)
  {
    hide AllReady, AllAccurate, AllOnMotion, IsSolution, Timed, NodeOff;
  }

  lemma PresetNext(k: GjKernel, force: Force, motion: seq<Vector>, vi: seq<real>, was: seq<seq<GjStep>>,
                   sums: seq<seq<GjStep>>, now: seq<seq<GjStep>>, passes: nat, cflag: bool, claims: Claims)
    requires IsPass(k, force, vi, was, sums, now) && |vi| == k.order + 2 && |was| == |motion|
    requires PresetState(k, force, motion, vi[..k.order + 1], vi[k.order], was, passes, true, claims)
    requires cflag <==> if k.order < 2 then true else NodeMoved(sums, now, 2 * (k.order / 2))
    ensures PresetState(k, force, motion, vi[..k.order + 1], vi[k.order], now, passes + 1, cflag, claims)
  {
    PassSummary(k, force, motion, vi, was, sums, now);
    hide AllReady, AllAccurate, AllOnMotion, IsSolution, Timed, NodeOff, NodeMoved, IsPass;
  }

  lemma PresetReady(k: GjKernel, force: Force, motion: seq<Vector>, times: seq<real>, x: real, nodes: seq<seq<GjStep>>,
                    passes: int, cflag: bool, claims: Claims)
    requires PresetState(k, force, motion, times, x, nodes, passes, cflag, claims)
    ensures claims.ready ==> AllReady(k, motion, times, nodes)
  {
    hide AllReady, AllAccurate, AllOnMotion, IsSolution, Timed, NodeOff;
  }

  lemma PresetEnds(k: GjKernel, force: Force, motion: seq<Vector>, times: seq<real>, x: real, nodes: seq<seq<GjStep>>,
                   passes: int, cflag: bool, claims: Claims)
    requires PresetState(k, force, motion, times, x, nodes, passes, cflag, claims) && 0 <= passes <= 10
    requires passes == 10 || !cflag
    ensures claims.ready && claims.accurate && claims.solves ==> AllOnMotion(k, force, motion, times, nodes)
    ensures claims.ready && claims.timed ==> AllAccurate(k, motion, times, nodes)
    ensures claims.ready && claims.timed && claims.off ==> AllOnMotion(k, force, motion, times, nodes)
    ensures claims.ready && claims.timed && k.order >= 2 && AllOnMotion(k, force, motion, times, nodes) ==>
              claims.accurate || claims.off
  {
    hide AllReady, AllAccurate, AllOnMotion, IsSolution, Timed, NodeOff;
  }

  lemma TimedSolves(force: Force, motion: seq<Vector>)
    requires Timed(force, motion)
    ensures IsSolution(force, motion)
  {
  }

  /** The effect of a pass on the claims about all axes. */
  lemma PassSummary(k: GjKernel, force: Force, motion: seq<Vector>, times: seq<real>, was: seq<seq<GjStep>>,
                    sums: seq<seq<GjStep>>, now: seq<seq<GjStep>>)
    requires IsPass(k, force, times, was, sums, now) && |times| == k.order + 2 && |was| == |motion|
    ensures AllReady(k, motion, times[..k.order + 1], was) ==> AllReady(k, motion, times[..k.order + 1], now)
    ensures AllReady(k, motion, times[..k.order + 1], was) && AllAccurate(k, motion, times[..k.order + 1], was)
              && IsSolution(force, motion) ==>
              AllAccurate(k, motion, times[..k.order + 1], now)
                  && AllOnMotion(k, force, motion, times[..k.order + 1], now)
    ensures AllReady(k, motion, times[..k.order + 1], was) && Timed(force, motion) ==>
              AllAccurate(k, motion, times[..k.order + 1], now)
    ensures AllReady(k, motion, times[..k.order + 1], was) && Timed(force, motion) && k.order >= 2
              && NodeOff(motion, times[k.order], was, k.order) ==>
              NodeMoved(sums, now, 2 * (k.order / 2))
    ensures AllReady(k, motion, times[..k.order + 1], was) && Timed(force, motion) && k.order >= 2
              && !NodeOff(motion, times[k.order], was, k.order) ==>
              !NodeMoved(sums, now, 2 * (k.order / 2))
    ensures AllReady(k, motion, times[..k.order + 1], was)
              && AllOnMotion(k, force, motion, times[..k.order + 1], now) ==>
              AllAccurate(k, motion, times[..k.order + 1], was)
  {
    PassShape(k, force, times, was, sums, now);
    if AllReady(k, motion, times[..k.order + 1], was) {
      AllPassed(k, force, motion, times, was, sums, now);
      if Timed(force, motion) && k.order >= 2 && NodeOff(motion, times[k.order], was, k.order) {
        LastMoved(k, force, motion, times, was, sums, now);
      }
      if Timed(force, motion) && k.order >= 2 && !NodeOff(motion, times[k.order], was, k.order) {
        LastStays(k, force, motion, times, was, sums, now);
      }
      if AllOnMotion(k, force, motion, times[..k.order + 1], now) {
        WereAccurate(k, force, motion, times, was, sums, now);
      }
    }
  }

  /** A pass puts all nodes on a motion that solves the equation exactly when it starts from the
      right accelerations. */
  lemma LastPass(k: GjKernel, force: Force, motion: seq<Vector>, times: seq<real>, was: seq<seq<GjStep>>,
                 sums: seq<seq<GjStep>>, now: seq<seq<GjStep>>)
    requires IsPass(k, force, times, was, sums, now) && |times| == k.order + 2 && |was| == |motion|
    ensures AllReady(k, motion, times[..k.order + 1], was) && IsSolution(force, motion) ==>
              (AllOnMotion(k, force, motion, times[..k.order + 1], now)
               <==> AllAccurate(k, motion, times[..k.order + 1], was))
  {
    PassSummary(k, force, motion, times, was, sums, now);
    hide *;
  }

  /** Only from the right accelerations does a pass put all nodes on the motion: it leaves sums
      that were made from the old ones. */
  lemma WereAccurate(k: GjKernel, force: Force, motion: seq<Vector>, times: seq<real>, was: seq<seq<GjStep>>,
                     sums: seq<seq<GjStep>>, now: seq<seq<GjStep>>)
    requires IsPass(k, force, times, was, sums, now) && |times| == k.order + 2 && |was| == |motion|
    requires AllReady(k, motion, times[..k.order + 1], was)
    requires AllOnMotion(k, force, motion, times[..k.order + 1], now)
    ensures AllAccurate(k, motion, times[..k.order + 1], was)
  {
    PassShape(k, force, times, was, sums, now);
    hide AxisReady, AxisAccurate, AxisOnMotion, IsPass, IsSolution;
    forall i | 0 <= i < |motion|
      ensures AxisAccurate(k, motion[i], times[..k.order + 1], was[i])
    {
      WasAccurate(k, force, motion[i], times, was, sums, now, i);
    }
  }

  lemma WasAccurate(k: GjKernel, force: Force, p: Vector, times: seq<real>, was: seq<seq<GjStep>>,
                    sums: seq<seq<GjStep>>, now: seq<seq<GjStep>>, i: nat)
    requires IsPass(k, force, times, was, sums, now) && |times| == k.order + 2 && i < |was| == |now|
    requires AxisReady(k, p, times[..k.order + 1], was[i]) && AxisOnMotion(k, p, times[..k.order + 1], now[i])
    ensures AxisAccurate(k, p, times[..k.order + 1], was[i])
  {
    hide *;
    PassShape(k, force, times, was, sums, now);
    ReadyFacts(k, p, times[..k.order + 1], was[i]);
    PassedNode(k, force, times, was, sums, now, i, 0);
    forall idx | 0 <= idx < k.order + 2
      ensures now[i][idx].s == sums[i][idx].s
    {
      PassedNode(k, force, times, was, sums, now, i, idx);
      if idx <= k.order && idx != k.order / 2 {
        CorrectedFields(k, sums[i][idx], NewForces(k, force, times, sums, idx)[i]);
      }
    }
    OnMotionTells(k, p, times[..k.order + 1], was[i], sums[i], now[i]);
  }

  lemma LastStays(k: GjKernel, force: Force, motion: seq<Vector>, times: seq<real>, was: seq<seq<GjStep>>,
                  sums: seq<seq<GjStep>>, now: seq<seq<GjStep>>)
    requires IsPass(k, force, times, was, sums, now) && |times| == k.order + 2 && |was| == |motion|
    requires AllReady(k, motion, times[..k.order + 1], was) && Timed(force, motion) && k.order >= 2
    requires !NodeOff(motion, times[k.order], was, k.order)
    ensures !NodeMoved(sums, now, 2 * (k.order / 2))
  {
    TimedForces(k, force, motion, times, was, sums, now);
    PassShape(k, force, times, was, sums, now);
    hide IsPass, Moved, Timed, AccelerationsAt, AxisReady, ForcesRight;
    forall i | 0 <= i < |motion|
      ensures 2 * (k.order / 2) == k.order && |now[i]| == |sums[i]| == k.order + 2
      ensures !Moved(sums[i][k.order].vd2, now[i][k.order].vd2)
    {
      NewLast(k, force, motion, times, was, sums, now, i);
    }
  }

  lemma OneNodesAccurate(k: GjKernel, motion: seq<Vector>, times: seq<real>, was: seq<seq<GjStep>>)
    requires AllReady(k, motion, times, was) && k.order < 2
    ensures AllAccurate(k, motion, times, was)
  {
    hide AxisReady, AxisAccurate;
    forall i | 0 <= i < |motion|
      ensures AxisAccurate(k, motion[i], times, was[i])
    {
      OneNodeAccurate(k, motion[i], times, was[i]);
    }
  }

  lemma LastMoved(k: GjKernel, force: Force, motion: seq<Vector>, times: seq<real>, was: seq<seq<GjStep>>,
                  sums: seq<seq<GjStep>>, now: seq<seq<GjStep>>)
    requires IsPass(k, force, times, was, sums, now) && |times| == k.order + 2 && |was| == |motion|
    requires AllReady(k, motion, times[..k.order + 1], was) && Timed(force, motion) && k.order >= 2
    requires NodeOff(motion, times[k.order], was, k.order)
    ensures NodeMoved(sums, now, 2 * (k.order / 2))
  {
    var i :| 0 <= i < |motion| && i < |was| && k.order < |was[i]|
        && Moved(was[i][k.order].vd2, AccelerationsAt(motion, times[k.order])[i]);
    TimedForces(k, force, motion, times, was, sums, now);
    assert AxisReady(k, motion[i], times[..k.order + 1], was[i]);
    NewLast(k, force, motion, times, was, sums, now, i);
    hide IsPass, Moved, AllReady, Timed, AccelerationsAt, AxisReady, ForcesRight, NodeOff;
  }

  lemma NewLast(k: GjKernel, force: Force, motion: seq<Vector>, times: seq<real>, was: seq<seq<GjStep>>,
                sums: seq<seq<GjStep>>, now: seq<seq<GjStep>>, i: nat)
    requires IsPass(k, force, times, was, sums, now) && ForcesRight(k, force, motion, times, sums)
    requires i < |motion| == |was|
    requires |times| == k.order + 2 && AxisReady(k, motion[i], times[..k.order + 1], was[i]) && k.order >= 2
    ensures |now| == |sums| == |was| && |now[i]| == |sums[i]| == |was[i]| == k.order + 2 && 2 * (k.order / 2) == k.order
    ensures sums[i][k.order].vd2 == was[i][k.order].vd2
    ensures now[i][k.order].vd2 == AccelerationsAt(motion, times[k.order])[i]
  {
    hide *;
    ReadyFacts(k, motion[i], times[..k.order + 1], was[i]);
    PassedNode(k, force, times, was, sums, now, i, k.order);
    NewAcceleration(k, force, motion, times, was, sums, now, i, k.order);
  }

  lemma AllPassed(k: GjKernel, force: Force, motion: seq<Vector>, times: seq<real>, was: seq<seq<GjStep>>,
                  sums: seq<seq<GjStep>>, now: seq<seq<GjStep>>)
    requires IsPass(k, force, times, was, sums, now) && |times| == k.order + 2 && |was| == |motion| == |now|
    requires AllReady(k, motion, times[..k.order + 1], was)
    ensures AllReady(k, motion, times[..k.order + 1], now)
    ensures AllAccurate(k, motion, times[..k.order + 1], was) && IsSolution(force, motion) ==>
              AllAccurate(k, motion, times[..k.order + 1], now)
                  && AllOnMotion(k, force, motion, times[..k.order + 1], now)
    ensures Timed(force, motion) ==> AllAccurate(k, motion, times[..k.order + 1], now)
  {
    hide AxisReady, AxisAccurate, AxisOnMotion, IsPass, IsSolution, Timed, ForcesRight;
    var exact := AllAccurate(k, motion, times[..k.order + 1], was) && IsSolution(force, motion);
    var timed := Timed(force, motion);
    if exact && motion != [] {
      ReadyFacts(k, motion[0], times[..k.order + 1], was[0]);
      ForcesOnMotion(k, force, motion, times, was, sums, now);
    }
    if timed {
      TimedForces(k, force, motion, times, was, sums, now);
    }
    forall i | 0 <= i < |motion|
      ensures AxisReady(k, motion[i], times[..k.order + 1], now[i])
      ensures exact || timed ==> AxisAccurate(k, motion[i], times[..k.order + 1], now[i])
      ensures exact ==> AxisOnMotion(k, motion[i], times[..k.order + 1], now[i])
    {
      PassKeepsReady(k, force, motion, times, was, sums, now, i);
      if exact || timed {
        PassAccurate(k, force, motion, times, was, sums, now, i);
      }
      if exact {
        PassOnMotion(k, force, motion, times, was, sums, now, i);
      }
    }
  }

  /** The forces at the nodes are the motion's. */
  ghost predicate ForcesRight(k: GjKernel, force: Force, motion: seq<Vector>, times: seq<real>,
                              sums: seq<seq<GjStep>>) {
    && AllShaped(k, sums) && |times| == k.order + 2
    && forall idx | 0 <= idx <= k.order && idx != k.order / 2 ::
         NewForces(k, force, times, sums, idx) == AccelerationsAt(motion, times[idx])
  }

  lemma ForcesOnMotion(k: GjKernel, force: Force, motion: seq<Vector>, times: seq<real>, was: seq<seq<GjStep>>,
                       sums: seq<seq<GjStep>>, now: seq<seq<GjStep>>)
    requires IsPass(k, force, times, was, sums, now) && |times| == k.order + 2 && k.order % 2 == 0
    requires AllReady(k, motion, times[..k.order + 1], was) && AllAccurate(k, motion, times[..k.order + 1], was)
    requires IsSolution(force, motion)
    ensures ForcesRight(k, force, motion, times, sums)
  {
    PassShape(k, force, times, was, sums, now);
    hide IsPass, SummedAxis, AllReady, AllAccurate, IsSolution, NewForces, Shaped;
    forall idx | 0 <= idx <= k.order && idx != k.order / 2
      ensures NewForces(k, force, times, sums, idx) == AccelerationsAt(motion, times[idx])
    {
      ForceOnMotion(k, force, motion, times, was, sums, idx);
    }
  }

  lemma ForceOnMotion(k: GjKernel, force: Force, motion: seq<Vector>, times: seq<real>, was: seq<seq<GjStep>>,
                      sums: seq<seq<GjStep>>, idx: nat)
    requires AllShaped(k, sums) && |was| == |sums| && |times| == k.order + 2
    requires forall i | 0 <= i < |was| :: |sums[i]| == |was[i]| == k.order + 2 && SummedAxis(k, was[i], sums[i])
    requires AllReady(k, motion, times[..k.order + 1], was) && AllAccurate(k, motion, times[..k.order + 1], was)
    requires IsSolution(force, motion) && idx <= k.order && idx != k.order / 2
    ensures NewForces(k, force, times, sums, idx) == AccelerationsAt(motion, times[idx])
  {
    var x, positions := times[idx], NewPositions(k, Column(sums, idx));
    hide IsKernel, Eval, Deriv, SummedAxis, AxisReady, AxisAccurate, Times, Shaped;
    forall i | 0 <= i < |motion|
      ensures positions[i] == PositionsAt(motion, x)[i]
    {
      PositionOnMotion(k, motion, times, was, sums, idx, i);
    }
    assert positions == PositionsAt(motion, x);
  }

  lemma PositionOnMotion(k: GjKernel, motion: seq<Vector>, times: seq<real>, was: seq<seq<GjStep>>,
                         sums: seq<seq<GjStep>>, idx: nat, i: nat)
    requires AllShaped(k, sums) && i < |was| == |sums| == |motion| && |times| == k.order + 2
    requires AxisReady(k, motion[i], times[..k.order + 1], was[i])
    requires AxisAccurate(k, motion[i], times[..k.order + 1], was[i])
    requires SummedAxis(k, was[i], sums[i]) && idx <= k.order && idx != k.order / 2
    ensures NewPositions(k, Column(sums, idx))[i] == PositionsAt(motion, times[idx])[i]
  {
    hide *;
    NodePosition(k, motion[i], times[..k.order + 1], was[i], sums[i], idx);
  }

  lemma PassShape(k: GjKernel, force: Force, times: seq<real>, was: seq<seq<GjStep>>, sums: seq<seq<GjStep>>,
                  now: seq<seq<GjStep>>)
    requires IsPass(k, force, times, was, sums, now)
    ensures AllShaped(k, sums) && |was| == |sums| == |now| && |times| == k.order + 2
    ensures forall i | 0 <= i < |was| :: |sums[i]| == |was[i]| == k.order + 2 && SummedAxis(k, was[i], sums[i])
  {
    hide NewForces, Corrected, Dot, Over, FirstLink, SecondLink, Accels;
    forall i | 0 <= i < |was|
      ensures |sums[i]| == |was[i]| == k.order + 2
    {
      assert SummedAxis(k, was[i], sums[i]);
    }
  }

  lemma NodePosition(k: GjKernel, p: Vector, times: seq<real>, was: seq<GjStep>, st: seq<GjStep>, i: nat)
    requires AxisReady(k, p, times, was) && AxisAccurate(k, p, times, was) && SummedAxis(k, was, st)
    requires i <= k.order && i != k.order / 2
    ensures |times| == k.order + 1 && |st| == k.order + 2
    ensures Times(k.dvi2, st[i].ss + st[i].sa) == Eval(p, times[i])
  {
    NodeOnMotion(k, p, times, was, st, i);
    hide IsKernel, Eval, Deriv, Times;
  }

  lemma TimedForces(k: GjKernel, force: Force, motion: seq<Vector>, times: seq<real>, was: seq<seq<GjStep>>,
                    sums: seq<seq<GjStep>>, now: seq<seq<GjStep>>)
    requires IsPass(k, force, times, was, sums, now) && |was| == |motion| && Timed(force, motion)
    ensures ForcesRight(k, force, motion, times, sums)
  {
    PassShape(k, force, times, was, sums, now);
    hide IsPass, Times, AccelerationsAt;
  }

  /** Right forces make right accelerations. */
  lemma PassAccurate(k: GjKernel, force: Force, motion: seq<Vector>, times: seq<real>, was: seq<seq<GjStep>>,
                     sums: seq<seq<GjStep>>, now: seq<seq<GjStep>>, i: nat)
    requires IsPass(k, force, times, was, sums, now) && ForcesRight(k, force, motion, times, sums)
    requires i < |motion| == |was|
    requires AxisReady(k, motion[i], times[..k.order + 1], was[i])
    ensures |now| == |was| && AxisAccurate(k, motion[i], times[..k.order + 1], now[i])
  {
    ReadyFacts(k, motion[i], times[..k.order + 1], was[i]);
    PassedNode(k, force, times, was, sums, now, i, 0);
    hide IsPass, NewForces, IsKernel, Eval, Deriv, RowA, RowB, Uniform, AxisReady, ForcesRight, Shaped;
    forall idx | 0 <= idx < k.order + 1
      ensures now[i][idx].vd2 == Eval(Deriv(Deriv(motion[i])), times[idx])
    {
      NewAcceleration(k, force, motion, times, was, sums, now, i, idx);
    }
  }

  lemma NewAcceleration(k: GjKernel, force: Force, motion: seq<Vector>, times: seq<real>, was: seq<seq<GjStep>>,
                        sums: seq<seq<GjStep>>, now: seq<seq<GjStep>>, i: nat, idx: nat)
    requires IsPass(k, force, times, was, sums, now) && ForcesRight(k, force, motion, times, sums)
    requires i < |motion| == |was|
    requires |times| == k.order + 2 && AxisReady(k, motion[i], times[..k.order + 1], was[i]) && idx <= k.order
    ensures |now| == |was| && |now[i]| == k.order + 2 && now[i][idx].vd2 == Eval(Deriv(Deriv(motion[i])), times[idx])
  {
    hide *;
    ReadyFacts(k, motion[i], times[..k.order + 1], was[i]);
    PassedNode(k, force, times, was, sums, now, i, idx);
    if idx != k.order / 2 {
      ForcesAre(k, force, motion, times, sums, idx);
      CorrectedFields(k, sums[i][idx], NewForces(k, force, times, sums, idx)[i]);
    }
  }

  /** Right accelerations before and right forces put every node on the motion. */
  lemma PassOnMotion(k: GjKernel, force: Force, motion: seq<Vector>, times: seq<real>, was: seq<seq<GjStep>>,
                     sums: seq<seq<GjStep>>, now: seq<seq<GjStep>>, i: nat)
    requires IsPass(k, force, times, was, sums, now) && ForcesRight(k, force, motion, times, sums)
    requires i < |motion| == |was|
    requires AxisReady(k, motion[i], times[..k.order + 1], was[i])
    requires AxisAccurate(k, motion[i], times[..k.order + 1], was[i])
    ensures |now| == |was| && AxisOnMotion(k, motion[i], times[..k.order + 1], now[i])
  {
    var p := motion[i];
    PassKeepsReady(k, force, motion, times, was, sums, now, i);
    ReadyFacts(k, p, times[..k.order + 1], was[i]);
    PassedNode(k, force, times, was, sums, now, i, k.order + 1);
    PassShape(k, force, times, was, sums, now);
    hide IsPass, NewForces, IsKernel, Eval, Deriv, RowA, RowB, Uniform, SummedAxis, AxisAccurate, ForcesRight;
    forall idx | 0 <= idx <= k.order
      ensures AtNode(k, p, times[idx], now[i][idx])
    {
      PassedOnMotion(k, force, motion, times, was, sums, now, i, idx);
    }
  }

  lemma PassedOnMotion(k: GjKernel, force: Force, motion: seq<Vector>, times: seq<real>, was: seq<seq<GjStep>>,
                       sums: seq<seq<GjStep>>, now: seq<seq<GjStep>>, i: nat, idx: nat)
    requires IsPass(k, force, times, was, sums, now) && ForcesRight(k, force, motion, times, sums)
    requires i < |motion| == |was|
    requires AxisReady(k, motion[i], times[..k.order + 1], was[i])
    requires AxisAccurate(k, motion[i], times[..k.order + 1], was[i])
    requires idx <= k.order && SummedAxis(k, was[i], sums[i]) && |times| == k.order + 2
    ensures |now| == |was| && |now[i]| == |times| == k.order + 2
    ensures IsKernel(k) && k.dvi != 0.0 && k.dvi2 != 0.0 && AtNode(k, motion[i], times[idx], now[i][idx])
  {
    hide *;
    var p := motion[i];
    ReadyFacts(k, p, times[..k.order + 1], was[i]);
    PassedNode(k, force, times, was, sums, now, i, idx);
    NodeFacts(k, p, times[..k.order + 1], was[i], sums[i], idx);
    if idx != k.order / 2 {
      ForcesAre(k, force, motion, times, sums, idx);
      CorrectedFields(k, sums[i][idx], NewForces(k, force, times, sums, idx)[i]);
    }
    NodeIs(k, p, times[idx], now[i][idx]);
  }

  lemma ForcesAre(k: GjKernel, force: Force, motion: seq<Vector>, times: seq<real>, sums: seq<seq<GjStep>>, idx: nat)
    requires ForcesRight(k, force, motion, times, sums) && idx <= k.order && idx != k.order / 2
    ensures AllShaped(k, sums) && |times| == k.order + 2
    ensures NewForces(k, force, times, sums, idx) == AccelerationsAt(motion, times[idx])
  {
    hide NewForces, AccelerationsAt, Shaped;
  }

  /** The round keeps all axes on the motion, whatever the force is away from it. */
  lemma StepOnMotion(k: GjKernel, force: Force, motion: seq<Vector>, times: seq<real>, was: seq<seq<GjStep>>, x: real,
                     nodes: seq<seq<GjStep>>)
    requires AllOnMotion(k, force, motion, times, was) && AllShaped(k, was)
    requires |times| == k.order + 1 && x == times[k.order] + k.dvi
    requires AreAdvanced(k, force, was, x, nodes)
    ensures AllOnMotion(k, force, motion, Next(times, k.dvi), nodes)
  {
    NextIs(times, k.dvi);
    hide IsKernel, Predicted, Advanced, AxisOnMotion, Eval, Deriv, Shaped;
    var positions := PredictedPositions(k, was);
    forall i | 0 <= i < |was|
      ensures positions[i] == Eval(motion[i], x)
      ensures AxisOnMotion(k, motion[i], times[1..] + [x], Advanced(k, was[i], Eval(Deriv(Deriv(motion[i])), x)))
    {
      PredictedOnMotion(k, motion[i], times, was[i], x);
      AdvancedOnMotion(k, motion[i], times, was[i], x);
    }
    assert positions == PositionsAt(motion, x);
    assert force(x, positions) == AccelerationsAt(motion, x);
  }
}
