/** The Gauss-Jackson integrator: `gauss_jackson_instance`, `gauss_jackson_preset` and
    `gauss_jackson_extrapolate` of libraries/math/mathlib.cpp. */
module GaussJackson {
  import opened Numbers
  import opened Linear
  import opened Poly
  import opened Series
  import opened GaussJacksonKernel
  import opened GaussJacksonSeries
  import opened GaussJacksonMotion
  import opened GaussJacksonAxis
  import opened GaussJacksonAxes

  class GjInstance {
    const kern: GjKernel
    const axes: nat
    const force: Force
    const vi: array<real>
    const steps: seq<array<GjStep>>
    /** The arrays of `steps`. */
    ghost const repr: set<object>

    ghost predicate Owned() {
      && |steps| == axes && vi !in repr
      && forall i | 0 <= i < |steps| :: steps[i] in repr
    }

    ghost predicate Valid()
      reads repr
    {
      && Owned()
      && IsKernel(kern) && kern.dvi != 0.0 && kern.dvi2 != 0.0
      && vi.Length == kern.order + 2
      && (forall i, j | 0 <= i < j < axes :: steps[i] != steps[j])
      && (forall i | 0 <= i < axes :: Shaped(kern, steps[i][..]))
      && forall x: real, d: Vector | |d| == axes :: |force(x, d)| == axes
    }

    /** The force is asked for all axes at once and gives one value for each. */
    constructor (kern: GjKernel, axes: nat, force: Force)
      requires IsKernel(kern) && kern.dvi != 0.0 && forall x: real, d: Vector | |d| == axes :: |force(x, d)| == axes
      ensures Valid() && this.kern == kern && this.axes == axes && this.force == force
      ensures kern.order <= 33 ==> forall i | 0 <= i < axes :: HasRows(kern, steps[i][..])
      ensures fresh(repr) && fresh(vi)
      ensures forall i | 0 <= i < axes :: AtRest(steps[i][..])
    {
      var sts: seq<array<GjStep>> := [];
      ghost var all: set<object> := {};
      KernelFacts(kern);
      DviSquared(kern);
      hide IsKernel, HasRows, Shaped, AtRest;
      for i := 0 to axes
        invariant |sts| == i && fresh(all)
        invariant forall j | 0 <= j < i :: sts[j] in all && sts[j] as object in all && Shaped(kern, sts[j][..])
        invariant forall j, l | 0 <= j < l < i :: sts[j] != sts[l]
        invariant kern.order <= 33 ==> forall j | 0 <= j < i :: HasRows(kern, sts[j][..])
        invariant forall j | 0 <= j < i :: AtRest(sts[j][..])
      {
        var st := StepTable(kern);
        sts, all := sts + [st], all + {st};
      }
      var times := new real[kern.order + 2](_ => 0.0);
      this.kern, this.axes, this.force := kern, axes, force;
      this.vi, this.steps, this.repr := times, sts, all;
    }

    ghost function Nodes(): (r: seq<seq<GjStep>>)
      requires Owned()
      reads repr
      ensures |r| == |steps| && forall i | 0 <= i < |steps| :: r[i] == steps[i][..]
    {
      seq(|steps|, i requires 0 <= i < |steps| && Owned() reads repr => steps[i][..])
    }

    /** Every node of every axis is on the motion. */
    ghost predicate OnMotion(motion: seq<Vector>)
      requires Valid()
      reads repr, vi
    {
      AllOnMotion(kern, force, motion, vi[..kern.order + 1], Nodes())
    }

    /** Predict the next node of every axis. */
    method PredictAll() returns (positions: Vector)
      requires Valid()
      modifies repr
      ensures |positions| == axes
      ensures forall i | 0 <= i < axes ::
                && steps[i][..] == old(steps[i][..])[kern.order + 1 := Predicted(kern, old(steps[i][..]))]
                && positions[i] == Predicted(kern, old(steps[i][..])).vd0
    {
      hide Predicted, IsKernel;
      positions := [];
      for j := 0 to axes
        invariant |positions| == j
        invariant forall i | 0 <= i < j ::
                    && steps[i][..] == old(steps[i][..])[kern.order + 1 := Predicted(kern, old(steps[i][..]))]
                    && positions[i] == Predicted(kern, old(steps[i][..])).vd0
        invariant forall i | j <= i < axes :: steps[i][..] == old(steps[i][..])
      {
        Predict(kern, steps[j]);
        positions := positions + [steps[j][kern.order + 1].vd0];
      }
    }

    /** Give the new node of every axis its acceleration and shift. */
    method AdvanceAll(vd2: Vector, ghost was: seq<seq<GjStep>>)
      requires IsKernel(kern) && Owned() && axes == |vd2| == |was|
      requires forall i, j | 0 <= i < j < axes :: steps[i] != steps[j]
      requires forall i | 0 <= i < axes :: Shaped(kern, was[i])
                && steps[i][..] == was[i][kern.order + 1 := Predicted(kern, was[i])]
      modifies repr
      ensures forall i | 0 <= i < axes :: steps[i][..] == Advanced(kern, was[i], vd2[i])
    {
      hide Predicted, IsKernel, Advanced;
      for j := 0 to axes
        invariant forall i | 0 <= i < j :: steps[i][..] == Advanced(kern, was[i], vd2[i])
        invariant forall i | j <= i < axes :: steps[i][..] == was[i][kern.order + 1 := Predicted(kern, was[i])]
      {
        Advance(kern, steps[j], vd2[j], was[j]);
      }
    }
  
    /** Predict, calculate the forces at x and advance, for all axes. */
    method NextNodes(x: real)
      requires Valid()
      modifies repr
      ensures Valid()
      ensures AreAdvanced(kern, force, old(Nodes()), x, Nodes())
    {
      ghost var was := Nodes();
      var vd0 := PredictAll();
      assert vd0 == PredictedPositions(kern, was);
      var vd2 := force(x, vd0);
      AdvanceAll(vd2, was);
      hide IsKernel, Predicted, Advanced, Shaped;
      forall i | 0 <= i < axes
        ensures Shaped(kern, steps[i][..])
      {
        AdvancedShaped(kern, was[i], vd2[i]);
      }
    }

    /** One round of `gauss_jackson_extrapolate`. */
    method Round()
      requires Valid()
      modifies vi, repr
      ensures Valid()
      ensures vi[..kern.order + 1] == Next(old(vi[..kern.order + 1]), kern.dvi)
      ensures vi[kern.order + 1] == vi[kern.order]
      ensures AreAdvanced(kern, force, old(Nodes()), old(vi[kern.order]) + kern.dvi, Nodes())
    {
      var n := kern.order;
      ghost var was := vi[..];
      hide IsKernel, AreAdvanced, Shaped, Next;
      vi[n + 1] := vi[n] + kern.dvi;
      ghost var times := vi[..];
      assert times == was[n + 1 := was[n] + kern.dvi];
      NextNodes(vi[n + 1]);
      assert vi[..] == times;
      ShiftTimes(vi);
      ShiftedGrid(was, n, kern.dvi, vi[..]);
      assert vi[..n + 1] == vi[..][..n + 1];
    }

    /** A round keeps all axes on a motion that solves the equation. */
    method RoundOnMotion(ghost motion: seq<Vector>)
      requires Valid()
      modifies vi, repr
      ensures Valid()
      ensures vi[..kern.order + 1] == Next(old(vi[..kern.order + 1]), kern.dvi)
      ensures old(OnMotion(motion)) ==> OnMotion(motion)
    {
      ghost var was, times, onMotion := Nodes(), vi[..kern.order + 1], OnMotion(motion);
      assert AllShaped(kern, was) && vi.Length == kern.order + 2;
      hide IsKernel, AllOnMotion, AreAdvanced, Shaped, AllShaped, Next, Valid, Nodes;
      Round();
      if onMotion {
        StepOnMotion(kern, force, motion, times, was, times[kern.order] + kern.dvi, Nodes());
      }
    }

    /** All the sums of all axes. */
    method SumAll()
      requires Valid()
      modifies repr
      ensures Valid()
      ensures forall i | 0 <= i < axes :: SummedAxis(kern, old(Nodes())[i], Nodes()[i])
    {
      ghost var was := Nodes();
      SummableAll(kern, was);
      hide IsKernel, SummedAxis, Shaped;
      for j := 0 to axes
        invariant forall i | 0 <= i < j :: SummedAxis(kern, was[i], steps[i][..])
        invariant forall i | j <= i < axes :: steps[i][..] == was[i]
      {
        SumAxis(kern, steps[j]);
      }
      forall i | 0 <= i < axes
        ensures Shaped(kern, steps[i][..])
      {
        SummedShaped(kern, was[i], steps[i][..]);
      }
    }

    /** Give node idx of every axis the velocity and position of its sums. */
    method Reposition(idx: nat) returns (vd0: Vector, oldvd2: Vector)
      requires Valid() && idx <= kern.order
      modifies repr
      ensures |vd0| == |oldvd2| == axes && AllShaped(kern, old(Nodes()))
      ensures vd0 == NewPositions(kern, Column(old(Nodes()), idx))
      ensures forall i | 0 <= i < axes ::
                && oldvd2[i] == old(Nodes())[i][idx].vd2
                && Nodes()[i] == old(Nodes())[i][idx := Corrected(kern, old(Nodes())[i][idx], oldvd2[i])]
    {
      ghost var was := Nodes();
      assert AllShaped(kern, was);
      hide IsKernel, Times, Corrected, Shaped;
      vd0, oldvd2 := [], [];
      for k := 0 to axes
        invariant |vd0| == |oldvd2| == k
        invariant forall i | 0 <= i < k ::
                    && vd0[i] == Times(kern.dvi2, was[i][idx].ss + was[i][idx].sa) && oldvd2[i] == was[i][idx].vd2
                    && steps[i][..] == was[i][idx := Corrected(kern, was[i][idx], oldvd2[i])]
        invariant forall i | k <= i < axes :: steps[i][..] == was[i]
      {
        RepositionAxis(kern, steps[k], idx);
        vd0, oldvd2 := vd0 + [steps[k][idx].vd0], oldvd2 + [steps[k][idx].vd2];
      }
    }

    /** Give node idx of every axis its new acceleration, and say whether one has moved. */
    method Reforce(idx: nat, vd2: Vector, oldvd2: Vector, ghost was: seq<seq<GjStep>>) returns (moved: bool)
      requires idx <= kern.order && Owned() && |vd2| == |oldvd2| == |was| == axes && AllShaped(kern, was)
      requires forall i, j | 0 <= i < j < axes :: steps[i] != steps[j]
      requires forall i | 0 <= i < axes :: steps[i][..] == was[i][idx := Corrected(kern, was[i][idx], oldvd2[i])]
      modifies repr
      ensures forall i | 0 <= i < axes :: steps[i][..] == was[i][idx := Corrected(kern, was[i][idx], vd2[i])]
      ensures moved <==> exists i | 0 <= i < axes :: Moved(oldvd2[i], vd2[i])
    {
      hide Times, Moved;
      moved := false;
      for k := 0 to axes
        invariant forall i | 0 <= i < k :: steps[i][..] == was[i][idx := Corrected(kern, was[i][idx], vd2[i])]
        invariant forall i | k <= i < axes :: steps[i][..] == was[i][idx := Corrected(kern, was[i][idx], oldvd2[i])]
        invariant moved <==> exists i | 0 <= i < k :: Moved(oldvd2[i], vd2[i])
      {
        var st := steps[k];
        assert st[..] == was[k][idx := Corrected(kern, was[k][idx], oldvd2[k])];
        st[idx] := st[idx].(vd2 := vd2[k]);
        assert st[..] == was[k][idx := Corrected(kern, was[k][idx], vd2[k])];
        if Moved(oldvd2[k], vd2[k]) {
          moved := true;
        }
      }
    }

    /** Move node idx of every axis to where its sums put it, and calculate the forces there. */
    method MoveNode(idx: nat) returns (moved: bool)
      requires Valid() && idx <= kern.order
      modifies repr
      ensures AllShaped(kern, old(Nodes()))
      ensures AreMoved(kern, force, vi[idx], old(Nodes()), idx, Nodes())
      ensures moved <==> NodeMoved(old(Nodes()), Nodes(), idx)
    {
      ghost var was := Nodes();
      assert AllShaped(kern, was);
      assert forall x: real, d: Vector | |d| == axes :: |force(x, d)| == axes;
      hide IsKernel, Times;
      var vd0, oldvd2 := Reposition(idx);
      var vd2 := force(vi[idx], vd0);
      moved := Reforce(idx, vd2, oldvd2, was);
    }

    /** Correct node idx of every axis, next to the nodes lo to hi corrected so far. */
    method CorrectNode(idx: nat, ghost sums: seq<seq<GjStep>>, ghost lo: int, ghost hi: int) returns (moved: bool)
      requires Valid() && idx <= kern.order && idx != kern.order / 2
      requires CorrectedOn(kern, force, vi[..], sums, lo, hi, Nodes()) && (idx == lo - 1 || idx == hi + 1) && lo <= hi
      modifies repr
      ensures Valid()
      ensures CorrectedOn(kern, force, vi[..], sums, Min(lo, idx), Max(hi, idx), Nodes())
      ensures moved <==> NodeMoved(sums, Nodes(), idx)
    {
      ghost var was := Nodes();
      hide IsKernel, CorrectedOn, NodeMoved, AreMoved;
      moved := MoveNode(idx);
      ghost var now := Nodes();
      OneMoreCorrected(kern, force, vi[..], sums, lo, hi, was, idx, now);
      CorrectedShaped(kern, force, vi[..], sums, Min(lo, idx), Max(hi, idx), now);
    }

    /** Correct the nodes n before and n after the centre. The second sets the flag afresh. */
    method CorrectPair(n: nat, ghost sums: seq<seq<GjStep>>) returns (moved: bool)
      requires Valid() && 1 <= n <= kern.order / 2
      requires CorrectedOn(kern, force, vi[..], sums, kern.order / 2 - n + 1, kern.order / 2 + n - 1, Nodes())
      modifies repr
      ensures Valid()
      ensures CorrectedOn(kern, force, vi[..], sums, kern.order / 2 - n, kern.order / 2 + n, Nodes())
      ensures moved <==> NodeMoved(sums, Nodes(), kern.order / 2 + n)
    {
      hide *;
      var h := kern.order / 2;
      Widened(h - n + 1, h + n - 1);
      moved := CorrectNode(h - n, sums, h - n + 1, h + n - 1);
      moved := CorrectNode(h + n, sums, h - n, h + n - 1);
    }

    /** Correct the nodes outward from the centre: the last node decides the flag. */
    method CorrectAll(flag: bool, ghost sums: seq<seq<GjStep>>) returns (cflag: bool)
      requires Valid() && CorrectedOn(kern, force, vi[..], sums, kern.order / 2, kern.order / 2, Nodes())
      modifies repr
      ensures Valid()
      ensures CorrectedOn(kern, force, vi[..], sums, 0, 2 * (kern.order / 2), Nodes())
      ensures cflag <==> if kern.order < 2 then flag else NodeMoved(sums, Nodes(), 2 * (kern.order / 2))
    {
      assert Owned();
      hide *;
      cflag := flag;
      for n := 0 to kern.order / 2
        invariant Valid()
        invariant CorrectedOn(kern, force, vi[..], sums, kern.order / 2 - n, kern.order / 2 + n, Nodes())
        invariant cflag <==> if n == 0 then flag else NodeMoved(sums, Nodes(), kern.order / 2 + n)
      {
        cflag := CorrectPair(n + 1, sums);
      }
    }

    /** One pass of `gauss_jackson_preset`: sum every axis, then correct the nodes. */
    method Pass(flag: bool) returns (cflag: bool, ghost sums: seq<seq<GjStep>>)
      requires Valid()
      modifies repr
      ensures Valid()
      ensures IsPass(kern, force, vi[..], old(Nodes()), sums, Nodes())
      ensures cflag <==> if kern.order < 2 then flag else NodeMoved(sums, Nodes(), 2 * (kern.order / 2))
    {
      SumAll();
      sums := Nodes();
      NothingCorrected(kern, force, vi[..], sums);
      hide IsKernel, CorrectedOn, SummedAxis, NodeMoved;
      cflag := CorrectAll(flag, sums);
    }

    /** The state before `gauss_jackson_preset`: every axis is set up and its centre node is on
        the motion. */
    ghost predicate Ready(motion: seq<Vector>)
      requires Valid()
      reads repr, vi
    {
      AllReady(kern, motion, vi[..kern.order + 1], Nodes())
    }

    ghost predicate Accurate(motion: seq<Vector>)
      requires Valid()
      reads repr, vi
    {
      AllAccurate(kern, motion, vi[..kern.order + 1], Nodes())
    }

    /** The loop of `gauss_jackson_preset`. */
    method RunPasses(ghost motion: seq<Vector>, ghost claims: Claims)
      returns (ghost passes: int, ghost settled: bool, ghost last: seq<seq<GjStep>>, ghost sums: seq<seq<GjStep>>)
      requires Valid() && |motion| == axes
      requires PresetState(kern, force, motion, vi[..kern.order + 1], vi[kern.order], Nodes(), 0, true, claims)
      modifies repr
      ensures Valid() && 0 < passes <= 10 && (passes == 10 || settled)
      ensures IsPass(kern, force, vi[..], last, sums, Nodes()) && |last| == axes
      ensures claims.ready ==> AllReady(kern, motion, vi[..kern.order + 1], last)
      ensures PresetState(kern, force, motion, vi[..kern.order + 1], vi[kern.order], Nodes(), passes, !settled, claims)
    {
      assert Owned() && vi.Length == kern.order + 2;
      ghost var times := vi[..];
      assert times[..kern.order + 1] == vi[..kern.order + 1];
      hide *;
      var ccount, cflag := 0, true;
      last, sums := [], [];
      while ccount < 10 && cflag
        invariant Valid() && 0 <= ccount <= 10 && vi[..] == times && (ccount == 0 ==> cflag)
        invariant ccount > 0 ==> IsPass(kern, force, times, last, sums, Nodes()) && |last| == axes
        invariant ccount > 0 && claims.ready ==> AllReady(kern, motion, times[..kern.order + 1], last)
        invariant PresetState(kern, force, motion, times[..kern.order + 1], times[kern.order], Nodes(), ccount, cflag,
                    claims)
      {
        last := Nodes();
        PresetReady(kern, force, motion, times[..kern.order + 1], times[kern.order], last, ccount, cflag, claims);
        cflag, sums := Pass(true);
        PresetNext(kern, force, motion, times, last, sums, Nodes(), ccount, cflag, claims);
        ccount := ccount + 1;
      }
      passes, settled := ccount, !cflag;
    }

    /** The passes, and what they come to. */
    method Settle(ghost motion: seq<Vector>, ghost claims: Claims) returns (ghost last: seq<seq<GjStep>>)
      requires Valid() && |motion| == axes
      requires PresetState(kern, force, motion, vi[..kern.order + 1], vi[kern.order], Nodes(), 0, true, claims)
      modifies repr
      ensures Valid()
      ensures claims.ready && IsSolution(force, motion) ==>
                (OnMotion(motion) <==> AllAccurate(kern, motion, vi[..kern.order + 1], last))
      ensures claims.ready && claims.accurate && claims.solves ==> OnMotion(motion)
      ensures claims.ready && claims.timed ==> Accurate(motion)
      ensures claims.ready && claims.timed && claims.off ==> OnMotion(motion)
      ensures claims.ready && claims.timed && kern.order >= 2 && OnMotion(motion) ==> claims.accurate || claims.off
    {
      hide IsKernel, AllReady, AllAccurate, AllOnMotion, IsSolution, Timed, NodeOff, PresetState, Shaped, IsPass;
      ghost var passes, settled, sums;
      passes, settled, last, sums := RunPasses(motion, claims);
      assert vi[..][..kern.order + 1] == vi[..kern.order + 1] && vi.Length == kern.order + 2;
      LastPass(kern, force, motion, vi[..], last, sums, Nodes());
      PresetEnds(kern, force, motion, vi[..kern.order + 1], vi[kern.order], Nodes(), passes, !settled, claims);
    }

    /** Passes until the last node's accelerations settle, at most ten. From the right
        accelerations, every node ends on the motion. When the force depends on the time alone,
        that happens exactly when the accelerations were right or the last node's were not. For any
        force, it happens exactly when the last pass started from the right accelerations. */
    method Preset(ghost motion: seq<Vector>) returns (ghost last: seq<seq<GjStep>>)
      requires Valid() && |motion| == axes
      modifies repr
      ensures Valid()
      ensures old(Ready(motion)) && old(Accurate(motion)) && IsSolution(force, motion) ==> OnMotion(motion)
      ensures old(Ready(motion)) && IsSolution(force, motion) ==>
                (OnMotion(motion) <==> AllAccurate(kern, motion, vi[..kern.order + 1], last))
      ensures old(Ready(motion)) && Timed(force, motion) ==> Accurate(motion)
      ensures old(Ready(motion)) && Timed(force, motion) ==>
                (OnMotion(motion) <==>
                 old(Accurate(motion)) || old(NodeOff(motion, vi[kern.order], Nodes(), kern.order)))
    {
      ghost var claims := Claims(Ready(motion), Accurate(motion), IsSolution(force, motion), Timed(force, motion),
                                 NodeOff(motion, vi[kern.order], Nodes(), kern.order));
      if claims.timed {
        TimedSolves(force, motion);
      }
      if claims.ready && kern.order < 2 {
        OneNodesAccurate(kern, motion, vi[..kern.order + 1], Nodes());
      }
      hide IsKernel, AllReady, AllAccurate, AllOnMotion, IsSolution, Timed, NodeOff, PresetState, Shaped;
      PresetStarts(kern, force, motion, vi[..kern.order + 1], vi[kern.order], Nodes(), claims);
      last := Settle(motion, claims);
    }

    ghost predicate UniformGrid()
      requires Valid()
      reads repr, vi
    {
      Uniform(vi[..kern.order + 1], kern.dvi)
    }

    /** Extrapolation to the target: any number of rounds keeps every axis on every motion that
        solves the equation. */
    method Extrapolate(target: real, ghost motion: seq<Vector>) returns (ghost rounds: nat)
      requires Valid()
      modifies vi, repr
      ensures Valid()
      ensures rounds as int == Max(0, Truncated(0.5 + (target - old(vi[kern.order / 2])) / kern.dvi))
      ensures old(UniformGrid()) ==> UniformGrid()
      ensures old(UniformGrid()) ==>
                forall i | 0 <= i <= kern.order :: vi[i] == old(vi[i]) + Mul(AsReal(rounds), kern.dvi)
      ensures old(UniformGrid()) && (target - old(vi[kern.order / 2])) / kern.dvi >= -0.5 ==>
                -Half(kern.dvi) <= target - vi[kern.order / 2] <= Half(kern.dvi)
      ensures old(OnMotion(motion)) ==> OnMotion(motion)
    {
      var chunks := Truncated(0.5 + (target - vi[kern.order / 2]) / kern.dvi);
      ghost var m, times, uniform, onMotion := kern.order + 1, vi[..kern.order + 1], UniformGrid(), OnMotion(motion);
      if uniform {
        GridStarts(times, kern.dvi);
      }
      rounds := RunRounds(chunks, times, motion);
      if uniform && (target - times[kern.order / 2]) / kern.dvi >= -0.5 {
        NearTarget(target, times[kern.order / 2], kern.dvi, chunks);
      }
    }

    /** The loop of `gauss_jackson_extrapolate`. */
    method RunRounds(chunks: int, ghost times: seq<real>, ghost motion: seq<Vector>) returns (ghost rounds: nat)
      requires Valid() && times == vi[..kern.order + 1]
      modifies vi, repr
      ensures Valid() && rounds == Max(0, chunks)
      ensures GridAfter(times, kern.dvi, 0, times) ==> GridAfter(times, kern.dvi, rounds, vi[..kern.order + 1])
      ensures old(OnMotion(motion)) ==> OnMotion(motion)
    {
      ghost var onMotion := OnMotion(motion);
      hide IsKernel, AllOnMotion, AreAdvanced, Shaped, AllShaped, Next, GridAfter;
      rounds := 0;
      var i := 0;
      while i < chunks
        invariant Valid() && rounds == i && i <= Max(0, chunks)
        invariant GridAfter(times, kern.dvi, 0, times) ==> GridAfter(times, kern.dvi, rounds, vi[..kern.order + 1])
        invariant onMotion ==> OnMotion(motion)
      {
        GridSteps(times, kern.dvi, rounds, vi[..kern.order + 1]);
        RoundOnMotion(motion);
        i := i + 1;
        rounds := rounds + 1;
      }
    }
  }

  // ----- Constant acceleration -----

  function Falling(r0: real, v0: real, a: real): Vector { [r0, v0, a / 2.0] }

  lemma FallingMotion(r0: real, v0: real, a: real, t: real)
    ensures Eval(Falling(r0, v0, a), t) == r0 + v0 * t + a * t * t / 2.0
    ensures Eval(Deriv(Falling(r0, v0, a)), t) == v0 + a * t
    ensures Eval(Deriv(Deriv(Falling(r0, v0, a))), t) == a
  {
    var c := Falling(r0, v0, a);
    DerivOfThree(c);
    EvalOfTwo([v0, a], t);
    assert c[1..] == [v0, a / 2.0];
    EvalOfTwo([v0, a / 2.0], t);
    EvalStep(c, t);
    DerivOfTwo([v0, a]);
    assert Eval([a], t) == a + t * Eval([], t);
  }

  lemma DerivOfTwo(c: Vector)
    requires |c| == 2
    ensures Deriv(c) == [c[1]]
  {
    DerivUnfolds(c);
    assert c[1..][1..] == [] && Deriv(c[1..]) == [];
    CombAt(1.0, c[1..], 1.0, [0.0] + [], 0);
  }

  lemma DerivOfThree(c: Vector)
    requires |c| == 3
    ensures Deriv(c) == [c[1], 2.0 * c[2]]
  {
    DerivUnfolds(c);
    DerivOfTwo(c[1..]);
    hide Deriv;
    var d := [0.0] + Deriv(c[1..]);
    CombAt(1.0, c[1..], 1.0, d, 0);
    CombAt(1.0, c[1..], 1.0, d, 1);
  }

  ghost predicate IsFalling(p: Vector, a: real) {
    exists r0, v0 :: p == Falling(r0, v0, a)
  }

  /** The motions with the constant accelerations a. */
  ghost predicate AreFalling(motion: seq<Vector>, a: Vector) {
    |motion| == |a| && forall i | 0 <= i < |a| :: IsFalling(motion[i], a[i])
  }

  lemma FallingAccelerations(motion: seq<Vector>, a: Vector, t: real)
    requires AreFalling(motion, a)
    ensures AccelerationsAt(motion, t) == a
  {
    forall i | 0 <= i < |a|
      ensures AccelerationsAt(motion, t)[i] == a[i]
    {
      var r0, v0 :| motion[i] == Falling(r0, v0, a[i]);
      FallingMotion(r0, v0, a[i], t);
    }
  }

  /** A constant force drives every such motion, whatever the positions are. */
  lemma ConstantForce(force: Force, motion: seq<Vector>, a: Vector)
    requires AreFalling(motion, a) && forall x: real, d: Vector | |d| == |a| :: force(x, d) == a
    ensures Timed(force, motion)
  {
    hide AreFalling, AccelerationsAt;
    assert |motion| == |a| by { FallingCount(motion, a); }
    forall x: real, d: Vector | |d| == |motion|
      ensures force(x, d) == AccelerationsAt(motion, x)
    {
      FallingAccelerations(motion, a, x);
    }
  }

  lemma FallingCount(motion: seq<Vector>, a: Vector)
    requires AreFalling(motion, a)
    ensures |motion| == |a|
  {
  }

  /** From an instance whose accelerations are still zero but at the centre, `gauss_jackson_preset`
      is exact for constant accelerations unless they are all too small to be seen, yet not all
      zero. */
  lemma PresetFromZeros(k: GjKernel, motion: seq<Vector>, a: Vector, times: seq<real>, nodes: seq<seq<GjStep>>)
    requires AllReady(k, motion, times, nodes) && AreFalling(motion, a) && k.order >= 2 && |times| == k.order + 1
    requires forall i, idx | 0 <= i < |nodes| && 0 <= idx <= k.order && idx != k.order / 2 && idx < |nodes[i]| ::
               nodes[i][idx].vd2 == 0.0
    ensures AllAccurate(k, motion, times, nodes) || NodeOff(motion, times[k.order], nodes, k.order)
       <==> (forall i | 0 <= i < |a| :: a[i] == 0.0) || exists i | 0 <= i < |a| :: Moved(0.0, a[i])
  {
    FallingCount(motion, a);
    FallingAccelerations(motion, a, times[k.order]);
    hide AreFalling, AxisReady, AccelerationsAt, AxisAccurate;
    forall i | 0 <= i < |a|
      ensures |nodes[i]| == k.order + 2 && nodes[i][k.order].vd2 == 0.0
      ensures AxisAccurate(k, motion[i], times, nodes[i]) <==> a[i] == 0.0
    {
      ZerosAccurate(k, motion, a, times, nodes, i);
    }
  }

  lemma ZerosAccurate(k: GjKernel, motion: seq<Vector>, a: Vector, times: seq<real>, nodes: seq<seq<GjStep>>, i: nat)
    requires |nodes| == |motion| == |a| && i < |a| && AreFalling(motion, a) && AxisReady(k, motion[i], times, nodes[i])
    requires k.order >= 2
    requires forall idx | 0 <= idx <= k.order && idx != k.order / 2 && idx < |nodes[i]| :: nodes[i][idx].vd2 == 0.0
    ensures |times| == k.order + 1 && |nodes[i]| == k.order + 2 && nodes[i][k.order].vd2 == 0.0
    ensures AxisAccurate(k, motion[i], times, nodes[i]) <==> a[i] == 0.0
  {
    ReadyFacts(k, motion[i], times, nodes[i]);
    var r0, v0 :| motion[i] == Falling(r0, v0, a[i]);
    hide *;
    forall idx | 0 <= idx <= k.order
      ensures Eval(Deriv(Deriv(motion[i])), times[idx]) == a[i]
    {
      FallingMotion(r0, v0, a[i], times[idx]);
    }
    if AxisAccurate(k, motion[i], times, nodes[i]) {
      AccurateAt(k, motion[i], times, nodes[i], k.order);
    } else if a[i] == 0.0 {
      AccurateFrom(k, motion[i], times, nodes[i]);
    }
  }

  lemma AccurateAt(k: GjKernel, p: Vector, times: seq<real>, st: seq<GjStep>, idx: nat)
    requires AxisAccurate(k, p, times, st) && idx <= k.order && |times| == k.order + 1
    ensures |st| == k.order + 2 && st[idx].vd2 == Eval(Deriv(Deriv(p)), times[idx])
  {
    hide Eval, Deriv;
    assert Accels(st[..k.order + 1])[idx] == st[idx].vd2;
  }

  function FallingAll(r: Vector, v: Vector, a: Vector): (motion: seq<Vector>)
    requires |r| == |v| == |a|
    ensures |motion| == |a| && forall i | 0 <= i < |a| :: motion[i] == Falling(r[i], v[i], a[i])
  {
    seq(|a|, i requires 0 <= i < |a| => Falling(r[i], v[i], a[i]))
  }

  lemma AllFalling(r: Vector, v: Vector, a: Vector)
    requires |r| == |v| == |a|
    ensures AreFalling(FallingAll(r, v, a), a)
  {
    forall i | 0 <= i < |a|
      ensures IsFalling(FallingAll(r, v, a)[i], a[i])
    {
      assert FallingAll(r, v, a)[i] == Falling(r[i], v[i], a[i]);
    }
  }

  predicate FallsAt(st: GjStep, r0: real, v0: real, a: real, t: real) {
    st.vd0 == r0 + v0 * t + a * t * t / 2.0 && st.vd1 == v0 + a * t && st.vd2 == a
  }

  lemma NodeFalls(k: GjKernel, r0: real, v0: real, a: real, times: seq<real>, st: seq<GjStep>, idx: nat)
    requires AxisOnMotion(k, Falling(r0, v0, a), times, st) && idx <= k.order
    ensures |st| == k.order + 2 && |times| == k.order + 1 && FallsAt(st[idx], r0, v0, a, times[idx])
  {
    NodeAt(k, Falling(r0, v0, a), times, st, idx);
    FallingMotion(r0, v0, a, times[idx]);
    hide Eval, Deriv, Falling;
  }

  lemma NodeAt(k: GjKernel, p: Vector, times: seq<real>, st: seq<GjStep>, idx: nat)
    requires AxisOnMotion(k, p, times, st) && idx <= k.order
    ensures |st| == k.order + 2 && |times| == k.order + 1 && st[idx].vd0 == Eval(p, times[idx])
    ensures st[idx].vd1 == Eval(Deriv(p), times[idx]) && st[idx].vd2 == Eval(Deriv(Deriv(p)), times[idx])
  {
    hide Eval, Deriv, IsKernel, Uniform;
  }

  /** Under constant accelerations `gauss_jackson_preset` and then `gauss_jackson_extrapolate`, to
      any target, put every node where it falls to, when the preset's condition is met. */
  method FallTo(gj: GjInstance, target: real, ghost r: Vector, ghost v: Vector, ghost a: Vector)
    requires gj.Valid() && gj.UniformGrid() && |r| == |v| == |a| == gj.axes
    requires forall x: real, d: Vector | |d| == gj.axes :: gj.force(x, d) == a
    requires gj.Ready(FallingAll(r, v, a))
    requires gj.Accurate(FallingAll(r, v, a))
          || NodeOff(FallingAll(r, v, a), gj.vi[gj.kern.order], gj.Nodes(), gj.kern.order)
    modifies gj.vi, gj.repr
    ensures gj.Valid() && gj.UniformGrid()
    ensures forall i, idx | 0 <= i < gj.axes && 0 <= idx <= gj.kern.order ::
              FallsAt(gj.steps[i][idx], r[i], v[i], a[i], gj.vi[idx])
  {
    ghost var motion := FallingAll(r, v, a);
    AllFalling(r, v, a);
    ConstantForce(gj.force, motion, a);
    hide IsKernel, AllReady, AllAccurate, AllOnMotion, NodeOff, Timed, Shaped, Falling, AreFalling, Uniform, FallsAt;
    ghost var last := gj.Preset(motion);
    ghost var rounds := gj.Extrapolate(target, motion);
    forall i, idx | 0 <= i < gj.axes && 0 <= idx <= gj.kern.order
      ensures FallsAt(gj.steps[i][idx], r[i], v[i], a[i], gj.vi[idx])
    {
      OnAxis(gj.kern, gj.force, motion, gj.vi[..gj.kern.order + 1], gj.Nodes(), i);
      NodeFalls(gj.kern, r[i], v[i], a[i], gj.vi[..gj.kern.order + 1], gj.Nodes()[i], idx);
    }
  }

  lemma OnAxis(k: GjKernel, force: Force, motion: seq<Vector>, times: seq<real>, nodes: seq<seq<GjStep>>, i: nat)
    requires AllOnMotion(k, force, motion, times, nodes) && i < |nodes|
    ensures |motion| == |nodes| && AxisOnMotion(k, motion[i], times, nodes[i])
  {
    hide AxisOnMotion;
  }

  // ----- The flag of the last node -----

  lemma ThirdCoefficient(k: GjKernel)
    requires IsKernel(k)
    ensures k.c[2] == -1.0 / 12.0
  {
    var r := Reciprocals(k.order + 3);
    LeadingCoefficients(k);
    ConvAt(k.c, r, 2);
    hide Conv, BackPower, PartialSum;
    assert ConvSum(k.c, r, 2, 0) == 0.0;
    assert ConvSum(k.c, r, 2, 1) == k.c[0] * r[2];
    assert ConvSum(k.c, r, 2, 2) == k.c[0] * r[2] + k.c[1] * r[1];
    assert ConvSum(k.c, r, 2, 3) == k.c[0] * r[2] + k.c[1] * r[1] + k.c[2] * r[0];
  }

  /** For order 2, the weights of node 0 in the first sums of nodes 1 and 2 differ by 1/12. */
  lemma FirstWeights(k: GjKernel)
    requires IsKernel(k) && k.order == 2
    ensures |k.beta| == 4 && |k.beta[1]| == |k.beta[2]| == 3
    ensures RowB(k, 2)[0] - RowB(k, 1)[0] == -1.0 / 12.0
  {
    ThirdCoefficient(k);
    var s := k.c[1..4];
    assert k.beta[2] == BackPower(s, 0) && k.beta[1] == BackPower(s, 1);
    BackStart(s);
    BackStep(s, 1, 2);
    hide Ordinate, BackPower, Conv, PartialSum, BinomialSum, Mul;
    OrdinateAt(k.beta[1], 2);
    OrdinateAt(k.beta[2], 2);
    LastBinomial(k.beta[1]);
    LastBinomial(k.beta[2]);
  }

  lemma LastBinomial(row: Vector)
    requires |row| == 3
    ensures Mul(Sign(2), BinomialSum(row, 2, 0)) == row[2]
  {
    assert BinomialSum(row[3..], 2, 3) == 0.0;
    assert row[1..][1..] == row[2..] && row[2..][1..] == row[3..];
    assert BinomialSum(row[2..], 2, 2) == row[2] + 0.0;
  }

  lemma DotOfFirst(row: Vector, f: Vector)
    requires |row| == 3 && f == [1.0, 0.0, 0.0]
    ensures Dot(row, f) == row[0]
  {
    DotUnfolds(row, f);
    DotUnfolds(row[1..], f[1..]);
    DotUnfolds(row[2..], f[2..]);
    assert row[1..][1..] == row[2..] && f[1..][1..] == f[2..];
    assert Dot(row[3..], f[3..]) == 0.0;
    assert row[2..][1..] == row[3..] && f[2..][1..] == f[3..];
  }

  lemma NothingMoves(x: real)
    ensures Eval([], x) == 0.0 && Deriv([]) == []
  {
  }

  lemma Velocities(k: GjKernel, was: seq<GjStep>, sums: seq<GjStep>)
    requires IsKernel(k) && k.order == 2 && k.dvi == 1.0 && AxisReady(k, [], [-1.0, 0.0, 1.0], was)
    requires was[0].vd2 == 1.0 && was[2].vd2 == 0.0 && SummedAxis(k, was, sums)
    ensures |sums| == 4 && sums[2].s + sums[2].sb == -1.0 / 12.0
  {
    var times, f := [-1.0, 0.0, 1.0], Accels(was[..3]);
    hide *;
    NothingMoves(times[1]);
    SummedIs(k, was, sums);
    ReadyFacts(k, [], times, was);
    FirstWeights(k);
    SummedCentre(k, was, sums);
    SummedNode(k, was, sums, 1);
    SummedNode(k, was, sums, 2);
    Links(sums[1], sums[2]);
    assert f == [1.0, 0.0, 0.0];
    DotOfFirst(was[1].b, f);
    DotOfFirst(was[2].b, f);
    OverOne(was[1].vd1);
    HalfOfZero();
  }

  lemma OverOne(p: real)
    ensures Over(p, 1.0) == p && Times(1.0, p) == p
  {
  }

  lemma HalfOfZero()
    ensures Mul(0.5, 0.0) == 0.0
  {
  }

  /** Only the last node's accelerations decide whether `gauss_jackson_preset` goes on: a pass can
      stop it although another node has just moved and velocities are wrong. */
  lemma StopsEarly(k: GjKernel, force: Force, was: seq<GjStep>, sums: seq<GjStep>, now: seq<GjStep>)
    requires IsKernel(k) && k.order == 2 && k.dvi == 1.0
    requires forall x: real, d: Vector :: force(x, d) == [0.0]
    requires AxisReady(k, [], [-1.0, 0.0, 1.0], was) && was[0].vd2 == 1.0 && was[2].vd2 == 0.0
    requires IsPass(k, force, [-1.0, 0.0, 1.0, 2.0], [was], [sums], [now])
    ensures !NodeMoved([sums], [now], 2) && NodeMoved([sums], [now], 0)
    ensures |now| == 4 && now[2].vd1 == -1.0 / 12.0 && Eval(Deriv([]), 1.0) == 0.0
  {
    var times := [-1.0, 0.0, 1.0, 2.0];
    assert SummedAxis(k, [was][0], [sums][0]);
    hide IsPass, SummedAxis, AxisReady, IsKernel, Eval, Deriv, Times, Over, Dot, Shaped;
    PassedNode(k, force, times, [was], [sums], [now], 0, 0);
    PassedNode(k, force, times, [was], [sums], [now], 0, 2);
    Velocities(k, was, sums);
    OverOne(sums[2].s + sums[2].sb);
    NothingMoves(1.0);
    assert NewForces(k, force, times, [sums], 0) == [0.0] && NewForces(k, force, times, [sums], 2) == [0.0];
    assert [now][0][0].vd2 == 0.0 && [sums][0][0].vd2 == 1.0;
    assert [now][0][2].vd2 == 0.0 && [sums][0][2].vd2 == 0.0;
  }
}
