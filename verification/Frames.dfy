/** Frame synchronisation: the `pos_*` functions of libraries/support/convertlib.cpp. */
module Frames {
  import opened Numbers
  import opened FrameTree
  import opened AttitudePasses

  // ----- Passes -----

  function Top(pos: Positions): (top: nat)
    ensures forall f: Frame :: pos.At(f).pass <= top
    ensures exists f: Frame :: pos.At(f).pass == top
  {
    var a := Max(Max(pos.At(Icrf).pass, pos.At(Eci).pass), Max(pos.At(Sci).pass, pos.At(Geoc).pass));
    var b := Max(Max(pos.At(Selc).pass, pos.At(Selg).pass), Max(pos.At(Geos).pass, pos.At(Geod).pass));
    TopIs(pos, Max(a, b));
    Max(a, b)
  }

  lemma TopIs(pos: Positions, top: nat)
    requires top == Max(
                      Max(Max(pos.At(Icrf).pass, pos.At(Eci).pass), Max(pos.At(Sci).pass, pos.At(Geoc).pass)),
                      Max(Max(pos.At(Selc).pass, pos.At(Selg).pass), Max(pos.At(Geos).pass, pos.At(Geod).pass)))
    ensures forall f: Frame :: pos.At(f).pass <= top
    ensures exists f: Frame :: pos.At(f).pass == top
  {
    forall f: Frame
      ensures pos.At(f).pass <= top
    {
      match f case Icrf => case Eci => case Sci => case Geoc => case Selc => case Selg => case Geos => case Geod =>
    }
    assert pos.At(Icrf).pass == top || pos.At(Eci).pass == top || pos.At(Sci).pass == top || pos.At(Geoc).pass == top
        || pos.At(Selc).pass == top || pos.At(Selg).pass == top || pos.At(Geos).pass == top || pos.At(Geod).pass == top;
  }

  /** How far the inner frames lag behind the newest pass. */
  function Lag(pos: Positions): nat
  {
    var top := Top(pos);
    (top - pos.At(Icrf).pass) + (top - pos.At(Eci).pass) + (top - pos.At(Sci).pass) + (top - pos.At(Geoc).pass)
        + (top - pos.At(Selc).pass)
  }

  /** Inner frames never fall back and no pass is invented. */
  ghost predicate Kept(before: Positions, after: Positions) {
    && (forall f | Internal(f) :: before.At(f).pass <= after.At(f).pass)
    && forall f: Frame :: after.At(f).pass <= Top(before)
  }

  lemma KeptTop(before: Positions, after: Positions)
    requires Kept(before, after)
    ensures Top(after) <= Top(before)
  {
    var f: Frame :| after.At(f).pass == Top(after);
  }

  lemma LagDrops(before: Positions, after: Positions, f: Frame)
    requires Kept(before, after)
    ensures Lag(after) <= Lag(before)
    ensures Internal(f) && before.At(f).pass < after.At(f).pass ==> Lag(after) < Lag(before)
  {
    KeptTop(before, after);
    hide Top;
    assert Internal(Icrf) && Internal(Eci) && Internal(Sci) && Internal(Geoc) && Internal(Selc);
  }

  lemma KeptTrans(a: Positions, b: Positions, c: Positions)
    requires Kept(a, b) && Kept(b, c)
    ensures Kept(a, c)
  {
    KeptTop(a, b);
    hide Top;
  }

  // ----- The goal of a run -----

  /** A run from the newest frame: its pass and time, the time's matrices and ephemerides, and
      all components before. */
  datatype Goal = Goal(root: Frame, pass: nat, t: real, frames: Components, before: Positions)

  /** The root's components, converted step by step along the tree. */
  ghost function Expected(w: World, goal: Goal, f: Frame): Components
    decreases Distance(f, goal.root)
  {
    if f == goal.root then goal.before.At(f).val
    else
      NextIsNearer(f, goal.root);
      var from := Next(f, goal.root);
      w.convert(from, f, goal.frames, Expected(w, goal, from), goal.before.At(f).val)
  }

  /** What holds of frame f during the run: either it is still as before, or it has the root's
      pass and time and its expected components, and so has the next frame towards the root. */
  ghost predicate Spread(w: World, goal: Goal, pos: Positions, f: Frame)
  {
    if pos.At(f).pass == goal.pass then
      && pos.At(f).val == Expected(w, goal, f)
      && (f == goal.root || (pos.At(f).utc == Finite(goal.t) && pos.At(Next(f, goal.root)).pass == goal.pass))
    else pos.At(f).pass < goal.pass && pos.At(f).val == goal.before.At(f).val
  }

  ghost predicate Spreading(w: World, goal: Goal, pos: Positions) {
    && pos.At(goal.root).pass == goal.pass
    && (forall f: Frame :: Spread(w, goal, pos, f))
    && (goal.root == Geos && pos.At(Geoc).pass < goal.pass && goal.t != 0.0 ==> pos.At(Geoc).utc.Finite?)
  }

  /** The time of the run: the root's, or the location's when the root has none. */
  predicate RunTime(goal: Goal, pos: Positions, utc: Time)
  {
    if pos.At(goal.root).utc == Finite(0.0) then utc == Finite(goal.t) else pos.At(goal.root).utc == Finite(goal.t)
  }

  /** `pos_extra` succeeds at the time of the run and leaves the run's matrices. */
  predicate ExtraReady(w: World, goal: Goal, extra: Extra) {
    if extra.utc == Finite(goal.t) then extra.frames == goal.frames
    else w.tt(goal.t) > -1.0 && goal.frames == if w.tt(goal.t) > 0.0 then w.frames(goal.t) else extra.frames
  }

  /** Every neighbour of f has the pass. */
  ghost predicate Settled(pos: Positions, pass: nat, f: Frame)
  {
    forall g: Frame | Adjacent(f, g) :: pos.At(g).pass == pass
  }

  /** Frames keep the pass once they have it, and those that have got it are settled. */
  ghost predicate Settles(before: Positions, after: Positions, pass: nat) {
    && (forall f: Frame :: before.At(f).pass == pass ==> after.At(f).pass == pass)
    && forall f: Frame :: after.At(f).pass == pass && before.At(f).pass != pass ==> Settled(after, pass, f)
  }

  lemma SettlesTrans(a: Positions, b: Positions, c: Positions, pass: nat)
    requires Settles(a, b, pass) && Settles(b, c, pass)
    ensures Settles(a, c, pass)
    ensures forall f: Frame :: Settled(b, pass, f) ==> Settled(c, pass, f)
  {
    forall f: Frame | Settled(b, pass, f)
      ensures Settled(c, pass, f)
    {
    }
  }

  /** The frame that is about to be converted is the next on g's way to the root. */
  lemma OnTheFront(w: World, goal: Goal, pos: Positions, f: Frame, g: Frame)
    requires Spreading(w, goal, pos) && Adjacent(f, g) && pos.At(f).pass == goal.pass && pos.At(g).pass != goal.pass
    ensures g != goal.root && Next(g, goal.root) == f
  {
    assert Spread(w, goal, pos, f);
    if Next(g, goal.root) != f {
      EdgeLeadsToRoot(f, g, goal.root);
    }
  }

  lemma OthersBehind(w: World, goal: Goal, pos: Positions, f: Frame, g: Frame, z: Frame)
    requires Spreading(w, goal, pos) && Adjacent(f, g) && pos.At(f).pass == goal.pass && pos.At(g).pass != goal.pass
    requires Adjacent(z, g) && z != f
    ensures pos.At(z).pass != goal.pass
  {
    OnTheFront(w, goal, pos, f, g);
    if pos.At(z).pass == goal.pass {
      OnTheFront(w, goal, pos, z, g);
    }
  }

  lemma GeosIsRoot(w: World, goal: Goal, pos: Positions)
    requires Spreading(w, goal, pos) && pos.At(Geos).pass == goal.pass && pos.At(Geoc).pass != goal.pass
    ensures goal.root == Geos && pos.At(Geoc).pass < goal.pass
  {
    assert Spread(w, goal, pos, Geos) && Spread(w, goal, pos, Geoc);
    hide Next;
  }

  /** The positions after f has been converted into g. */
  function Converted(w: World, pos: Positions, f: Frame, g: Frame, frames: Components, utc: Time): Positions
  {
    pos.With(g, Position(pos.At(f).pass, utc, w.convert(f, g, frames, pos.At(f).val, pos.At(g).val)))
  }

  /** Nothing but the frames' times has changed. */
  ghost predicate Retimed(before: Positions, after: Positions) {
    && forall h: Frame :: after.At(h).pass == before.At(h).pass && after.At(h).val == before.At(h).val
  }

  /** If the times were fit, g has the pass, the time and the converted components of f; passes
      and components of the other frames are as before. */
  ghost predicate Carried(w: World, before: Positions, after: Positions, ok: bool, f: Frame, g: Frame,
                          frames: Components, utc: Time) {
    && (ok ==> after.At(g) == Position(before.At(f).pass, utc,
         w.convert(f, g, frames, before.At(f).val, before.At(g).val)))
    && forall h: Frame | !ok || h != g :: after.At(h).pass == before.At(h).pass && after.At(h).val == before.At(h).val
  }

  lemma CarriedIs(w: World, before: Positions, mid: Positions, f: Frame, g: Frame, frames: Components, utc: Time)
    requires Retimed(before, mid)
    ensures Carried(w, before, Converted(w, mid, f, g, frames, utc), true, f, g, frames, utc)
    ensures Carried(w, before, mid, false, f, g, frames, utc)
    ensures mid.At(f).pass == before.At(f).pass && mid.At(g).pass == before.At(g).pass
  {
  }

  lemma ConvertedSpread(w: World, goal: Goal, pos: Positions, f: Frame, g: Frame, h: Frame)
    requires f != g && pos.At(f).pass == goal.pass && pos.At(g).pass != goal.pass
    requires Spread(w, goal, pos, f) && Spread(w, goal, pos, g) && Spread(w, goal, pos, h)
    requires g != goal.root && Next(g, goal.root) == f
    ensures Spread(w, goal, Converted(w, pos, f, g, goal.frames, Finite(goal.t)), h)
  {
    hide Next;
  }

  lemma ConvertedSpreads(w: World, goal: Goal, pos: Positions, f: Frame, g: Frame)
    requires Spreading(w, goal, pos) && Adjacent(f, g) && pos.At(f).pass == goal.pass && pos.At(g).pass != goal.pass
    ensures Spreading(w, goal, Converted(w, pos, f, g, goal.frames, Finite(goal.t)))
  {
    OnTheFront(w, goal, pos, f, g);
    hide Next, Spread;
    forall h: Frame
      ensures Spread(w, goal, Converted(w, pos, f, g, goal.frames, Finite(goal.t)), h)
    {
      ConvertedSpread(w, goal, pos, f, g, h);
    }
  }

  /** Once every frame of the pass is settled, all frames have it. */
  lemma {:induction false} AllSettled(goal: Goal, pos: Positions, f: Frame)
    requires pos.At(goal.root).pass == goal.pass
    requires forall h: Frame :: pos.At(h).pass == goal.pass ==> Settled(pos, goal.pass, h)
    ensures pos.At(f).pass == goal.pass
    decreases Distance(f, goal.root)
  {
    if f != goal.root {
      var g := Next(f, goal.root);
      NextIsNearer(f, goal.root);
      AllSettled(goal, pos, g);
      assert Adjacent(g, f);
    }
  }

  // ----- Attitudes that the positions carry along -----

  /** The attitude passes follow the positions: a pair of converted position frames has brought
      its attitudes along, and both pairs the two local ones. */
  predicate AttSpread(goal: Goal, pos: Positions, att: Attitudes)
  {
    var p := goal.pass;
    var earth, moon := pos.At(Eci).pass == p && pos.At(Geoc).pass == p, pos.At(Sci).pass == p && pos.At(Selc).pass == p;
    && (earth || moon ==> att.At(AttIcrf).pass == p)
    && (earth ==> att.At(AttGeoc).pass == p) && (moon ==> att.At(AttSelc).pass == p)
    && (earth && moon ==> att.At(AttLvlh).pass == p && att.At(AttTopo).pass == p)
  }

  /** The attitudes follow a conversion into the geocentric frame. */
  lemma EarthFollows(goal: Goal, pos: Positions, led: Attitudes, closest: Body, now: Attitudes)
    requires led.At(AttIcrf).pass == goal.pass && LocalsFollow(led.With(AttGeoc, led.At(AttIcrf)), closest, now)
    requires pos.At(Sci).pass == goal.pass && pos.At(Selc).pass == goal.pass ==> led.At(AttSelc).pass == goal.pass
    ensures AttSpread(goal, pos, now)
  {
  }

  /** And into the selenocentric one. */
  lemma MoonFollows(goal: Goal, pos: Positions, led: Attitudes, closest: Body, now: Attitudes)
    requires led.At(AttIcrf).pass == goal.pass && LocalsFollow(led.With(AttSelc, led.At(AttIcrf)), closest, now)
    requires pos.At(Eci).pass == goal.pass && pos.At(Geoc).pass == goal.pass ==> led.At(AttGeoc).pass == goal.pass
    ensures AttSpread(goal, pos, now)
  {
  }

  /** The state of a run, without the attitudes. */
  ghost predicate Moving(w: World, goal: Goal, pos: Positions, utc: Time, extra: Extra) {
    Spreading(w, goal, pos) && RunTime(goal, pos, utc) && ExtraReady(w, goal, extra)
  }

  /** The same, after `pos_extra`. */
  ghost predicate Fresh(w: World, goal: Goal, pos: Positions, utc: Time, extra: Extra) {
    Moving(w, goal, pos, utc, extra) && extra.frames == goal.frames && pos.At(goal.root).utc == Finite(goal.t)
  }

  lemma ConvertedFresh(w: World, goal: Goal, pos: Positions, utc: Time, extra: Extra, f: Frame, g: Frame)
    requires Fresh(w, goal, pos, utc, extra) && Adjacent(f, g) && pos.At(f).pass == goal.pass
    requires pos.At(g).pass != goal.pass
    requires utc == Finite(goal.t)
    ensures Fresh(w, goal, Converted(w, pos, f, g, extra.frames, utc), utc, extra)
  {
    ConvertedSpreads(w, goal, pos, f, g);
    OnTheFront(w, goal, pos, f, g);
    hide Spreading;
  }

  /** What a synchronisation from frame f finds during the run. */
  lemma StillFresh(w: World, goal: Goal, pos: Positions, utc: Time, extra: Extra, f: Frame, g: Frame)
    requires Fresh(w, goal, pos, utc, extra) && pos.At(f).pass == goal.pass && pos.At(g).pass != goal.pass
    requires Adjacent(f, g)
    ensures (if pos.At(f).utc == Finite(0.0) then utc else pos.At(f).utc) == Finite(goal.t)
    ensures f == Geos && pos.At(Geos).utc != Finite(0.0) ==> pos.At(Geoc).utc.Finite?
    ensures extra.utc == Finite(goal.t) || w.tt(goal.t) > -1.0
    ensures Fresh(w, goal, pos.With(f, pos.At(f).(utc := Finite(goal.t))), Finite(goal.t), extra)
    ensures extra.utc != Finite(goal.t) && w.tt(goal.t) > 0.0 ==>
              Fresh(w, goal, pos.With(f, pos.At(f).(utc := Finite(goal.t))), Finite(goal.t),
                    Extra(Finite(goal.t), w.frames(goal.t), extra.closest))
  {
    TimeSpreads(w, goal, pos, utc, extra, f);
    if f == Geos {
      GeosIsRoot(w, goal, pos);
      assert pos.At(Geos).utc != Finite(0.0) ==> pos.At(Geoc).utc.Finite?;
    }
    hide Spreading;
    FreshExtra(w, goal, pos.With(f, pos.At(f).(utc := Finite(goal.t))), Finite(goal.t), extra);
  }

  /** The state of a run. */
  ghost predicate Going(w: World, goal: Goal, pos: Positions, att: Attitudes, utc: Time, extra: Extra) {
    Moving(w, goal, pos, utc, extra) && AttSpread(goal, pos, att)
  }

  /** Setting a frame's time to the run's changes nothing for the run. */
  lemma TimeSpreads(w: World, goal: Goal, pos: Positions, utc: Time, extra: Extra, f: Frame)
    requires Moving(w, goal, pos, utc, extra) && pos.At(f).pass == goal.pass
    ensures (if pos.At(f).utc == Finite(0.0) then utc else pos.At(f).utc) == Finite(goal.t)
    ensures Moving(w, goal, pos.With(f, pos.At(f).(utc := Finite(goal.t))), Finite(goal.t), extra)
  {
    var after := pos.With(f, pos.At(f).(utc := Finite(goal.t)));
    assert Spread(w, goal, pos, f);
    hide Next;
    forall h: Frame
      ensures Spread(w, goal, after, h)
    {
      assert Spread(w, goal, pos, h);
    }
  }

  // ----- Starting and arriving -----

  /** The time a `pos_X` works with: the frame's, or the location's when the frame has none. */
  function TimeOf(frame: Time, utc: Time): Time {
    if frame == Finite(0.0) then utc else frame
  }

  /** `pos_geos2geoc` will not work: it looks at the time of its destination. */
  predicate Blocked(pos: Positions) {
    pos.At(Geos).utc != Finite(0.0) && pos.At(Geoc).utc == NotFinite
  }

  /** The time a `pos_X` works with is finite, and its terrestrial time not a whole day negative. */
  predicate TimeFits(w: World, frame: Time, utc: Time, extra: Extra) {
    var time := TimeOf(frame, utc);
    time.Finite? && (extra.utc == time || w.tt(time.t) > -1.0)
  }

  ghost predicate StrictNewest(pos: Positions, f: Frame) {
    forall g: Frame | g != f :: pos.At(g).pass < pos.At(f).pass
  }

  predicate Startable(w: World, f: Frame, pos: Positions, utc: Time, extra: Extra) {
    && TimeFits(w, pos.At(f).utc, utc, extra)
    && (f == Geos && TimeOf(pos.At(f).utc, utc) != Finite(0.0) ==> pos.At(Geoc).utc.Finite?)
  }

  /** The goal of a call of `pos_X` for frame f. */
  function GoalFor(w: World, f: Frame, pos: Positions, utc: Time, extra: Extra): Goal {
    var time := TimeOf(pos.At(f).utc, utc);
    var t := if time.Finite? then time.t else 0.0;
    var frames := if extra.utc != Finite(t) && w.tt(t) > 0.0 then w.frames(t) else extra.frames;
    Goal(f, pos.At(f).pass, t, frames, pos)
  }

  /** What a run from the newest frame leaves: all frames have its pass and its time, their
      components are the root's converted along the tree, and all attitudes have the pass. */
  ghost predicate Arrived(w: World, goal: Goal, pos: Positions, att: Attitudes) {
    && (forall f: Frame :: pos.At(f).pass == goal.pass && pos.At(f).utc == Finite(goal.t)
         && pos.At(f).val == Expected(w, goal, f))
    && forall a: Attitude :: att.At(a).pass == goal.pass
  }

  /** The state of a run after `pos_extra`. */
  ghost predicate GoingFresh(w: World, goal: Goal, pos: Positions, att: Attitudes, utc: Time, extra: Extra) {
    Fresh(w, goal, pos, utc, extra) && AttSpread(goal, pos, att)
  }

  /** Only g among the inner frames has changed its pass, and every pass is f's or the old one. */
  ghost predicate ConvertedPasses(before: Positions, after: Positions, ok: bool, f: Frame, g: Frame) {
    && (forall h | Internal(h) && h != g :: after.At(h).pass == before.At(h).pass)
    && (forall h: Frame :: after.At(h).pass == before.At(h).pass || after.At(h).pass == before.At(f).pass)
    && after.At(g).pass == (if ok then before.At(f).pass else before.At(g).pass)
  }

  /** Frames keep the pass, and those but g that have got it are settled. */
  ghost predicate SettlesBut(before: Positions, after: Positions, pass: nat, g: Frame) {
    && (forall f: Frame :: before.At(f).pass == pass ==> after.At(f).pass == pass)
    && forall f: Frame | f != g :: after.At(f).pass == pass && before.At(f).pass != pass ==> Settled(after, pass, f)
  }

  lemma OnePass(att: Attitudes, p: nat, q: nat)
    requires AllAt(att, p)
    ensures AllAt(att, q) <==> p == q
  {
  }

  lemma Starts(w: World, f: Frame, pos: Positions, att: Attitudes, utc: Time, extra: Extra)
    requires StrictNewest(pos, f) && Startable(w, f, pos, utc, extra)
    ensures Going(w, GoalFor(w, f, pos, utc, extra), pos, att, utc, extra)
  {
    var goal := GoalFor(w, f, pos, utc, extra);
    hide Next;
    forall g: Frame
      ensures Spread(w, goal, pos, g)
    {
    }
  }

  lemma NotArrived(w: World, goal: Goal, before: Positions, after: Positions, att: Attitudes, f: Frame)
    requires StrictNewest(before, f) && Retimed(before, after) && goal.pass == before.At(f).pass
    ensures !Arrived(w, goal, after, att)
  {
    var g := if f == Icrf then Eci else Icrf;
    assert after.At(g).pass == before.At(g).pass < goal.pass;
    hide Expected;
  }

  /** Giving an attitude the pass of the run, or another closest body, is harmless to the run. */
  lemma AttGoes(w: World, goal: Goal)
    ensures forall pos: Positions, att: Attitudes, utc: Time, extra: Extra, a: Attitude, t: Turn ::
              GoingFresh(w, goal, pos, att, utc, extra) && t.pass == goal.pass ==>
                  GoingFresh(w, goal, pos, att.With(a, t), utc, extra)
  {
    hide Fresh;
  }

  lemma ExtraGoes(w: World, goal: Goal)
    ensures forall pos: Positions, att: Attitudes, utc: Time, extra: Extra, closest: Body ::
              GoingFresh(w, goal, pos, att, utc, extra) ==>
                  GoingFresh(w, goal, pos, att, utc, extra.(closest := closest))
  {
    hide Spreading, RunTime, AttSpread;
  }

  lemma Arrives(w: World, goal: Goal, before: Positions, pos: Positions, att: Attitudes, utc: Time, extra: Extra)
    requires GoingFresh(w, goal, pos, att, utc, extra)
    requires Settles(before, pos, goal.pass) && Settled(pos, goal.pass, goal.root)
    requires forall f: Frame | f != goal.root :: before.At(f).pass < goal.pass
    ensures Arrived(w, goal, pos, att)
  {
    hide Next;
    forall f: Frame
      ensures pos.At(f).pass == goal.pass && pos.At(f).utc == Finite(goal.t) && pos.At(f).val == Expected(w, goal, f)
    {
      AllSettled(goal, pos, f);
      assert Spread(w, goal, pos, f);
    }
    forall a: Attitude
      ensures att.At(a).pass == goal.pass
    {
      match a case AttIcrf => case AttGeoc => case AttSelc => case AttLvlh => case AttTopo =>
    }
  }

  lemma ArrivedAll(w: World, goal: Goal, pos: Positions, att: Attitudes)
    requires Arrived(w, goal, pos, att)
    ensures AllAt(att, goal.pass) && forall a: Attitude :: att.At(a).pass == goal.pass
  {
    hide Expected;
  }

  lemma ArrivedStill(w: World, goal: Goal, pos: Positions, att: Attitudes)
    requires AllAt(att, goal.pass)
    requires exists before: Attitudes :: Arrived(w, goal, pos, before)
    ensures Arrived(w, goal, pos, att)
  {
    var before: Attitudes :| Arrived(w, goal, pos, before);
    hide Expected;
    forall a: Attitude
      ensures att.At(a).pass == goal.pass
    {
      match a case AttIcrf => case AttGeoc => case AttSelc => case AttLvlh => case AttTopo =>
    }
  }

  lemma FitIsFinite(w: World, frame: Time, utc: Time, extra: Extra)
    ensures TimeFits(w, frame, utc, extra) ==> TimeOf(frame, utc).Finite?
  {
  }

  lemma RetimedOne(before: Positions, f: Frame, time: Time)
    ensures Retimed(before, before)
    ensures var after := before.With(f, before.At(f).(utc := time));
      Retimed(before, after) && after.At(f).utc == time && forall h: Frame | h != f :: after.At(h) == before.At(h)
  {
  }

  /** What the start of a `pos_X` for a frame of the run finds and leaves. */
  lemma RefreshKeeps(w: World, goal: Goal, pos: Positions, att: Attitudes, utc: Time, extra: Extra, f: Frame)
    requires Going(w, goal, pos, att, utc, extra) && pos.At(f).pass == goal.pass
    requires f == goal.root || pos.At(goal.root).utc == Finite(goal.t)
    ensures TimeOf(pos.At(f).utc, utc) == Finite(goal.t) && TimeFits(w, pos.At(f).utc, utc, extra)
    ensures var renewed := if extra.utc != Finite(goal.t) && w.tt(goal.t) > 0.0
                           then Extra(Finite(goal.t), w.frames(goal.t), extra.closest) else extra;
      GoingFresh(w, goal, pos.With(f, pos.At(f).(utc := Finite(goal.t))), att, Finite(goal.t), renewed)
  {
    TimeSpreads(w, goal, pos, utc, extra, f);
    hide Spreading;
  }

  lemma AreNeighbours(pos: Positions, p: nat)
    ensures Settled(pos, p, Icrf) <==> pos.At(Eci).pass == p && pos.At(Sci).pass == p
    ensures Settled(pos, p, Eci) <==> pos.At(Icrf).pass == p && pos.At(Geoc).pass == p
    ensures Settled(pos, p, Sci) <==> pos.At(Icrf).pass == p && pos.At(Selc).pass == p
    ensures Settled(pos, p, Geoc) <==> pos.At(Eci).pass == p && pos.At(Geos).pass == p && pos.At(Geod).pass == p
    ensures Settled(pos, p, Selc) <==> pos.At(Sci).pass == p && pos.At(Selg).pass == p
    ensures Settled(pos, p, Selg) <==> pos.At(Selc).pass == p
    ensures Settled(pos, p, Geos) <==> pos.At(Geoc).pass == p
    ensures Settled(pos, p, Geod) <==> pos.At(Geoc).pass == p
  {
    assert Adjacent(Icrf, Eci) && Adjacent(Icrf, Sci) && Adjacent(Eci, Icrf) && Adjacent(Eci, Geoc);
    assert Adjacent(Sci, Icrf) && Adjacent(Sci, Selc) && Adjacent(Geoc, Eci) && Adjacent(Geoc, Geos)
             && Adjacent(Geoc, Geod);
    assert Adjacent(Selc, Sci) && Adjacent(Selc, Selg) && Adjacent(Selg, Selc) && Adjacent(Geos, Geoc)
             && Adjacent(Geod, Geoc);
  }

  lemma SettlesKeepsAll(before: Positions, after: Positions, pass: nat)
    ensures Settles(before, after, pass) ==> forall f: Frame :: before.At(f).pass == pass ==> after.At(f).pass == pass
  {
  }

  lemma SettlesChain(a: Positions, b: Positions, c: Positions, pass: nat)
    ensures Settles(a, b, pass) && Settles(b, c, pass) ==> Settles(a, c, pass)
  {
    if Settles(a, b, pass) && Settles(b, c, pass) {
      SettlesTrans(a, b, c, pass);
    }
  }

  lemma KeptSelf(pos: Positions)
    ensures Kept(pos, pos)
  {
    hide Top;
  }

  lemma KeptLag(before: Positions, after: Positions, f: Frame)
    requires Kept(before, after)
    ensures Lag(after) <= Lag(before)
    ensures Internal(f) ==> before.At(f).pass <= after.At(f).pass
    ensures Internal(f) && before.At(f).pass < after.At(f).pass ==> Lag(after) < Lag(before)
  {
    LagDrops(before, after, f);
    hide Top, Lag;
  }

  lemma RetimedKept(before: Positions, after: Positions, pass: nat)
    requires Retimed(before, after)
    ensures Kept(before, after) && Lag(after) == Lag(before)
    ensures forall f: Frame :: after.At(f).pass == before.At(f).pass
  {
    KeptTop(before, after);
    KeptTop(after, before);
    hide Top;
  }

  lemma RetimedTwice(before: Positions, mid: Positions)
    requires Retimed(before, mid)
    ensures forall after: Positions :: Retimed(mid, after) ==> Retimed(before, after)
  {
  }

  lemma RetimedSettles(before: Positions, mid: Positions, after: Positions, pass: nat)
    requires Retimed(before, mid)
    ensures Settles(mid, after, pass) ==> Settles(before, after, pass)
  {
  }

  lemma SettlesSelf(pos: Positions, pass: nat)
    ensures Settles(pos, pos, pass)
  {
  }

  lemma SettlesKeeps(before: Positions, after: Positions, pass: nat, f: Frame)
    requires Settles(before, after, pass)
    ensures before.At(f).pass == pass ==> after.At(f).pass == pass
  {
  }

  /** A successful conversion of a newer frame brings the inner frames closer to the newest pass;
      a failed one leaves the passes alone. */
  lemma ConvertedKept(before: Positions, after: Positions, ok: bool, f: Frame, g: Frame)
    requires ConvertedPasses(before, after, ok, f, g) && before.At(f).pass > before.At(g).pass && Adjacent(f, g)
    ensures Kept(before, after)
    ensures Lag(after) <= Lag(before)
    ensures after.At(g).pass == if ok then before.At(f).pass else before.At(g).pass
    ensures ok && Internal(g) ==> Lag(after) < Lag(before)
    ensures !Internal(g) ==> Internal(f)
  {
    hide Lag, Top;
    LagDrops(before, after, g);
  }

  lemma BranchSettles(before: Positions, mid: Positions, after: Positions, pass: nat, g: Frame)
    ensures SettlesBut(before, mid, pass, g) && Settles(mid, after, pass) && Settled(after, pass, g) ==>
              Settles(before, after, pass)
    ensures Settles(mid, after, pass) && mid.At(g).pass == pass ==> after.At(g).pass == pass
  {
    if SettlesBut(before, mid, pass, g) && Settles(mid, after, pass) && Settled(after, pass, g) {
      BranchSettled(before, mid, after, pass, g);
    }
  }

  lemma BranchSettled(before: Positions, mid: Positions, after: Positions, pass: nat, g: Frame)
    requires SettlesBut(before, mid, pass, g) && Settles(mid, after, pass) && Settled(after, pass, g)
    ensures Settles(before, after, pass)
  {
    forall f: Frame | after.At(f).pass == pass && before.At(f).pass != pass
      ensures Settled(after, pass, f)
    {
      if f != g && mid.At(f).pass == pass {
        assert Settled(mid, pass, f);
      }
    }
  }

  lemma NeverNewer(w: World, goal: Goal, pos: Positions, att: Attitudes, utc: Time, extra: Extra, f: Frame)
    ensures GoingFresh(w, goal, pos, att, utc, extra) ==> pos.At(f).pass <= goal.pass
  {
    if GoingFresh(w, goal, pos, att, utc, extra) {
      assert Spread(w, goal, pos, f);
    }
  }

  /** The other frame of g's pair has not got the pass before g. */
  lemma PartnerBehind(w: World, goal: Goal, pos: Positions, f: Frame, g: Frame)
    requires Spreading(w, goal, pos) && Adjacent(f, g) && pos.At(f).pass == goal.pass && pos.At(g).pass != goal.pass
    ensures g == Eci && f != Geoc ==> pos.At(Geoc).pass != goal.pass
    ensures g == Geoc && f != Eci ==> pos.At(Eci).pass != goal.pass
    ensures g == Sci && f != Selc ==> pos.At(Selc).pass != goal.pass
    ensures g == Selc && f != Sci ==> pos.At(Sci).pass != goal.pass
  {
    hide Spreading;
    match g
    case Eci => if f != Geoc { OthersBehind(w, goal, pos, f, g, Geoc); }
    case Geoc => if f != Eci { OthersBehind(w, goal, pos, f, g, Eci); }
    case Sci => if f != Selc { OthersBehind(w, goal, pos, f, g, Selc); }
    case Selc => if f != Sci { OthersBehind(w, goal, pos, f, g, Sci); }
    case _ =>
  }

  /** A conversion that carries nothing along leaves the attitudes in step, as the other frame of
      the pair is behind. */
  lemma OtherKept(w: World, goal: Goal, before: Positions, after: Positions, att: Attitudes, ok: bool, f: Frame,
                  g: Frame, frames: Components, utc: Time)
    requires Carried(w, before, after, ok, f, g, frames, utc)
    requires (f, g) !in {(Eci, Geoc), (Geoc, Eci), (Sci, Selc), (Selc, Sci)}
    ensures ConvertedPasses(before, after, ok, f, g)
    ensures before.At(f).pass == goal.pass ==> SettlesBut(before, after, goal.pass, g)
    ensures AttSpread(goal, before, att)
            && (g == Eci ==> before.At(Geoc).pass != goal.pass) && (g == Geoc ==> before.At(Eci).pass != goal.pass)
            && (g == Sci ==> before.At(Selc).pass != goal.pass) && (g == Selc ==> before.At(Sci).pass != goal.pass) ==>
              AttSpread(goal, after, att)
  {
  }

  lemma SamePassesKept(before: Positions, after: Positions, f: Frame, g: Frame)
    requires f != g
    ensures (forall h: Frame :: after.At(h).pass == before.At(h).pass) ==> ConvertedPasses(before, after, false, f, g)
  {
  }

  /** g and the leaves beside it have f's pass: the leaves are settled. */
  lemma GroupPasses(before: Positions, after: Positions, f: Frame, g: Frame, pass: nat)
    requires (f == Eci && g == Geoc) || (f == Sci && g == Selc)
    requires forall h | Internal(h) && h != g :: after.At(h).pass == before.At(h).pass
    requires forall h: Frame :: after.At(h).pass == before.At(h).pass
               || (Up(h) == g && after.At(h).pass == before.At(f).pass) || h == g
    requires after.At(g).pass == before.At(f).pass
    ensures ConvertedPasses(before, after, true, f, g)
    ensures before.At(f).pass == pass ==> SettlesBut(before, after, pass, g)
  {
    if before.At(f).pass == pass {
      forall h: Frame | h != g && after.At(h).pass == pass && before.At(h).pass != pass
        ensures Settled(after, pass, h)
      {
      }
    }
  }

  /** Renewing the matrices at the time of the run succeeds and changes nothing for the run. */
  lemma FreshExtra(w: World, goal: Goal, pos: Positions, utc: Time, extra: Extra)
    requires Fresh(w, goal, pos, utc, extra) && utc == Finite(goal.t)
    ensures extra.utc == utc || w.tt(utc.t) > -1.0
    ensures extra.utc != utc && w.tt(utc.t) > 0.0 ==>
              Fresh(w, goal, pos, utc, Extra(utc, w.frames(utc.t), extra.closest))
  {
    hide Spreading;
  }

  /** When the selenocentric frame has the pass before the inertial one, the terrestrial frames
      do not have it. */
  lemma EarthBehind(w: World, goal: Goal, pos: Positions)
    requires Spreading(w, goal, pos) && pos.At(Selc).pass == goal.pass && pos.At(Sci).pass != goal.pass
    ensures pos.At(Icrf).pass != goal.pass && pos.At(Eci).pass != goal.pass
  {
    OthersBehind(w, goal, pos, Selc, Sci, Icrf);
    OnTheFront(w, goal, pos, Selc, Sci);
    assert Spread(w, goal, pos, Eci);
    assert goal.root == Selc || goal.root == Selg;
  }

  // ----- The location -----

  class Location {
    const world: World
    var pos: Positions
    var att: Attitudes
    var utc: Time
    var posUtc: Time
    var extra: Extra

    constructor (world: World)
      ensures this.world == world && utc == posUtc == Finite(0.0) && extra == Extra(Finite(0.0), [], Earth)
      ensures (forall f: Frame :: pos.At(f) == Position(0, Finite(0.0), []))
      ensures forall a: Attitude :: att.At(a) == Turn(0, Finite(0.0))
    {
      this.world := world;
      var zero, still := Position(0, Finite(0.0), []), Turn(0, Finite(0.0));
      pos := Positions(zero, zero, zero, zero, zero, zero, zero, zero);
      att := Attitudes(still, still, still, still, still);
      utc, posUtc := Finite(0.0), Finite(0.0);
      extra := Extra(Finite(0.0), [], Earth);
    }

    /** Synchronise the location's time with frame f's, or the frame's with the location's when
        the frame has none. */
    method Synchronize(f: Frame) returns (ok: bool)
      modifies this
      ensures ok <==> if old(pos.At(f).utc) == Finite(0.0) then old(utc).Finite? else old(pos.At(f).utc).Finite?
      ensures pos == if ok then old(pos).With(f, old(pos.At(f)).(utc := utc)) else old(pos)
      ensures ok ==> utc == posUtc == if old(pos.At(f).utc) == Finite(0.0) then old(utc) else old(pos.At(f).utc)
      ensures !ok ==> utc == old(utc) && posUtc == old(posUtc)
      ensures att == old(att) && extra == old(extra)
    {
      if pos.At(f).utc == Finite(0.0) {
        if utc == NotFinite {
          return false;
        }
        posUtc := utc;
        pos := pos.With(f, pos.At(f).(utc := utc));
      } else {
        if pos.At(f).utc == NotFinite {
          return false;
        }
        utc, posUtc := pos.At(f).utc, pos.At(f).utc;
        assert pos.With(f, pos.At(f).(utc := utc)) == pos;
      }
      ok := true;
    }

    /** `pos_extra`: renew the matrices and ephemerides when the time has changed. */
    method PosExtra() returns (ok: bool)
      modifies this`extra
      ensures ok <==> utc.Finite? && (old(extra.utc) == utc || world.tt(utc.t) > -1.0)
      ensures extra == if ok && old(extra.utc) != utc && world.tt(utc.t) > 0.0
                       then Extra(utc, world.frames(utc.t), old(extra.closest)) else old(extra)
    {
      if utc == NotFinite {
        return false;
      }
      if extra.utc == utc {
        return true;
      }
      var tt := world.tt(utc.t);
      if tt <= 0.0 {
        return tt > -1.0;
      }
      extra := Extra(utc, world.frames(utc.t), extra.closest);
      ok := true;
    }
  
    /** `att_planec2lvlh`. */
    method Planec2Lvlh()
      modifies this`att
      ensures att == old(att).With(Planec(extra.closest), old(att).At(Planec(extra.closest)).(utc := utc))
                             .With(AttLvlh, Turn(old(att).At(Planec(extra.closest)).pass, utc))
    {
      var a := Planec(extra.closest);
      att := att.With(a, att.At(a).(utc := utc));
      att := att.With(AttLvlh, Turn(att.At(a).pass, utc));
    }

    /** `att_planec2topo`. */
    method Planec2Topo()
      modifies this`att
      ensures att == old(att).With(Planec(extra.closest), old(att).At(Planec(extra.closest)).(utc := utc))
                             .With(AttTopo, Turn(old(att).At(Planec(extra.closest)).pass, utc))
    {
      var a := Planec(extra.closest);
      att := att.With(a, att.At(a).(utc := utc));
      att := att.With(AttTopo, Turn(att.At(a).pass, utc));
    }

    /** Copy an attitude pass between the inertial frame and a body's: the common part of
        `att_geoc2icrf`, `att_selc2icrf`, `att_icrf2geoc` and `att_icrf2selc`. */
    method Turned(a: Attitude, b: Attitude)
      requires a != b
      modifies this`att
      ensures att == old(att).With(a, Turn(old(att).At(a).pass, utc)).With(b, Turn(old(att).At(a).pass, utc))
    {
      att := att.With(a, att.At(a).(utc := utc));
      att := att.With(b, Turn(att.At(a).pass, utc));
    }

    /** `att_icrf2geoc`. */
    method AttIcrf2Geoc()
      modifies this`att, this`extra
      ensures extra.closest == old(extra.closest)
      ensures utc.Finite? && (old(extra.utc) == utc || world.tt(utc.t) > -1.0) ==>
                LocalsFollow(old(att).With(AttGeoc, old(att).At(AttIcrf)), extra.closest, att)
      ensures !(utc.Finite? && (old(extra.utc) == utc || world.tt(utc.t) > -1.0)) ==> att == old(att)
      ensures extra == if utc.Finite? && old(extra.utc) != utc && world.tt(utc.t) > 0.0
                       then Extra(utc, world.frames(utc.t), old(extra.closest)) else old(extra)
    {
      var ok := PosExtra();
      if !ok {
        return;
      }
      Turned(AttIcrf, AttGeoc);
      Planec2Topo();
      Planec2Lvlh();
    }

    /** `att_icrf2selc`: the pass is copied before the time is checked. */
    method AttIcrf2Selc()
      modifies this`att, this`extra
      ensures utc.Finite? && (old(extra.utc) == utc || world.tt(utc.t) > -1.0) ==>
                LocalsFollow(old(att).With(AttSelc, old(att).At(AttIcrf)), extra.closest, att)
      ensures !(utc.Finite? && (old(extra.utc) == utc || world.tt(utc.t) > -1.0)) ==>
                SamePasses(att, old(att).With(AttSelc, old(att).At(AttIcrf)))
      ensures extra == if utc.Finite? && old(extra.utc) != utc && world.tt(utc.t) > 0.0
                       then Extra(utc, world.frames(utc.t), old(extra.closest)) else old(extra)
    {
      Turned(AttIcrf, AttSelc);
      var ok := PosExtra();
      if !ok {
        return;
      }
      Planec2Lvlh();
      Planec2Topo();
    }

    /** The time check of `pos_geos2geoc`, which looks at the destination's time. */
    method SynchronizeGeos() returns (ok: bool)
      modifies this
      ensures ok <==> if old(pos.At(Geos).utc) == Finite(0.0) then old(utc).Finite? else old(pos.At(Geoc).utc).Finite?
      ensures pos == if ok then old(pos).With(Geos, old(pos.At(Geos)).(utc := utc)) else old(pos)
      ensures ok ==> utc == posUtc == if old(pos.At(Geos).utc) == Finite(0.0) then old(utc) else old(pos.At(Geos).utc)
      ensures !ok ==> utc == old(utc) && posUtc == old(posUtc)
      ensures att == old(att) && extra == old(extra)
    {
      if pos.At(Geos).utc == Finite(0.0) {
        if utc == NotFinite {
          return false;
        }
        posUtc := utc;
        pos := pos.With(Geos, pos.At(Geos).(utc := utc));
      } else {
        if pos.At(Geoc).utc == NotFinite {
          return false;
        }
        utc, posUtc := pos.At(Geos).utc, pos.At(Geos).utc;
        assert pos.With(Geos, pos.At(Geos).(utc := utc)) == pos;
      }
      ok := true;
    }

    /** The synchronisation of the times for a conversion from f to g. */
    method SynchronizeFor(f: Frame, g: Frame) returns (ok: bool)
      modifies this
      ensures att == old(att) && extra == old(extra) && Retimed(old(pos), pos)
      ensures !ok ==> pos == old(pos) && utc == old(utc)
      ensures ok ==> utc == old(TimeOf(pos.At(f).utc, utc)) && pos == old(pos).With(f, old(pos.At(f)).(utc := utc))
      ensures f == Geos && g == Geoc && old(Blocked(pos)) ==> !ok
      ensures old(TimeOf(pos.At(f).utc, utc)).Finite? && !(f == Geos && g == Geoc && old(Blocked(pos))) ==> ok
    {
      if f == Geos && g == Geoc {
        ok := SynchronizeGeos();
      } else {
        ok := Synchronize(f);
      }
    }

    /** Synchronise the times and renew the matrices for a conversion from f to g. Between the
        geocentric frames the matrices are not needed. */
    method Prepare(f: Frame, g: Frame, ghost goal: Goal) returns (ok: bool)
      requires Adjacent(f, g)
      modifies this
      ensures att == old(att) && extra.closest == old(extra.closest)
      ensures Retimed(old(pos), pos)
      ensures f == Geos && g == Geoc && old(Blocked(pos)) ==>
                !ok && pos == old(pos) && utc == old(utc) && extra == old(extra)
      ensures old(Fresh(world, goal, pos, utc, extra)) && old(pos.At(f).pass) == goal.pass
                && old(pos.At(g).pass) != goal.pass ==>
                ok && utc == Finite(goal.t) && Fresh(world, goal, pos, utc, extra)
    {
      if Fresh(world, goal, pos, utc, extra) && pos.At(f).pass == goal.pass && pos.At(g).pass != goal.pass {
        StillFresh(world, goal, pos, utc, extra, f, g);
      }
      hide Fresh, Retimed, Blocked;
      ok := SynchronizeFor(f, g);
      if ok && f != Geos && f != Geod && g != Geos && g != Geod {
        ok := PosExtra();
      }
    }

    /** The part all `pos_X2Y` have in common: after the synchronisation, give the destination the
        time, the pass and the converted components. */
    method Carry(f: Frame, g: Frame, ghost goal: Goal) returns (ok: bool)
      requires Adjacent(f, g)
      modifies this
      ensures att == old(att) && extra.closest == old(extra.closest)
      ensures Carried(world, old(pos), pos, ok, f, g, extra.frames, utc)
      ensures f == Geos && g == Geoc && old(Blocked(pos)) ==>
                !ok && pos == old(pos) && utc == old(utc) && extra == old(extra)
      ensures old(Fresh(world, goal, pos, utc, extra)) && old(pos.At(f).pass) == goal.pass
                && old(pos.At(g).pass) != goal.pass ==>
                ok && utc == Finite(goal.t) && Fresh(world, goal, pos, utc, extra)
    {
      ghost var was, going := pos, Fresh(world, goal, pos, utc, extra) && pos.At(f).pass == goal.pass
          && pos.At(g).pass != goal.pass;
      hide Fresh, Retimed, Carried, Adjacent;
      ok := Prepare(f, g, goal);
      CarriedIs(world, was, pos, f, g, extra.frames, utc);
      if !ok {
        return;
      }
      if going {
        ConvertedFresh(world, goal, pos, utc, extra, f, g);
      }
      pos := pos.With(g, Position(pos.At(f).pass, utc,
          world.convert(f, g, extra.frames, pos.At(f).val, pos.At(g).val)));
    }

    /** The same, as far as the passes go. */
    method CarryPass(f: Frame, g: Frame, ghost goal: Goal) returns (ok: bool)
      requires Adjacent(f, g)
      modifies this
      ensures att == old(att) && extra.closest == old(extra.closest)
      ensures ok ==> pos.At(g).pass == old(pos.At(f).pass)
      ensures forall h: Frame | !ok || h != g :: pos.At(h).pass == old(pos.At(h).pass)
      ensures old(Fresh(world, goal, pos, utc, extra)) && old(pos.At(f).pass) == goal.pass
                && old(pos.At(g).pass) != goal.pass ==>
                ok && utc == Finite(goal.t) && Fresh(world, goal, pos, utc, extra)
    {
      hide Fresh, Blocked;
      ok := Carry(f, g, goal);
    }

    /** The attitudes that follow into the geocentric frame. */
    method GeocAttitudes()
      modifies this`att, this`extra
      ensures extra == if utc.Finite? && old(extra.utc) != utc && world.tt(utc.t) > 0.0
                       then Extra(utc, world.frames(utc.t), old(extra.closest)) else old(extra)
      ensures utc.Finite? && (old(extra.utc) == utc || world.tt(utc.t) > -1.0) ==>
                LocalsFollow(old(att).With(AttGeoc, old(att).At(AttIcrf)), extra.closest, att)
    {
      AttIcrf2Geoc();
      Planec2Topo();
      Planec2Lvlh();
    }

    /** The attitudes that follow into the selenocentric frame. */
    method SelcAttitudes()
      modifies this`att, this`extra
      ensures extra == if utc.Finite? && old(extra.utc) != utc && world.tt(utc.t) > 0.0
                       then Extra(utc, world.frames(utc.t), old(extra.closest)) else old(extra)
      ensures utc.Finite? && (old(extra.utc) == utc || world.tt(utc.t) > -1.0) ==>
                LocalsFollow(old(att).With(AttSelc, old(att).At(AttIcrf)), extra.closest, att)
    {
      AttIcrf2Selc();
      Planec2Topo();
      Planec2Lvlh();
    }

    /** The geodetic and geographic frames follow the geocentric one. */
    method GeocLeaves(ghost goal: Goal)
      modifies this
      ensures att == old(att) && extra.closest == old(extra.closest)
      ensures forall h: Frame | h != Geod && h != Geos :: pos.At(h).pass == old(pos.At(h).pass)
      ensures forall h: Frame :: pos.At(h).pass == old(pos.At(h).pass) || pos.At(h).pass == old(pos.At(Geoc).pass)
      ensures old(Fresh(world, goal, pos, utc, extra)) && old(pos.At(Geoc).pass) == goal.pass
              && old(pos.At(Geod).pass) != goal.pass && old(pos.At(Geos).pass) != goal.pass ==>
                && utc == Finite(goal.t) && Fresh(world, goal, pos, utc, extra)
                && pos.At(Geod).pass == goal.pass && pos.At(Geos).pass == goal.pass
    {
      hide Fresh;
      var ok1 := CarryPass(Geoc, Geod, goal);
      var ok2 := CarryPass(Geoc, Geos, goal);
    }

    /** `pos_eci2geoc`: the other geocentric frames and the attitudes follow. */
    method EciToGeoc(ghost goal: Goal) returns (ok: bool)
      modifies this
      ensures extra.closest == old(extra.closest)
      ensures ConvertedPasses(old(pos), pos, ok, Eci, Geoc)
      ensures old(GoingFresh(world, goal, pos, att, utc, extra)) && old(pos.At(Eci).pass) == goal.pass
              && old(pos.At(Geoc).pass) != goal.pass ==>
                && ok && utc == Finite(goal.t) && GoingFresh(world, goal, pos, att, utc, extra)
                && SettlesBut(old(pos), pos, goal.pass, Geoc)
    {
      ghost var going := GoingFresh(world, goal, pos, att, utc, extra) && pos.At(Eci).pass == goal.pass
          && pos.At(Geoc).pass != goal.pass;
      if going {
        OthersBehind(world, goal, pos, Eci, Geoc, Geod);
        OthersBehind(world, goal, pos, Eci, Geoc, Geos);
      }
      ghost var was := pos;
      hide Fresh, SettlesBut, ConvertedPasses, LocalsFollow;
      ok := CarryPass(Eci, Geoc, goal);
      SamePassesKept(was, pos, Eci, Geoc);
      if !ok {
        return;
      }
      att := att.With(AttIcrf, att.At(AttIcrf).(pass := pos.At(Eci).pass));
      GeocLeaves(goal);
      GroupPasses(was, pos, Eci, Geoc, goal.pass);
      if going {
        FreshExtra(world, goal, pos, utc, extra);
      }
      ghost var led := att;
      GeocAttitudes();
      if going {
        EarthFollows(goal, pos, led, extra.closest, att);
      }
    }

    /** `pos_geoc2eci`: the attitudes follow. */
    method GeocToEci(ghost goal: Goal) returns (ok: bool)
      modifies this
      ensures extra.closest == old(extra.closest)
      ensures ConvertedPasses(old(pos), pos, ok, Geoc, Eci)
      ensures old(GoingFresh(world, goal, pos, att, utc, extra)) && old(pos.At(Geoc).pass) == goal.pass
              && old(pos.At(Eci).pass) != goal.pass ==>
                && ok && utc == Finite(goal.t) && GoingFresh(world, goal, pos, att, utc, extra)
                && SettlesBut(old(pos), pos, goal.pass, Eci)
    {
      hide Fresh, Spreading, Moving;
      ok := CarryPass(Geoc, Eci, goal);
      if !ok {
        return;
      }
      att := att.With(AttGeoc, att.At(AttGeoc).(pass := pos.At(Geoc).pass));
      Turned(AttGeoc, AttIcrf);
      Planec2Lvlh();
      Planec2Topo();
    }

    /** `pos_sci2selc`: the selenographic frame and the attitudes follow. */
    method SciToSelc(ghost goal: Goal) returns (ok: bool)
      modifies this
      ensures extra.closest == old(extra.closest)
      ensures ConvertedPasses(old(pos), pos, ok, Sci, Selc)
      ensures old(GoingFresh(world, goal, pos, att, utc, extra)) && old(pos.At(Sci).pass) == goal.pass
              && old(pos.At(Selc).pass) != goal.pass ==>
                && ok && utc == Finite(goal.t) && GoingFresh(world, goal, pos, att, utc, extra)
                && SettlesBut(old(pos), pos, goal.pass, Selc)
    {
      ghost var going := GoingFresh(world, goal, pos, att, utc, extra) && pos.At(Sci).pass == goal.pass
          && pos.At(Selc).pass != goal.pass;
      if going {
        OthersBehind(world, goal, pos, Sci, Selc, Selg);
      }
      ghost var was := pos;
      hide Fresh, SettlesBut, ConvertedPasses, LocalsFollow;
      ok := CarryPass(Sci, Selc, goal);
      SamePassesKept(was, pos, Sci, Selc);
      if !ok {
        return;
      }
      att := att.With(AttIcrf, att.At(AttIcrf).(pass := pos.At(Sci).pass));
      var ok1 := CarryPass(Selc, Selg, goal);
      GroupPasses(was, pos, Sci, Selc, goal.pass);
      if going {
        FreshExtra(world, goal, pos, utc, extra);
      }
      ghost var led := att;
      SelcAttitudes();
      if going {
        MoonFollows(goal, pos, led, extra.closest, att);
      }
    }

    /** `pos_selc2sci`: only the inertial attitude follows. */
    method SelcToSci(ghost goal: Goal) returns (ok: bool)
      modifies this
      ensures extra.closest == old(extra.closest)
      ensures ConvertedPasses(old(pos), pos, ok, Selc, Sci)
      ensures old(GoingFresh(world, goal, pos, att, utc, extra)) && old(pos.At(Selc).pass) == goal.pass
              && old(pos.At(Sci).pass) != goal.pass ==>
                && ok && utc == Finite(goal.t) && GoingFresh(world, goal, pos, att, utc, extra)
                && SettlesBut(old(pos), pos, goal.pass, Sci)
    {
      if GoingFresh(world, goal, pos, att, utc, extra) && pos.At(Selc).pass == goal.pass
          && pos.At(Sci).pass != goal.pass {
        EarthBehind(world, goal, pos);
      }
      hide Fresh, Spreading, Moving;
      ok := CarryPass(Selc, Sci, goal);
      if !ok {
        return;
      }
      att := att.With(AttSelc, att.At(AttSelc).(pass := pos.At(Selc).pass));
      Turned(AttSelc, AttIcrf);
    }

    /** One `pos_X2Y`. */
    method Convert(f: Frame, g: Frame, ghost goal: Goal) returns (ok: bool)
      requires Adjacent(f, g)
      modifies this
      ensures extra.closest == old(extra.closest)
      ensures ConvertedPasses(old(pos), pos, ok, f, g)
      ensures f == Geos && g == Geoc && old(Blocked(pos)) ==>
                !ok && pos == old(pos) && att == old(att) && utc == old(utc) && extra == old(extra)
      ensures old(GoingFresh(world, goal, pos, att, utc, extra)) && old(pos.At(f).pass) == goal.pass
              && old(pos.At(g).pass) != goal.pass ==>
                && ok && utc == Finite(goal.t) && GoingFresh(world, goal, pos, att, utc, extra)
                && SettlesBut(old(pos), pos, goal.pass, g)
    {
      hide GoingFresh, SettlesBut, ConvertedPasses, Blocked;
      if f == Eci && g == Geoc {
        ok := EciToGeoc(goal);
      } else if f == Geoc && g == Eci {
        ok := GeocToEci(goal);
      } else if f == Sci && g == Selc {
        ok := SciToSelc(goal);
      } else if f == Selc && g == Sci {
        ok := SelcToSci(goal);
      } else {
        ok := OtherConversion(f, g, goal);
      }
    }

    /** The `pos_X2Y` that carry nothing along. */
    method OtherConversion(f: Frame, g: Frame, ghost goal: Goal) returns (ok: bool)
      requires Adjacent(f, g) && (f, g) !in {(Eci, Geoc), (Geoc, Eci), (Sci, Selc), (Selc, Sci)}
      modifies this
      ensures extra.closest == old(extra.closest)
      ensures ConvertedPasses(old(pos), pos, ok, f, g)
      ensures f == Geos && g == Geoc && old(Blocked(pos)) ==>
                !ok && pos == old(pos) && att == old(att) && utc == old(utc) && extra == old(extra)
      ensures old(GoingFresh(world, goal, pos, att, utc, extra)) && old(pos.At(f).pass) == goal.pass
              && old(pos.At(g).pass) != goal.pass ==>
                && ok && utc == Finite(goal.t) && GoingFresh(world, goal, pos, att, utc, extra)
                && SettlesBut(old(pos), pos, goal.pass, g)
    {
      if GoingFresh(world, goal, pos, att, utc, extra) && pos.At(f).pass == goal.pass && pos.At(g).pass != goal.pass {
        PartnerBehind(world, goal, pos, f, g);
      }
      ghost var was := pos;
      hide Fresh, Carried, ConvertedPasses, SettlesBut, AttSpread;
      ok := Carry(f, g, goal);
      OtherKept(world, goal, was, pos, att, ok, f, g, extra.frames, utc);
    }

    /** Synchronise the times with frame f's and renew the matrices. */
    method Restart(f: Frame) returns (ok: bool)
      modifies this
      ensures att == old(att) && (ok <==> old(TimeFits(world, pos.At(f).utc, utc, extra))) && (ok ==> Timely())
      ensures var time := old(TimeOf(pos.At(f).utc, utc));
        && pos == (if time.Finite? then old(pos).With(f, old(pos.At(f)).(utc := time)) else old(pos))
        && utc == (if time.Finite? then time else old(utc))
        && extra == if ok && old(extra.utc) != time && world.tt(time.t) > 0.0
                    then Extra(time, world.frames(time.t), old(extra.closest)) else old(extra)
    {
      ok := Synchronize(f);
      if ok {
        ok := PosExtra();
      }
    }

    /** The start of every `pos_X`: synchronise the times and renew the matrices. */
    method Refresh(f: Frame, ghost goal: Goal) returns (ok: bool)
      modifies this
      ensures att == old(att) && extra.closest == old(extra.closest) && Retimed(old(pos), pos)
      ensures ok <==> old(TimeFits(world, pos.At(f).utc, utc, extra))
      ensures forall h: Frame | h != f :: pos.At(h) == old(pos.At(h))
      ensures ok ==> utc == pos.At(f).utc == old(TimeOf(pos.At(f).utc, utc)) && Timely()
      ensures !ok ==>
                extra == old(extra)
                && utc == old(if TimeOf(pos.At(f).utc, utc).Finite? then TimeOf(pos.At(f).utc, utc) else utc)
      ensures old(Going(world, goal, pos, att, utc, extra)) && old(pos.At(f).pass) == goal.pass
              && (f == goal.root || old(pos.At(goal.root).utc) == Finite(goal.t)) ==>
                ok && utc == Finite(goal.t) && pos.At(f).utc == utc && GoingFresh(world, goal, pos, att, utc, extra)
    {
      hide *;
      ghost var going := Going(world, goal, pos, att, utc, extra) && pos.At(f).pass == goal.pass
                         && (f == goal.root || pos.At(goal.root).utc == Finite(goal.t));
      if going {
        RefreshKeeps(world, goal, pos, att, utc, extra, f);
      }
      FitIsFinite(world, pos.At(f).utc, utc, extra);
      RetimedOne(pos, f, TimeOf(pos.At(f).utc, utc));
      ok := Restart(f);
    }

    /** One branch of a `pos_X`: if f is newer than its neighbour g, convert and go on from g. */
    method Branch(f: Frame, g: Frame, ghost goal: Goal)
      requires Adjacent(f, g)
      modifies this
      ensures Kept(old(pos), pos)
      ensures f == Geos && g == Geoc && old(Blocked(pos)) ==>
                Retimed(old(pos), pos) && att == old(att) && utc == old(utc) && extra == old(extra)
      ensures old(GoingFresh(world, goal, pos, att, utc, extra)) && old(pos.At(f).pass) == goal.pass ==>
                && GoingFresh(world, goal, pos, att, utc, extra)
                     && (old(utc) == Finite(goal.t) ==> utc == Finite(goal.t))
                && Settles(old(pos), pos, goal.pass) && pos.At(g).pass == goal.pass
      decreases Lag(pos), pos.At(f).pass, Internal(f), 0
    {
      ghost var was := pos;
      NeverNewer(world, goal, pos, att, utc, extra, g);
      KeptSelf(pos);
      hide Moving, AttSpread, Kept, Settles, SettlesBut, ConvertedPasses, Lag, Settled;
      if pos.At(f).pass > pos.At(g).pass {
        var ok := Convert(f, g, goal);
        ConvertedKept(was, pos, ok, f, g);
        ghost var mid := pos;
        ok := Pos(g, goal);
        KeptTrans(was, mid, pos);
        BranchSettles(was, mid, pos, goal.pass, g);
      } else {
        SettlesSelf(pos, goal.pass);
      }
    }

    /** Both branches of a frame with two neighbours. */
    method Branches(f: Frame, g: Frame, h: Frame, ghost goal: Goal)
      requires Adjacent(f, g) && Adjacent(f, h) && Internal(f)
      modifies this
      ensures Kept(old(pos), pos)
      ensures old(GoingFresh(world, goal, pos, att, utc, extra)) && old(pos.At(f).pass) == goal.pass ==>
                && GoingFresh(world, goal, pos, att, utc, extra)
                     && (old(utc) == Finite(goal.t) ==> utc == Finite(goal.t))
                && Settles(old(pos), pos, goal.pass) && pos.At(g).pass == goal.pass && pos.At(h).pass == goal.pass
      decreases Lag(pos), pos.At(f).pass, Internal(f), 1
    {
      ghost var was := pos;
      hide GoingFresh, Kept, Settles, Lag, Settled;
      Branch(f, g, goal);
      ghost var mid := pos;
      KeptLag(was, mid, f);
      if Settles(was, mid, goal.pass) {
        SettlesKeeps(was, mid, goal.pass, f);
      }
      Branch(f, h, goal);
      KeptTrans(was, mid, pos);
      if Settles(was, mid, goal.pass) && Settles(mid, pos, goal.pass) {
        SettlesTrans(was, mid, pos, goal.pass);
        SettlesKeeps(mid, pos, goal.pass, g);
      }
    }

    /** The eight `pos_X` after the times are synchronised: spread f over the frames that are
        older, in the order of the original. */
    method Spreads(f: Frame, ghost goal: Goal)
      modifies this
      ensures Kept(old(pos), pos)
      ensures f == Geos && old(Blocked(pos)) ==>
                Retimed(old(pos), pos) && att == old(att) && utc == old(utc) && extra == old(extra)
      ensures old(GoingFresh(world, goal, pos, att, utc, extra)) && old(pos.At(f).pass) == goal.pass
                && old(utc) == Finite(goal.t)
                && old(pos.At(f).utc) == old(utc) ==>
                && GoingFresh(world, goal, pos, att, utc, extra) && utc == Finite(goal.t)
                && Settles(old(pos), pos, goal.pass) && Settled(pos, goal.pass, f)
      decreases Lag(pos), pos.At(f).pass, Internal(f), 3
    {
      ghost var was, p := pos, goal.pass;
      AttGoes(world, goal);
      ExtraGoes(world, goal);
      hide GoingFresh, Kept, Settles, Lag, Settled;
      match f
      case Icrf =>
        extra := extra.(closest := world.closest(pos.At(Icrf).val, extra.frames));
        att := att.With(AttIcrf, Turn(pos.At(Icrf).pass, pos.At(Icrf).utc));
        Branches(Icrf, Eci, Sci, goal);
        AreNeighbours(pos, p);
      case Eci =>
        Branches(Eci, Icrf, Geoc, goal);
        AreNeighbours(pos, p);
        SettlesKeepsAll(was, pos, p);
        att := att.With(AttIcrf, att.At(AttIcrf).(pass := pos.At(Eci).pass));
      case Sci =>
        Branches(Sci, Icrf, Selc, goal);
        AreNeighbours(pos, p);
        SettlesKeepsAll(was, pos, p);
        att := att.With(AttIcrf, att.At(AttIcrf).(pass := pos.At(Sci).pass));
      case Geoc =>
        Geocentric(goal);
      case Selc =>
        Branches(Selc, Sci, Selg, goal);
        AreNeighbours(pos, p);
        SettlesKeepsAll(was, pos, p);
        att := att.With(AttSelc, att.At(AttSelc).(pass := pos.At(Selc).pass));
      case Selg =>
        Branch(Selg, Selc, goal);
        AreNeighbours(pos, p);
      case Geos =>
        Branch(Geos, Geoc, goal);
        AreNeighbours(pos, p);
      case Geod =>
        Branch(Geod, Geoc, goal);
        AreNeighbours(pos, p);
    }

    /** The three branches of `pos_geoc`. */
    method Geocentric(ghost goal: Goal)
      modifies this
      ensures Kept(old(pos), pos)
      ensures old(GoingFresh(world, goal, pos, att, utc, extra)) && old(pos.At(Geoc).pass) == goal.pass
                && old(utc) == Finite(goal.t) ==>
                && GoingFresh(world, goal, pos, att, utc, extra) && utc == Finite(goal.t)
                && Settles(old(pos), pos, goal.pass) && Settled(pos, goal.pass, Geoc)
      decreases Lag(pos), pos.At(Geoc).pass, true, 2
    {
      ghost var was, p := pos, goal.pass;
      AttGoes(world, goal);
      hide GoingFresh, Kept, Settles, Lag, Settled;
      Branches(Geoc, Eci, Geos, goal);
      ghost var mid := pos;
      SettlesKeepsAll(was, mid, p);
      KeptLag(was, mid, Geoc);
      Branch(Geoc, Geod, goal);
      KeptTrans(was, mid, pos);
      SettlesChain(was, mid, pos, p);
      SettlesKeepsAll(mid, pos, p);
      AreNeighbours(pos, p);
      att := att.With(AttGeoc, att.At(AttGeoc).(pass := pos.At(Geoc).pass));
    }

    /** The eight `pos_X`: make frame f's time the location's and spread the frame. The result
        says whether the time was fit. */
    method Pos(f: Frame, ghost goal: Goal) returns (ok: bool)
      modifies this
      ensures Kept(old(pos), pos)
      ensures ok <==> old(TimeFits(world, pos.At(f).utc, utc, extra))
      ensures !ok ==> && Retimed(old(pos), pos) && att == old(att) && extra == old(extra)
                      && utc == old(if TimeOf(pos.At(f).utc, utc).Finite? then TimeOf(pos.At(f).utc, utc) else utc)
      ensures f == Geos && old(pos.At(Geoc).utc) == NotFinite && old(TimeOf(pos.At(f).utc, utc)) != Finite(0.0) ==>
                Retimed(old(pos), pos) && att == old(att) && (ok ==> Timely())
      ensures old(Going(world, goal, pos, att, utc, extra)) && old(pos.At(f).pass) == goal.pass
              && (f == goal.root || old(pos.At(goal.root).utc) == Finite(goal.t)) ==>
                && GoingFresh(world, goal, pos, att, utc, extra) && utc == Finite(goal.t)
                && Settles(old(pos), pos, goal.pass) && Settled(pos, goal.pass, f)
      decreases Lag(pos), pos.At(f).pass, Internal(f), 4
    {
      ghost var was := pos;
      hide GoingFresh, Going, Kept, Settles, Lag, TimeFits, Retimed;
      ok := Refresh(f, goal);
      ghost var mid := pos;
      RetimedKept(was, mid, goal.pass);
      RetimedTwice(was, mid);
      if !ok {
        return;
      }
      Spreads(f, goal);
      KeptTrans(was, mid, pos);
      RetimedSettles(was, mid, pos, goal.pass);
    }

    /** A call of `pos_X` for the newest frame. Everything arrives exactly when the time is fit
        and, from the geographic frame, the geocentric one has a finite time. */
    method Synchronise(f: Frame) returns (ok: bool, ghost goal: Goal)
      modifies this
      ensures goal == old(GoalFor(world, f, pos, utc, extra)) && Kept(old(pos), pos)
      ensures ok <==> old(TimeFits(world, pos.At(f).utc, utc, extra))
      ensures old(StrictNewest(pos, f)) ==>
                (Arrived(world, goal, pos, att) <==> old(Startable(world, f, pos, utc, extra)))
      ensures !old(Startable(world, f, pos, utc, extra)) ==>
                && Retimed(old(pos), pos) && att == old(att)
                && (Timely() <==> ok || (old(pos.At(f).utc) == NotFinite && old(Timely())))
    {
      goal := GoalFor(world, f, pos, utc, extra);
      ghost var was, newest, startable := pos, StrictNewest(pos, f), Startable(world, f, pos, utc, extra);
      if newest && startable {
        Starts(world, f, pos, att, utc, extra);
      }
      hide Going, GoingFresh, Settles, Settled, Kept, Arrived;
      ok := Pos(f, goal);
      if newest && startable {
        Arrives(world, goal, was, pos, att, utc, extra);
      }
      if newest && !startable {
        NotArrived(world, goal, was, pos, att, f);
      }
    }

    // ----- Attitudes -----

    /** `pos_extra` succeeds. */
    predicate Timely()
      reads this`utc, this`extra
    {
      utc.Finite? && (extra.utc == utc || world.tt(utc.t) > -1.0)
    }

    /** The local attitudes' part of `att_geoc` and `att_selc`: both follow the closest body's
        frame if they are older than frame a. */
    method BodyLocals(a: Attitude, ghost p: nat)
      requires IsBody(a)
      modifies this`att, this`extra, this`pos
      ensures AttKept(old(att), att) && pos == old(pos) && extra.closest == old(extra.closest)
      ensures Timely() == old(Timely())
      ensures att.At(AttIcrf) == old(att).At(AttIcrf)
      ensures att.At(AttGeoc).pass == old(att).At(AttGeoc).pass && att.At(AttSelc).pass == old(att).At(AttSelc).pass
      ensures LocalsRun(a, p, extra.closest, old(att), att)
      decreases BodyLag(att), InertialLag(att), 1
    {
      ghost var was := att;
      hide BodyLag, InertialLag, Newest, LocalRun, AttKept;
      AttKeptSelf(was);
      if att.At(a).pass > att.At(AttTopo).pass {
        Planec2Topo();
        LocalsLag(was, att);
        ghost var copied := att;
        LocalAttitude(AttTopo, p);
        assert att == copied;
      }
      if att.At(a).pass > att.At(AttLvlh).pass {
        Planec2Lvlh();
        LocalsLag(was, att);
        ghost var copied := att;
        LocalAttitude(AttLvlh, p);
        assert att == copied;
      }
      LocalsLag(was, att);
    }

    /** `att_geoc` and `att_selc`. */
    method BodyAttitude(a: Attitude, ghost p: nat)
      requires IsBody(a)
      modifies this`att, this`extra, this`pos
      ensures AttKept(old(att), att) && pos == old(pos) && extra.closest == old(extra.closest)
      ensures Timely() == old(Timely())
      ensures !old(Timely()) ==> att.At(AttGeoc).pass == old(att).At(AttGeoc).pass
      ensures BodyRun(a, p, old(Timely()), extra.closest, old(att), att)
      ensures old(att).At(a).pass <= old(att).At(AttIcrf).pass ==>
                && att.At(AttIcrf) == old(att).At(AttIcrf)
                && att.At(AttGeoc).pass == old(att).At(AttGeoc).pass
                     && att.At(AttSelc).pass == old(att).At(AttSelc).pass
      decreases BodyLag(att), InertialLag(att), 2
    {
      ghost var was := att;
      hide BodyLag, InertialLag, Newest, AttKept, Timely;
      BodyLocals(a, p);
      if att.At(a).pass > att.At(AttIcrf).pass {
        ghost var mid := att;
        Turned(a, AttIcrf);
        ghost var raised := att;
        RaisedLag(was, mid, raised, a);
        InertialAttitude(p);
        AttKeptTrans(was, raised, att);
      }
    }

    /** `att_icrf`. */
    method InertialAttitude(ghost p: nat)
      modifies this`att, this`extra, this`pos
      ensures AttKept(old(att), att) && pos == old(pos) && extra.closest == old(extra.closest)
      ensures Timely() == old(Timely())
      ensures !old(Timely()) ==> att.At(AttGeoc).pass == old(att).At(AttGeoc).pass
      ensures InertialRun(p, old(Timely()), old(att), att)
      decreases BodyLag(att), InertialLag(att), 3
    {
      ghost var was := att;
      hide BodyLag, InertialLag, Newest, AttKept;
      AttKeptSelf(was);
      if att.At(AttIcrf).pass > att.At(AttGeoc).pass {
        AttIcrf2Geoc();
        ghost var raised := att;
        CopiedLag(was, raised, AttGeoc);
        BodyAttitude(AttGeoc, p);
        AttKeptTrans(was, raised, att);
      }
      ghost var mid := att;
      BelowKept(was, mid, p);
      if att.At(AttIcrf).pass > att.At(AttSelc).pass {
        AttIcrf2Selc();
        ghost var raised := att;
        CopiedLag(mid, raised, AttSelc);
        KeptLags(was, mid);
        BodyAttitude(AttSelc, p);
        AttKeptTrans(mid, raised, att);
        AttKeptTrans(was, mid, att);
      }
    }

    /** `att_topo` and `att_lvlh`. */
    method LocalAttitude(a: Attitude, ghost p: nat)
      requires a == AttTopo || a == AttLvlh
      modifies this`att, this`extra, this`pos
      ensures AttKept(old(att), att) && extra.closest == old(extra.closest) && Timely() == old(Timely())
      ensures !old(Timely()) || old(att).At(a).pass <= old(att).At(Planec(extra.closest)).pass ==>
                att == old(att) && pos == old(pos)
      ensures old(Timely()) ==> LocalRun(a, p, extra.closest, old(att), att)
      decreases BodyLag(att), InertialLag(att), 0
    {
      ghost var was := att;
      hide BodyLag, InertialLag, Newest, AttKept;
      AttKeptSelf(was);
      var ok := PosExtra();
      var c := Planec(extra.closest);
      if ok && att.At(a).pass > att.At(c).pass {
        if a == AttTopo {
          Topo2Planec();
        } else {
          Lvlh2Planec();
        }
        ghost var raised := att;
        LocalLag(was, raised, a, extra.closest);
        BodyAttitude(c, p);
        AttKeptTrans(was, raised, att);
      }
    }

    /** A call of `att_X`. From the newest attitude, all attitudes get its pass exactly when the
        time is fit, from the geocentric one always, from the topocentric one never: the other
        body's attitude is left behind. */
    method SynchroniseAttitude(a: Attitude, ghost p: nat)
      requires p == att.At(a).pass
      modifies this`att, this`extra, this`pos
      ensures extra.closest == old(extra.closest)
      ensures a != AttLvlh && a != AttTopo ==> pos == old(pos)
      ensures old(NewestAttitude(att, a)) ==> (AllAt(att, p) <==> a == AttGeoc || (a != AttTopo && old(Timely())))
      ensures old(NewestAttitude(att, a)) && a == AttTopo ==>
                if old(Timely()) then AllButFar(att, p, extra.closest)
                    && att.At(Far(extra.closest)).pass == old(att).At(Far(extra.closest)).pass
                else att == old(att)
      ensures old(AllAt(att, p)) ==> AllAt(att, p) && pos == old(pos)
    {
      if old(NewestAttitude(att, a)) {
        NewestBounds(att, a);
      }
      hide AttKept, Timely;
      match a
      case AttIcrf => InertialAttitude(p);
      case AttGeoc => BodyAttitude(a, p);
      case AttSelc => BodyAttitude(a, p);
      case AttLvlh => LocalAttitude(a, p);
      case AttTopo => LocalAttitude(a, p);
    }

    /** `loc_update`: spread the newest position, then the attitude that was the newest before. A
        newest position that can start takes all attitudes along, so another pass of the newest
        attitude survives exactly when that position cannot start, and the time is fit all the
        same (or the attitude is the geocentric one); the topocentric one never reaches all. */
    method LocUpdate(ghost f: Frame, ghost a: Attitude)
      modifies this
      ensures old(StrictNewest(pos, f) && pos.At(f).pass > 0 && Startable(world, f, pos, utc, extra)) ==>
                Arrived(world, old(GoalFor(world, f, pos, utc, extra)), pos, att)
      ensures old(StrictNewest(pos, f) && pos.At(f).pass > 0 && NewestAttitude(att, a)) ==>
                (AllAt(att, old(att.At(a).pass)) <==>
                 if old(Startable(world, f, pos, utc, extra)) then old(att.At(a).pass) == old(pos.At(f).pass)
                 else a == AttGeoc || (a != AttTopo && old(StillTimely(f))))
      ensures old((forall g: Frame :: pos.At(g).pass == 0) && NewestAttitude(att, a)) ==>
                (AllAt(att, old(att.At(a).pass)) <==> a == AttGeoc || (a != AttTopo && old(Timely())))
    {
      ghost var was, newest := pos, StrictNewest(pos, f) && pos.At(f).pass > 0;
      ghost var started := Startable(world, f, pos, utc, extra);
      ghost var goal, p := GoalFor(world, f, pos, utc, extra), att.At(a).pass;
      assert goal.pass == pos.At(f).pass;
      var b, apass := NewestOfAttitudes(a);
      var g, ppass := NewestOfPositions(f);
      hide Startable, Arrived, GoalFor, Timely, Kept, Retimed, AllAt, NewestAttitude;
      if ppass > 0 {
        var ok;
        ghost var to;
        ok, to := Synchronise(g);
        if newest && started {
          ArrivedAll(world, goal, pos, att);
        }
      }
      if apass > 0 {
        SynchroniseAttitude(b, att.At(b).pass);
      }
      if newest && started {
        ArrivedStill(world, goal, pos, att);
        OnePass(att, goal.pass, p);
      }
    }

    /** Whether the time will be fit after a call of `pos_X` for frame f that cannot start. */
    predicate StillTimely(f: Frame)
      reads this
    {
      TimeFits(world, pos.At(f).utc, utc, extra) || (pos.At(f).utc == NotFinite && Timely())
    }

    /** The order in which `loc_update` looks at the positions: the first of the newest wins. */
    method NewestOfPositions(ghost f: Frame) returns (g: Frame, ppass: nat)
      ensures forall h: Frame :: pos.At(h).pass <= ppass
      ensures ppass > 0 ==> pos.At(g).pass == ppass
      ensures StrictNewest(pos, f) && pos.At(f).pass > 0 ==> g == f && ppass == pos.At(f).pass
    {
      var order := [Icrf, Eci, Sci, Geoc, Selc, Geod, Geos, Selg];
      g, ppass := Icrf, 0;
      for i := 0 to |order|
        invariant forall j | 0 <= j < i :: pos.At(order[j]).pass <= ppass
        invariant ppass > 0 ==> pos.At(g).pass == ppass
      {
        if pos.At(order[i]).pass > ppass {
          g, ppass := order[i], pos.At(order[i]).pass;
        }
      }
      forall h: Frame
        ensures pos.At(h).pass <= ppass
      {
        assert order[0] == Icrf && order[1] == Eci && order[2] == Sci && order[3] == Geoc;
        assert order[4] == Selc && order[5] == Geod && order[6] == Geos && order[7] == Selg;
        match h case Icrf => case Eci => case Sci => case Geoc => case Selc => case Selg => case Geos => case Geod =>
      }
    }

    method NewestOfAttitudes(ghost a: Attitude) returns (b: Attitude, apass: nat)
      ensures forall c: Attitude :: att.At(c).pass <= apass
      ensures apass > 0 ==> att.At(b).pass == apass
      ensures NewestAttitude(att, a) ==> b == a && apass == att.At(a).pass > 0
    {
      var order := [AttIcrf, AttGeoc, AttSelc, AttLvlh, AttTopo];
      b, apass := AttIcrf, 0;
      for i := 0 to |order|
        invariant forall j | 0 <= j < i :: att.At(order[j]).pass <= apass
        invariant apass > 0 ==> att.At(b).pass == apass
      {
        if att.At(order[i]).pass > apass {
          b, apass := order[i], att.At(order[i]).pass;
        }
      }
      forall c: Attitude
        ensures att.At(c).pass <= apass
      {
        assert order[0] == AttIcrf && order[1] == AttGeoc && order[2] == AttSelc && order[3] == AttLvlh
                 && order[4] == AttTopo;
        match c case AttIcrf => case AttGeoc => case AttSelc => case AttLvlh => case AttTopo =>
      }
      if NewestAttitude(att, a) {
        var other := if a == AttIcrf then AttGeoc else AttIcrf;
        assert att.At(other).pass < att.At(a).pass;
      }
    }

    /** The position frame of the closest body. */
    function ClosestFrame(): Frame
      reads this`extra
    {
      if extra.closest == Moon then Selc else Geoc
    }

    /** `att_lvlh2planec`: it also raises the pass of the body's position frame. */
    method Lvlh2Planec()
      modifies this`att, this`pos
      ensures pos == old(pos).With(ClosestFrame(), old(pos).At(ClosestFrame()).(pass := old(att).At(AttLvlh).pass))
      ensures att.At(AttLvlh).pass == att.At(AttTopo).pass == att.At(Planec(extra.closest)).pass
                == old(att).At(AttLvlh).pass
      ensures att.At(AttIcrf) == old(att).At(AttIcrf) && att.At(Far(extra.closest)) == old(att).At(Far(extra.closest))
    {
      Turned(AttLvlh, Planec(extra.closest));
      pos := pos.With(ClosestFrame(), pos.At(ClosestFrame()).(pass := att.At(AttLvlh).pass));
      Planec2Topo();
    }

    /** `att_topo2planec`: it also raises the pass of the body's position frame, and the inertial
        attitude's. */
    method Topo2Planec()
      modifies this`att, this`pos
      ensures pos == old(pos).With(ClosestFrame(), old(pos).At(ClosestFrame()).(pass := old(att).At(AttTopo).pass))
      ensures att.At(AttTopo).pass == att.At(AttLvlh).pass == att.At(Planec(extra.closest)).pass
                == old(att).At(AttTopo).pass
      ensures att.At(AttIcrf).pass == old(att).At(AttTopo).pass
      ensures att.At(Far(extra.closest)) == old(att).At(Far(extra.closest))
    {
      Turned(AttTopo, Planec(extra.closest));
      pos := pos.With(ClosestFrame(), pos.At(ClosestFrame()).(pass := att.At(AttTopo).pass));
      Turned(Planec(extra.closest), AttIcrf);
      Planec2Lvlh();
    }
  }

  /** A location whose newest position starts, and whose inertial attitude is newer still: the
      attitude is overwritten. */
  method NewerAttitudeLost(world: World) returns (loc: Location)
    requires world.tt(1.0) > 0.0
    ensures fresh(loc) && AllAt(loc.att, 1)
  {
    loc := new Location(world);
    loc.pos := loc.pos.With(Eci, Position(1, Finite(1.0), []));
    loc.att := loc.att.With(AttIcrf, Turn(2, Finite(1.0)));
    ghost var goal := GoalFor(world, Eci, loc.pos, loc.utc, loc.extra);
    forall g: Frame | g != Eci
      ensures loc.pos.At(g).pass < loc.pos.At(Eci).pass
    {
      assert loc.pos.At(g).pass == 0;
    }
    loc.LocUpdate(Eci, AttIcrf);
    ArrivedAll(world, goal, loc.pos, loc.att);
  }
}
