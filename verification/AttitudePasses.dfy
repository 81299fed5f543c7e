/** The five attitude frames of libraries/support/convertlib.cpp and what a call of `att_*` does
    to their passes. */
module AttitudePasses {
  import opened Numbers
  import opened FrameTree

  datatype Attitude = AttIcrf | AttGeoc | AttSelc | AttLvlh | AttTopo

  datatype Turn = Turn(pass: nat, utc: Time)

  datatype Attitudes = Attitudes(icrf: Turn, geoc: Turn, selc: Turn, lvlh: Turn, topo: Turn) {
    function At(a: Attitude): Turn {
      match a
      case AttIcrf => icrf
      case AttGeoc => geoc
      case AttSelc => selc
      case AttLvlh => lvlh
      case AttTopo => topo
    }

    function With(a: Attitude, t: Turn): (r: Attitudes)
      ensures r.At(a) == t && forall b: Attitude | b != a :: r.At(b) == At(b)
    {
      match a
      case AttIcrf => this.(icrf := t)
      case AttGeoc => this.(geoc := t)
      case AttSelc => this.(selc := t)
      case AttLvlh => this.(lvlh := t)
      case AttTopo => this.(topo := t)
    }
  }

  /** The planetocentric attitude of the closest body. */
  function Planec(closest: Body): Attitude {
    if closest == Moon then AttSelc else AttGeoc
  }

  /** The same passes, whatever the times. */
  predicate SamePasses(a: Attitudes, b: Attitudes) {
    forall x: Attitude :: a.At(x).pass == b.At(x).pass
  }

  /** The passes of `was`, but the two local attitudes have the closest body's. */
  predicate LocalsFollow(was: Attitudes, closest: Body, now: Attitudes) {
    && now.At(AttIcrf).pass == was.At(AttIcrf).pass && now.At(AttGeoc).pass == was.At(AttGeoc).pass
         && now.At(AttSelc).pass == was.At(AttSelc).pass
    && now.At(AttLvlh).pass == now.At(AttTopo).pass == was.At(Planec(closest)).pass
  }

  // ----- Termination -----

  function Newest(att: Attitudes): (top: nat)
    ensures forall a: Attitude :: att.At(a).pass <= top
    ensures exists a: Attitude :: att.At(a).pass == top
  {
    var b := Max(Max(att.At(AttIcrf).pass, att.At(AttGeoc).pass), Max(att.At(AttSelc).pass, att.At(AttLvlh).pass));
    NewestIs(att, Max(b, att.At(AttTopo).pass));
    Max(b, att.At(AttTopo).pass)
  }

  lemma NewestIs(att: Attitudes, top: nat)
    requires top == Max(Max(Max(att.At(AttIcrf).pass, att.At(AttGeoc).pass),
                            Max(att.At(AttSelc).pass, att.At(AttLvlh).pass)), att.At(AttTopo).pass)
    ensures forall a: Attitude :: att.At(a).pass <= top
    ensures exists a: Attitude :: att.At(a).pass == top
  {
    forall a: Attitude
      ensures att.At(a).pass <= top
    {
      match a case AttIcrf => case AttGeoc => case AttSelc => case AttLvlh => case AttTopo =>
    }
    assert att.At(AttIcrf).pass == top || att.At(AttGeoc).pass == top || att.At(AttSelc).pass == top
        || att.At(AttLvlh).pass == top || att.At(AttTopo).pass == top;
  }

  /** How far the bodies' attitudes lag behind the newest pass. */
  function BodyLag(att: Attitudes): nat {
    (Newest(att) - att.At(AttGeoc).pass) + (Newest(att) - att.At(AttSelc).pass)
  }

  function InertialLag(att: Attitudes): nat {
    Newest(att) - att.At(AttIcrf).pass
  }

  /** The bodies' attitudes never fall back and no pass is invented. */
  ghost predicate AttKept(before: Attitudes, after: Attitudes) {
    && before.At(AttGeoc).pass <= after.At(AttGeoc).pass && before.At(AttSelc).pass <= after.At(AttSelc).pass
    && forall a: Attitude :: after.At(a).pass <= Newest(before)
  }

  lemma AttLags(before: Attitudes, after: Attitudes)
    requires AttKept(before, after)
    ensures BodyLag(after) <= BodyLag(before)
    ensures before.At(AttGeoc).pass < after.At(AttGeoc).pass || before.At(AttSelc).pass < after.At(AttSelc).pass ==>
              BodyLag(after) < BodyLag(before)
    ensures Newest(after) <= Newest(before)
    ensures before.At(AttIcrf).pass <= after.At(AttIcrf).pass ==> InertialLag(after) <= InertialLag(before)
    ensures before.At(AttIcrf).pass < after.At(AttIcrf).pass ==> InertialLag(after) < InertialLag(before)
  {
    var a: Attitude :| after.At(a).pass == Newest(after);
    hide Newest;
  }

  lemma AttKeptTrans(a: Attitudes, b: Attitudes, c: Attitudes)
    requires AttKept(a, b) && AttKept(b, c)
    ensures AttKept(a, c)
  {
    AttLags(a, b);
    hide Newest;
  }

  lemma AttKeptSelf(att: Attitudes)
    ensures AttKept(att, att)
  {
    hide Newest;
  }

  lemma KeptLags(before: Attitudes, after: Attitudes)
    requires AttKept(before, after)
    ensures BodyLag(after) <= BodyLag(before)
  {
    AttLags(before, after);
  }

  /** Each local attitude has its pass of before or a body's. */
  predicate LocalsCopy(before: Attitudes, after: Attitudes) {
    && after.At(AttLvlh).pass in {before.At(AttLvlh).pass, after.At(AttGeoc).pass, after.At(AttSelc).pass}
    && after.At(AttTopo).pass in {before.At(AttTopo).pass, after.At(AttGeoc).pass, after.At(AttSelc).pass}
  }

  lemma PassesKept(before: Attitudes, after: Attitudes)
    requires LocalsCopy(before, after)
    requires before.At(AttGeoc).pass <= after.At(AttGeoc).pass <= Newest(before)
    requires before.At(AttSelc).pass <= after.At(AttSelc).pass <= Newest(before)
    requires after.At(AttIcrf).pass <= Newest(before)
    ensures AttKept(before, after)
  {
    hide Newest;
    forall a: Attitude
      ensures after.At(a).pass <= Newest(before)
    {
      match a case AttIcrf => case AttGeoc => case AttSelc => case AttLvlh => case AttTopo =>
    }
  }

  lemma LocalsLag(before: Attitudes, after: Attitudes)
    requires LocalsCopy(before, after) && after.At(AttIcrf).pass == before.At(AttIcrf).pass
    requires after.At(AttGeoc).pass == before.At(AttGeoc).pass && after.At(AttSelc).pass == before.At(AttSelc).pass
    ensures AttKept(before, after) && BodyLag(after) <= BodyLag(before) && InertialLag(after) <= InertialLag(before)
  {
    PassesKept(before, after);
    AttLags(before, after);
    hide Newest, BodyLag, InertialLag;
  }

  /** The inertial attitude has been raised to a body's pass. */
  lemma RaisedLag(before: Attitudes, mid: Attitudes, after: Attitudes, a: Attitude)
    requires AttKept(before, mid) && mid.At(AttIcrf).pass == before.At(AttIcrf).pass < mid.At(a).pass
    requires SamePasses(after, mid.With(AttIcrf, mid.At(a)))
    ensures AttKept(before, after) && BodyLag(after) <= BodyLag(before) && InertialLag(after) < InertialLag(before)
  {
    hide Newest, BodyLag, InertialLag;
    assert mid.At(a).pass <= Newest(before);
    AttLags(before, after);
  }

  /** Frame b has copied the inertial pass. */
  predicate Copied(before: Attitudes, after: Attitudes, b: Attitude) {
    && IsBody(b) && after.At(AttIcrf).pass == after.At(b).pass == before.At(AttIcrf).pass
    && (b == AttGeoc ==> after.At(AttSelc).pass == before.At(AttSelc).pass)
    && (b == AttSelc ==> after.At(AttGeoc).pass == before.At(AttGeoc).pass)
    && LocalsCopy(before, after)
  }

  lemma CopiedLag(before: Attitudes, after: Attitudes, b: Attitude)
    requires after == before || (Copied(before, after, b) && before.At(b).pass < before.At(AttIcrf).pass)
    ensures AttKept(before, after)
    ensures after != before ==> BodyLag(after) < BodyLag(before)
  {
    if after == before {
      AttKeptSelf(before);
    } else {
      hide Newest, BodyLag, InertialLag;
      PassesKept(before, after);
      AttLags(before, after);
    }
  }

  /** The closest body's frame has been raised to a local attitude's pass. */
  lemma LocalLag(before: Attitudes, after: Attitudes, a: Attitude, closest: Body)
    requires before.At(Planec(closest)).pass < before.At(a).pass == after.At(Planec(closest)).pass
    requires after.At(Far(closest)).pass == before.At(Far(closest)).pass && LocalsCopy(before, after)
    requires after.At(AttIcrf).pass == before.At(AttIcrf).pass || after.At(AttIcrf).pass == before.At(a).pass
    ensures AttKept(before, after) && BodyLag(after) < BodyLag(before)
  {
    hide Newest, BodyLag, InertialLag;
    PassesKept(before, after);
    AttLags(before, after);
  }

  // ----- A run from the newest attitude -----

  predicate Below(att: Attitudes, p: nat) {
    && att.At(AttIcrf).pass <= p && att.At(AttGeoc).pass <= p && att.At(AttSelc).pass <= p
    && att.At(AttLvlh).pass <= p && att.At(AttTopo).pass <= p
  }

  lemma BelowKept(before: Attitudes, after: Attitudes, p: nat)
    requires AttKept(before, after)
    ensures Below(before, p) ==> Below(after, p)
  {
    var a: Attitude :| before.At(a).pass == Newest(before);
    hide Newest;
  }

  predicate AllAt(att: Attitudes, p: nat) {
    && att.At(AttIcrf).pass == p && att.At(AttGeoc).pass == p && att.At(AttSelc).pass == p
    && att.At(AttLvlh).pass == p && att.At(AttTopo).pass == p
  }

  /** The other body's attitude. */
  function Far(closest: Body): Attitude {
    if closest == Moon then AttGeoc else AttSelc
  }

  predicate IsBody(a: Attitude) { a == AttGeoc || a == AttSelc }

  /** The local attitudes in such a run. */
  predicate LocalsRun(a: Attitude, p: nat, closest: Body, before: Attitudes, after: Attitudes) {
    Below(before, p) && before.At(a).pass == p ==>
      Below(after, p) && (before.At(Planec(closest)).pass == p ==>
          after.At(AttLvlh).pass == after.At(AttTopo).pass == p)
  }

  /** What `att_geoc` or `att_selc` makes of a run whose newest pass their frame has. `timely`
      says whether `pos_extra` succeeds. */
  predicate BodyRun(a: Attitude, p: nat, timely: bool, closest: Body, before: Attitudes, after: Attitudes) {
    Below(before, p) && before.At(a).pass == p ==>
      && Below(after, p)
      && (before.At(AttIcrf).pass == p ==>
            && after.At(AttIcrf) == before.At(AttIcrf)
            && after.At(AttGeoc).pass == before.At(AttGeoc).pass && after.At(AttSelc).pass == before.At(AttSelc).pass
            && (before.At(Planec(closest)).pass == p ==> after.At(AttLvlh).pass == after.At(AttTopo).pass == p))
      && (before.At(AttIcrf).pass < p && (a == AttGeoc || timely) ==> AllAt(after, p))
  }

  /** What `att_icrf` makes of a run whose newest pass the inertial frame has. */
  predicate InertialRun(p: nat, timely: bool, before: Attitudes, after: Attitudes) {
    Below(before, p) && before.At(AttIcrf).pass == p ==>
      && Below(after, p) && after.At(AttIcrf).pass == p
      && (before.At(AttGeoc).pass == p && before.At(AttSelc).pass == p ==> after == before)
      && (before.At(AttGeoc).pass < p && timely ==> AllAt(after, p))
      && (before.At(AttGeoc).pass == p && before.At(AttSelc).pass < p ==> AllAt(after, p))
  }

  ghost predicate NewestAttitude(att: Attitudes, a: Attitude) {
    forall b: Attitude | b != a :: att.At(b).pass < att.At(a).pass
  }

  lemma NewestBounds(att: Attitudes, a: Attitude)
    requires NewestAttitude(att, a)
    ensures Below(att, att.At(a).pass)
    ensures a != AttIcrf ==> att.At(AttIcrf).pass < att.At(a).pass
    ensures a != AttGeoc ==> att.At(AttGeoc).pass < att.At(a).pass
    ensures a != AttSelc ==> att.At(AttSelc).pass < att.At(a).pass
    ensures a != AttTopo ==> att.At(AttTopo).pass < att.At(a).pass
  {
  }

  predicate AllButFar(att: Attitudes, p: nat, closest: Body) {
    && att.At(AttIcrf).pass == att.At(Planec(closest)).pass == p
    && att.At(AttLvlh).pass == att.At(AttTopo).pass == p
  }

  /** What `att_lvlh` and `att_topo` make of a run whose newest pass their frame has. */
  predicate LocalRun(a: Attitude, p: nat, closest: Body, before: Attitudes, after: Attitudes) {
    Below(before, p) && before.At(a).pass == p && before.At(Planec(closest)).pass < p && before.At(AttIcrf).pass < p ==>
      && (a == AttLvlh ==> AllAt(after, p))
      && (a == AttTopo ==> AllButFar(after, p, closest) && after.At(Far(closest)).pass == before.At(Far(closest)).pass)
  }
}
