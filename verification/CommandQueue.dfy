/** The command queue of libraries/support/command_queue.cpp and the events of
    libraries/support/event.h. */
module CommandQueue {
  const EVENT_FLAG_ACTUAL: bv32 := 0x8000

  const EVENT_FLAG_CONDITIONAL: bv32 := 0x10000

  const EVENT_FLAG_REPEAT: bv32 := 0x20000

  datatype Event = Event(mjd: real, utcexec: real, name: string, kind: bv32, flag: bv32, data: string,
      condition: string, alreadyRan: bool)
  {
    predicate IsRepeat() { flag & EVENT_FLAG_REPEAT != 0 }

    predicate IsConditional() { flag & EVENT_FLAG_CONDITIONAL != 0 }

    /** Equality as the original has it: whether the event has run does not count. */
    predicate Equals(e: Event) { this.(alreadyRan := e.alreadyRan) == e }

    /** The event with its execution time and flag set. */
    function Executed(now: real): Event {
      this.(utcexec := now, flag := flag | EVENT_FLAG_ACTUAL)
    }
  }

  /** A node of the list: its identity and the event it holds. */
  datatype Node = Node(id: nat, event: Event)

  /** What a pass meets at a node: the clock, and whether the event's condition holds. */
  datatype Look = Look(now: real, condition: bool)

  type Looks = nat -> Look

  predicate Ready(e: Event, look: Look) { e.mjd <= look.now }

  /** Repeating conditional events wait for an edge of their condition; all others run once. */
  predicate EdgeTriggered(e: Event) { e.IsConditional() && e.IsRepeat() }

  /** The event is ready, and its condition, if it has one, holds. */
  predicate Due(e: Event, look: Look) {
    Ready(e, look) && (e.IsConditional() ==> look.condition)
  }

  predicate Runs(e: Event, look: Look) {
    Due(e, look) && (EdgeTriggered(e) ==> !e.alreadyRan)
  }

  /** A look that arms an edge-triggered event again. */
  predicate Rearms(e: Event, look: Look) {
    Ready(e, look) && e.IsConditional() && !look.condition
  }

  /** What is left of a node after a pass: nothing of an event that ran and is not
      edge-triggered. */
  function Left(n: Node, look: Look): (left: seq<Node>) {
    if Runs(n.event, look) then
      if EdgeTriggered(n.event) then [n.(event := n.event.Executed(look.now).(alreadyRan := true))] else []
    else if Rearms(n.event, look) then [n.(event := n.event.(alreadyRan := false))]
    else [n]
  }

  function Passed(nodes: seq<Node>, looks: Looks): (left: seq<Node>) {
    if nodes == [] then []
    else
      var last := nodes[|nodes| - 1];
      Passed(nodes[..|nodes| - 1], looks) + Left(last, looks(last.id))
  }

  /** The events a pass executes, in order. */
  function RunBy(nodes: seq<Node>, looks: Looks): (ran: seq<Node>) {
    if nodes == [] then []
    else
      var last := nodes[|nodes| - 1];
      RunBy(nodes[..|nodes| - 1], looks) + RunAt(last, looks(last.id))
  }

  lemma ExecutedKeepsKind(e: Event, now: real)
    ensures e.Executed(now).IsRepeat() == e.IsRepeat() && e.Executed(now).IsConditional() == e.IsConditional()
  {
    FlagsKept(e.flag);
  }

  lemma FlagsKept(flag: bv32)
    ensures (flag | EVENT_FLAG_ACTUAL) & EVENT_FLAG_REPEAT == flag & EVENT_FLAG_REPEAT
    ensures (flag | EVENT_FLAG_ACTUAL) & EVENT_FLAG_CONDITIONAL == flag & EVENT_FLAG_CONDITIONAL
  {
  }

  /** The node, unless its event equals e. */
  function Unequal(n: Node, e: Event): seq<Node> {
    if e.Equals(n.event) then [] else [n]
  }

  function RunAt(n: Node, look: Look): (ran: seq<Node>) {
    if Runs(n.event, look) then [n.(event := n.event.Executed(look.now))] else []
  }

  function Without(nodes: seq<Node>, e: Event): (left: seq<Node>) {
    if nodes == [] then []
    else
      var last := nodes[|nodes| - 1];
      Without(nodes[..|nodes| - 1], e) + Unequal(last, e)
  }

  /** Replacing the first of the rest. */
  lemma Spliced(done: seq<Node>, rest: seq<Node>, left: seq<Node>)
    requires rest != []
    ensures (done + rest)[|done|] == rest[0]
    ensures (done + rest)[..|done|] + left + (done + rest)[|done| + 1..] == done + left + rest[1..]
  {
  }

  lemma PassedNone(looks: Looks)
    ensures Passed([], looks) == [] && RunBy([], looks) == []
  {
  }

  lemma WithoutNone(e: Event)
    ensures Without([], e) == []
  {
  }

  lemma WithoutOne(nodes: seq<Node>, p: nat, e: Event)
    requires p < |nodes|
    ensures Without(nodes[..p + 1], e) == Without(nodes[..p], e) + Unequal(nodes[p], e)
  {
    assert nodes[..p + 1][..p] == nodes[..p];
  }

  lemma PassedOne(nodes: seq<Node>, p: nat, looks: Looks)
    requires p < |nodes|
    ensures Passed(nodes[..p + 1], looks) == Passed(nodes[..p], looks) + Left(nodes[p], looks(nodes[p].id))
    ensures RunBy(nodes[..p + 1], looks) == RunBy(nodes[..p], looks) + RunAt(nodes[p], looks(nodes[p].id))
    ensures |Left(nodes[p], looks(nodes[p].id))| <= 1
  {
    assert nodes[..p + 1][..p] == nodes[..p];
  }

  /** The nodes differ, and none of them is one that is still to come. */
  ghost predicate Distinct(nodes: seq<Node>, nextId: nat) {
    && (forall i | 0 <= i < |nodes| :: nodes[i].id < nextId)
    && forall i, j | 0 <= i < j < |nodes| :: nodes[i].id != nodes[j].id
  }

  // ----- One pass -----

  /** Survivors keep their order and their nodes: each comes from a node of before, and two of
      them from two nodes in the same order. */
  predicate SurvivesBy(before: seq<Node>, after: seq<Node>, from: seq<nat>) {
    && |from| == |after|
    && (forall k | 0 <= k < |from| :: from[k] < |before| && after[k].id == before[from[k]].id)
    && forall k, l | 0 <= k < l < |from| :: from[k] < from[l]
  }

  lemma SurvivesMore(before: seq<Node>, last: Node, after: seq<Node>, left: seq<Node>, from: seq<nat>)
    requires SurvivesBy(before, after, from) && |left| <= 1 && (left != [] ==> left[0].id == last.id)
    ensures SurvivesBy(before + [last], after + left, from + if left == [] then [] else [|before|])
  {
  }

  lemma NoneSurvive(looks: Looks)
    ensures SurvivesBy([], Passed([], looks), [])
  {
  }

  lemma {:induction false} PassedSurvives(nodes: seq<Node>, looks: Looks) returns (from: seq<nat>)
    ensures SurvivesBy(nodes, Passed(nodes, looks), from)
    decreases |nodes|
  {
    hide Left, Passed, RunBy, RunAt, SurvivesBy;
    if nodes == [] {
      NoneSurvive(looks);
      from := [];
    } else {
      var n := |nodes| - 1;
      from := PassedSurvives(nodes[..n], looks);
      PassedOne(nodes, n, looks);
      assert nodes[..n + 1] == nodes == nodes[..n] + [nodes[n]];
      LeftKeepsId(nodes[n], looks(nodes[n].id));
      SurvivesMore(nodes[..n], nodes[n], Passed(nodes[..n], looks), Left(nodes[n], looks(nodes[n].id)), from);
      from := from + if Left(nodes[n], looks(nodes[n].id)) == [] then [] else [n];
    }
  }

  lemma LeftKeepsId(n: Node, look: Look)
    ensures |Left(n, look)| <= 1 && (Left(n, look) != [] ==> Left(n, look)[0].id == n.id)
  {
  }

  lemma PassedDistinct(nodes: seq<Node>, nextId: nat, looks: Looks)
    requires Distinct(nodes, nextId)
    ensures Distinct(Passed(nodes, looks), nextId)
  {
    var from := PassedSurvives(nodes, looks);
  }

  lemma {:induction false} WithoutSurvives(nodes: seq<Node>, e: Event) returns (from: seq<nat>)
    ensures SurvivesBy(nodes, Without(nodes, e), from)
    ensures forall k | 0 <= k < |from| :: Without(nodes, e)[k] == nodes[from[k]]
    decreases |nodes|
  {
    if nodes == [] {
      from := [];
    } else {
      var n := |nodes| - 1;
      from := WithoutSurvives(nodes[..n], e);
      if !e.Equals(nodes[n].event) {
        from := from + [n];
      }
    }
  }

  lemma WithoutDistinct(nodes: seq<Node>, nextId: nat, e: Event)
    requires Distinct(nodes, nextId)
    ensures Distinct(Without(nodes, e), nextId)
  {
    var from := WithoutSurvives(nodes, e);
  }

  // ----- The queue -----

  class Queue {
    var commands: seq<Node>
    var queueChanged: bool
    /** The events logged as executed. */
    var executed: seq<Node>
    var nextId: nat

    ghost predicate Valid()
      reads this
    {
      Distinct(commands, nextId)
    }

    constructor ()
      ensures Valid() && commands == [] && executed == [] && !queueChanged
    {
      commands, executed, queueChanged, nextId := [], [], false, 0;
    }

    /** `run_command`'s effect on the event. */
    method RunCommand(i: nat, now: real)
      requires i < |commands|
      modifies this
      ensures queueChanged && nextId == old(nextId)
      ensures commands == old(commands)[i := old(commands)[i].(event := old(commands)[i].event.Executed(now))]
      ensures executed == old(executed) + [commands[i]]
    {
      queueChanged := true;
      commands := commands[i := commands[i].(event := commands[i].event.Executed(now))];
      executed := executed + [commands[i]];
    }

    /** What a pass does at node i. */
    method VisitNode(i: nat, look: Look) returns (erased: bool)
      requires i < |commands|
      modifies this
      ensures commands == old(commands)[..i] + Left(old(commands)[i], look) + old(commands)[i + 1..]
      ensures executed == old(executed) + RunAt(old(commands)[i], look)
      ensures queueChanged == (old(queueChanged) || RunAt(old(commands)[i], look) != [])
      ensures erased == (Left(old(commands)[i], look) == []) && nextId == old(nextId)
    {
      ghost var was := commands;
      ExecutedKeepsKind(commands[i].event, look.now);
      erased := false;
      if Ready(commands[i].event, look) {
        if commands[i].event.IsConditional() {
          if look.condition {
            if commands[i].event.IsRepeat() {
              if !commands[i].event.alreadyRan {
                RunCommand(i, look.now);
                commands := commands[i := commands[i].(event := commands[i].event.(alreadyRan := true))];
              }
            } else {
              RunCommand(i, look.now);
              commands, erased := commands[..i] + commands[i + 1..], true;
            }
          } else {
            commands := commands[i := commands[i].(event := commands[i].event.(alreadyRan := false))];
          }
        } else {
          RunCommand(i, look.now);
          commands, erased := commands[..i] + commands[i + 1..], true;
        }
      }
    }

    /** One pass over the queue, which erases events as it goes. */
    method RunCommands(looks: Looks)
      requires Valid()
      modifies this
      ensures Valid() && nextId == old(nextId)
      ensures commands == Passed(old(commands), looks)
      ensures executed == old(executed) + RunBy(old(commands), looks)
      ensures queueChanged == (old(queueChanged) || RunBy(old(commands), looks) != [])
    {
      ghost var was := commands;
      ghost var p := 0;
      var i := 0;
      hide Left, RunAt, Passed, RunBy;
      PassedNone(looks);
      while i < |commands|
        invariant p <= |was| && commands == Passed(was[..p], looks) + was[p..] && i == |Passed(was[..p], looks)|
        invariant executed == old(executed) + RunBy(was[..p], looks) && nextId == old(nextId)
        invariant queueChanged == (old(queueChanged) || RunBy(was[..p], looks) != [])
        decreases |was| - p
      {
        PassedOne(was, p, looks);
        Spliced(Passed(was[..p], looks), was[p..], Left(was[p], looks(was[p].id)));
        assert was[p..][0] == was[p] && was[p..][1..] == was[p + 1..];
        var erased := VisitNode(i, looks(commands[i].id));
        if !erased {
          i := i + 1;
        }
        p := p + 1;
      }
      assert was[..p] == was;
      PassedDistinct(was, nextId, looks);
    }

    method AddCommand(e: Event)
      requires Valid()
      modifies this
      ensures Valid() && queueChanged && executed == old(executed) && nextId == old(nextId) + 1
      ensures commands == old(commands) + [Node(old(nextId), e)]
    {
      commands := commands + [Node(nextId, e)];
      nextId := nextId + 1;
      queueChanged := true;
    }

    /** Erase all events equal to e, and count them. */
    method DelCommand(e: Event) returns (n: nat)
      requires Valid()
      modifies this
      ensures Valid() && queueChanged && executed == old(executed) && nextId == old(nextId)
      ensures commands == Without(old(commands), e) && n == |old(commands)| - |commands|
    {
      WithoutDistinct(commands, nextId, e);
      hide Without, Distinct;
      var left;
      n, left := EraseAll(e);
      queueChanged := true;
    }

    /** The loop of `del_command`: the numbers of erased and of left events. */
    method EraseAll(e: Event) returns (n: nat, i: nat)
      modifies this`commands
      ensures commands == Without(old(commands), e) && i == |commands| && n + i == |old(commands)|
    {
      ghost var was := commands;
      ghost var p := 0;
      i, n := 0, 0;
      WithoutNone(e);
      hide Without, Unequal;
      while i < |commands|
        invariant p <= |was| && commands == Without(was[..p], e) + was[p..] && i == |Without(was[..p], e)|
        invariant i + n == p
        decreases |was| - p
      {
        WithoutOne(was, p, e);
        Spliced(Without(was[..p], e), was[p..], Unequal(was[p], e));
        assert was[p..][0] == was[p] && was[p..][1..] == was[p + 1..];
        var erased := EraseEqual(i, e);
        i, n := if erased then i else i + 1, if erased then n + 1 else n;
        p := p + 1;
      }
      assert was[..p] == was && was[p..] == [];
    }

    method EraseEqual(i: nat, e: Event) returns (erased: bool)
      requires i < |commands|
      modifies this`commands
      ensures commands == old(commands)[..i] + Unequal(old(commands)[i], e) + old(commands)[i + 1..]
      ensures erased == (Unequal(old(commands)[i], e) == [])
    {
      erased := e.Equals(commands[i].event);
      if erased {
        commands := commands[..i] + commands[i + 1..];
      }
    }
  }

  // ----- Whole runs -----

  datatype Action = RunAll(looks: Looks) | Add(event: Event) | Delete(event: Event)

  /** The nodes of the queue and the identity of the next node. */
  datatype State = State(nodes: seq<Node>, nextId: nat)

  function After(s: State, a: Action): State {
    match a
    case RunAll(looks) => s.(nodes := Passed(s.nodes, looks))
    case Add(e) => State(s.nodes + [Node(s.nextId, e)], s.nextId + 1)
    case Delete(e) => s.(nodes := Without(s.nodes, e))
  }

  function Run(s: State, actions: seq<Action>): State
    decreases |actions|
  {
    if actions == [] then s else Run(After(s, actions[0]), actions[1..])
  }

  ghost predicate Sane(s: State) { Distinct(s.nodes, s.nextId) }

  /** The action runs the event e of a node. */
  predicate RunsIn(a: Action, id: nat, e: Event) {
    a.RunAll? && Runs(e, a.looks(id))
  }

  /** The action finds the event e of a node ready with its condition false. */
  predicate RearmsIn(a: Action, id: nat, e: Event) {
    a.RunAll? && Rearms(e, a.looks(id))
  }

  lemma {:induction false} InPassed(nodes: seq<Node>, looks: Looks, n: Node)
    requires n in Passed(nodes, looks)
    ensures exists m | m in nodes :: m.id == n.id && n in Left(m, looks(m.id))
    decreases |nodes|
  {
    var k := |nodes| - 1;
    if n in Passed(nodes[..k], looks) {
      InPassed(nodes[..k], looks, n);
      var m :| m in nodes[..k] && m.id == n.id && n in Left(m, looks(m.id));
    } else {
      LeftKeepsId(nodes[k], looks(nodes[k].id));
      assert n in Left(nodes[k], looks(nodes[k].id));
    }
  }

  lemma {:induction false} InWithout(nodes: seq<Node>, e: Event, n: Node)
    requires n in Without(nodes, e)
    ensures n in nodes
    decreases |nodes|
  {
    var from := WithoutSurvives(nodes, e);
    var k :| 0 <= k < |from| && Without(nodes, e)[k] == n;
    assert nodes[from[k]] == n;
  }

  lemma AfterSane(s: State, a: Action)
    requires Sane(s)
    ensures Sane(After(s, a)) && s.nextId <= After(s, a).nextId
  {
    match a
    case RunAll(looks) => PassedDistinct(s.nodes, s.nextId, looks);
    case Add(e) =>
    case Delete(e) => WithoutDistinct(s.nodes, s.nextId, e);
  }

  /** Where a node of after comes from: the same node before, which the action left so, or it is
      the one added. */
  lemma NodeBefore(s: State, a: Action, n: Node)
    requires Sane(s) && n in After(s, a).nodes && n.id < s.nextId
    ensures exists m | m in s.nodes :: m.id == n.id && if a.RunAll? then n in Left(m, a.looks(m.id)) else n == m
  {
    match a
    case RunAll(looks) => InPassed(s.nodes, looks, n);
    case Add(e) => assert n in s.nodes;
    case Delete(e) => InWithout(s.nodes, e, n);
  }

  lemma SameNode(s: State, m: Node, n: Node)
    requires Sane(s) && m in s.nodes && n in s.nodes && m.id == n.id
    ensures m == n
  {
  }

  /** A node that has gone does not come back. */
  lemma {:induction false} GoneStaysGone(s: State, actions: seq<Action>, id: nat)
    requires Sane(s) && id < s.nextId && forall n | n in s.nodes :: n.id != id
    ensures forall n | n in Run(s, actions).nodes :: n.id != id
    decreases |actions|
  {
    if actions != [] {
      AfterSane(s, actions[0]);
      forall n | n in After(s, actions[0]).nodes
        ensures n.id != id
      {
        if n.id == id {
          NodeBefore(s, actions[0], n);
        }
      }
      GoneStaysGone(After(s, actions[0]), actions[1..], id);
    }
  }

  /** An event that is not edge-triggered runs at most once: the pass that runs it removes it for
      good. */
  lemma OthersRunOnce(s: State, a: Action, later: seq<Action>, n: Node)
    requires Sane(s) && n in s.nodes && RunsIn(a, n.id, n.event) && !EdgeTriggered(n.event)
    ensures forall m | m in Run(After(s, a), later).nodes :: m.id != n.id
  {
    AfterSane(s, a);
    forall m | m in After(s, a).nodes && m.id == n.id
      ensures m in Left(n, a.looks(n.id))
    {
      NodeLeft(s, a, n, m);
    }
    assert Left(n, a.looks(n.id)) == [];
    GoneStaysGone(After(s, a), later, n.id);
  }

  lemma NodeLeft(s: State, a: Action, n: Node, m: Node)
    requires Sane(s) && n in s.nodes && m in After(s, a).nodes && m.id == n.id
    ensures if a.RunAll? then m in Left(n, a.looks(n.id)) else m == n
  {
    NodeBefore(s, a, m);
    var o :| o in s.nodes && o.id == m.id && if a.RunAll? then m in Left(o, a.looks(o.id)) else m == o;
    SameNode(s, o, n);
  }

  /** An edge-triggered event that has run, and is to run again after some actions, is found
      ready with its condition false by one of them. */
  lemma {:induction false} RearmedFirst(s: State, actions: seq<Action>, a: Action, n: Node, m: Node)
    returns (k: nat, g: Node)
    requires Sane(s) && n in s.nodes && EdgeTriggered(n.event) && n.event.alreadyRan
    requires m in Run(s, actions).nodes && m.id == n.id && RunsIn(a, m.id, m.event)
    ensures k < |actions| && g in Run(s, actions[..k]).nodes && g.id == n.id && RearmsIn(actions[k], g.id, g.event)
    decreases |actions|
  {
    if actions == [] {
      SameNode(s, n, m);
      assert false;
    } else if RearmsIn(actions[0], n.id, n.event) {
      k, g := 0, n;
      assert actions[..0] == [];
    } else {
      var next := After(s, actions[0]);
      AfterSane(s, actions[0]);
      if forall o | o in next.nodes :: o.id != n.id {
        GoneStaysGone(next, actions[1..], n.id);
        assert false;
      }
      var o :| o in next.nodes && o.id == n.id;
      NodeLeft(s, actions[0], n, o);
      assert o == n;
      k, g := RearmedFirst(next, actions[1..], a, n, m);
      k := k + 1;
      assert actions[..k][0] == actions[0] && actions[..k][1..] == actions[1..][..k - 1];
    }
  }

  /** An edge-triggered event runs twice only if, between the two, some pass saw it ready with its
      condition false. */
  lemma RunsTwice(s: State, first: Action, between: seq<Action>, second: Action, n: Node, m: Node)
    returns (k: nat, g: Node)
    requires Sane(s) && n in s.nodes && RunsIn(first, n.id, n.event) && EdgeTriggered(n.event)
    requires m in Run(After(s, first), between).nodes && m.id == n.id && RunsIn(second, m.id, m.event)
    ensures k < |between| && g in Run(After(s, first), between[..k]).nodes && g.id == n.id
    ensures RearmsIn(between[k], g.id, g.event)
  {
    var next := After(s, first);
    AfterSane(s, first);
    if forall o | o in next.nodes :: o.id != n.id {
      GoneStaysGone(next, between, n.id);
      assert false;
    }
    var o :| o in next.nodes && o.id == n.id;
    NodeLeft(s, first, n, o);
    ExecutedKeepsKind(n.event, first.looks(n.id).now);
    assert o.event.alreadyRan && EdgeTriggered(o.event);
    k, g := RearmedFirst(next, between, second, o, m);
  }
}
