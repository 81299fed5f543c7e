/** The message ring of libraries/agent/agentclass.cpp: one thread writes, one reads, and their
    atomic steps interleave in any way. */
module MessageRing {
  const MESSAGE_RING_SIZE: nat := 100

  const AGENT_MESSAGE_ALL: nat := 1

  /** A message's type and contents. */
  datatype Message = Message(kind: nat, contents: string)

  /** The slots and indices the threads share. Between its two steps the writer has filled a slot
      that it has not published, and the reader has passed a slot that it has not fetched. */
  datatype Ring = Ring(slots: seq<Message>, head: nat, tail: nat, writing: bool, reading: bool)

  datatype Step =
    | Store(message: Message)
    | Publish
    | Check
    | Advance
    | Fetch(kind: nat)
    | Clear
    | SeekHead

  function Wrapped(i: nat): nat { if i >= MESSAGE_RING_SIZE then 0 else i }

  /** The reader or writer is where the step can happen. */
  predicate Enabled(r: Ring, s: Step) {
    match s
    case Store(_) => !r.writing
    case Publish => r.writing
    case Check => !r.reading
    case Advance => !r.reading
    case Fetch(_) => r.reading
    case Clear => !r.reading
    case SeekHead => !r.reading
  }

  predicate Shaped(r: Ring) {
    && |r.slots| == MESSAGE_RING_SIZE && r.head <= MESSAGE_RING_SIZE && r.tail <= MESSAGE_RING_SIZE
    && (r.reading ==> r.tail < MESSAGE_RING_SIZE)
  }

  /** The reader passes a slot. */
  function Moved(r: Ring): Ring {
    r.(tail := Wrapped(r.tail + 1), reading := true)
  }

  /** One atomic step. A read with no time to wait passes a slot without a look at the head
      (`Advance`). An index that is decremented below zero is, unsigned, beyond the ring. */
  function Next(r: Ring, s: Step): (n: Ring)
    requires Shaped(r) && Enabled(r, s)
    ensures Shaped(n)
  {
    match s
    case Store(m) => r.(slots := r.slots[Wrapped(r.head + 1) := m], writing := true)
    case Publish => r.(head := Wrapped(r.head + 1), writing := false)
    case Check => if r.head == r.tail then r else Moved(r)
    case Advance => Moved(r)
    case Fetch(_) => r.(reading := false)
    case Clear => r.(tail := r.head)
    case SeekHead => r.(tail := if r.head == 0 then MESSAGE_RING_SIZE - 1 else r.head - 1)
  }

  predicate IsWanted(m: Message, kind: nat) {
    kind == AGENT_MESSAGE_ALL || kind == m.kind
  }

  /** What a fetch gives its caller: the message, if it is of the type asked for. */
  function Fetched(r: Ring, kind: nat): seq<Message>
    requires Shaped(r) && r.reading
  {
    if IsWanted(r.slots[r.tail], kind) then [r.slots[r.tail]] else []
  }

  // ----- The history of a run -----

  /** All messages stored so far, how many are published and how many the reader has passed; where
      it started at the last clearing or jump, the types it has asked for since, what it was given,
      and whether it has lost a message. */
  datatype History = History(log: seq<Message>, published: nat, passed: nat, start: nat, asked: seq<nat>,
                             given: seq<Message>, lost: bool)

  function Done(r: Ring, h: History): int {
    if r.reading then h.passed - 1 else h.passed
  }

  /** The message the reader has passed to has been stored, and no later one in its slot. */
  predicate Intact(h: History) {
    h.passed - 1 < |h.log| <= h.passed - 1 + MESSAGE_RING_SIZE
  }

  /** Ring and history belong together. */
  ghost predicate Tracked(r: Ring, h: History) {
    && Shaped(r)
    && |h.log| == h.published + (if r.writing then 1 else 0)
    && HeadIs(r.head, h.published) && TailIs(r.tail, h.passed) && h.start <= Done(r, h)
    && (forall k | 0 <= k < |h.log| && k >= |h.log| - MESSAGE_RING_SIZE :: r.slots[k % MESSAGE_RING_SIZE] == h.log[k])
    && |h.asked| == Done(r, h) - h.start
    && (!h.lost ==> Done(r, h) <= |h.log| && h.given == Wanted(h.log[h.start..Done(r, h)], h.asked))
  }

  /** They do, the reader has passed none but published messages and has lost none. */
  ghost predicate Consistent(r: Ring, h: History) {
    Tracked(r, h) && h.passed <= h.published && !h.lost
  }

  predicate HeadIs(head: nat, published: nat) {
    if published == 0 then head == MESSAGE_RING_SIZE else head == (published - 1) % MESSAGE_RING_SIZE
  }

  /** The tail starts outside the ring; jumping to the first message leaves it at the last slot. */
  predicate TailIs(tail: nat, passed: nat) {
    if passed == 0 then tail == MESSAGE_RING_SIZE || tail == MESSAGE_RING_SIZE - 1
    else tail == (passed - 1) % MESSAGE_RING_SIZE
  }

  /** Of each message, whether the call that met it asked for its type. */
  function Wanted(messages: seq<Message>, asked: seq<nat>): seq<Message>
    requires |messages| == |asked|
  {
    if messages == [] then []
    else
      var n := |messages| - 1;
      Wanted(messages[..n], asked[..n]) + if IsWanted(messages[n], asked[n]) then [messages[n]] else []
  }

  /** The reader starts anew after message p. */
  function Restarted(h: History, p: nat): History {
    h.(passed := p, start := p, asked := [], given := [], lost := false)
  }

  function Record(r: Ring, h: History, s: Step): History
    requires Shaped(r) && Enabled(r, s)
  {
    match s
    case Store(m) => h.(log := h.log + [m])
    case Publish => h.(published := h.published + 1)
    case Check => if r.head == r.tail then h else h.(passed := h.passed + 1)
    case Advance => h.(passed := h.passed + 1)
    case Fetch(kind) => h.(asked := h.asked + [kind], given := h.given + Fetched(r, kind), lost := h.lost || !Intact(h))
    case Clear => Restarted(h, h.published)
    case SeekHead => Restarted(h, if h.published == 0 then 0 else h.published - 1)
  }

  /** Fewer messages are waiting, counting one that is being fetched, than the ring has slots. */
  predicate Roomy(r: Ring, h: History) {
    h.published - Done(r, h) < MESSAGE_RING_SIZE
  }

  // ----- Every step keeps the history -----

  lemma NextIndex(i: nat, n: nat)
    requires if n == 0 then i == MESSAGE_RING_SIZE || i == MESSAGE_RING_SIZE - 1 else i == (n - 1) % MESSAGE_RING_SIZE
    ensures Wrapped(i + 1) == n % MESSAGE_RING_SIZE
  {
  }

  lemma SameSlot(i: nat, j: nat)
    requires i < j < i + MESSAGE_RING_SIZE
    ensures i % MESSAGE_RING_SIZE != j % MESSAGE_RING_SIZE
  {
  }

  lemma SameRemainder(a: int, b: int)
    ensures (a - 1) % MESSAGE_RING_SIZE == (b - 1) % MESSAGE_RING_SIZE <==> (a - b) % MESSAGE_RING_SIZE == 0
  {
    var p, q := (a - 1) / MESSAGE_RING_SIZE, (b - 1) / MESSAGE_RING_SIZE;
    assert a - b == MESSAGE_RING_SIZE * (p - q) + ((a - 1) % MESSAGE_RING_SIZE - (b - 1) % MESSAGE_RING_SIZE);
  }

  /** Exactly when the reader sees that a message waits: a whole lap looks like nothing, except
      from the initial tail; and after a jump to the head of a ring that has had no message, it
      sees one that never was. */
  lemma CheckSees(published: nat, passed: nat, head: nat, tail: nat)
    requires HeadIs(head, published) && TailIs(tail, passed)
    ensures head != tail <==>
              if published == 0 then tail < MESSAGE_RING_SIZE
              else (published - passed) % MESSAGE_RING_SIZE != 0 || tail == MESSAGE_RING_SIZE
  {
    SameRemainder(published, passed);
  }

  lemma StoreTracks(r: Ring, h: History, m: Message)
    requires Tracked(r, h) && !r.writing
    ensures Tracked(Next(r, Store(m)), Record(r, h, Store(m)))
  {
    NextIndex(r.head, h.published);
    var n, g := Next(r, Store(m)), Record(r, h, Store(m));
    forall k | 0 <= k < |g.log| && k >= |g.log| - MESSAGE_RING_SIZE
      ensures n.slots[k % MESSAGE_RING_SIZE] == g.log[k]
    {
      if k < h.published {
        SameSlot(k, h.published);
      }
    }
    if !h.lost {
      assert g.log[g.start..Done(n, g)] == h.log[h.start..Done(r, h)];
    }
  }

  lemma PublishTracks(r: Ring, h: History)
    requires Tracked(r, h) && r.writing
    ensures Tracked(Next(r, Publish), Record(r, h, Publish))
  {
    NextIndex(r.head, h.published);
  }

  lemma MoveTracks(r: Ring, h: History)
    requires Tracked(r, h) && !r.reading
    ensures Tracked(Moved(r), h.(passed := h.passed + 1))
  {
    TailMoves(r.tail, h.passed);
    hide HeadIs, TailIs, Wanted, Wrapped;
  }

  lemma TailMoves(tail: nat, passed: nat)
    requires TailIs(tail, passed)
    ensures TailIs(Wrapped(tail + 1), passed + 1) && Wrapped(tail + 1) < MESSAGE_RING_SIZE
  {
    NextIndex(tail, passed);
  }

  lemma FetchTracks(r: Ring, h: History, kind: nat)
    requires Tracked(r, h) && r.reading
    ensures Tracked(Next(r, Fetch(kind)), Record(r, h, Fetch(kind)))
    ensures Intact(h) ==> r.slots[r.tail] == h.log[h.passed - 1]
  {
    var g := Record(r, h, Fetch(kind));
    var d := h.passed - 1;
    assert r.tail == d % MESSAGE_RING_SIZE;
    if !g.lost {
      var all := g.log[g.start..h.passed];
      assert all == h.log[h.start..d] + [h.log[d]];
      assert all[..|all| - 1] == h.log[h.start..d];
      assert g.asked[..|all| - 1] == h.asked;
    }
  }

  /** Clearing mends what was lost before. */
  lemma ClearKeeps(r: Ring, h: History)
    requires Tracked(r, h) && !r.reading
    ensures Consistent(Next(r, Clear), Record(r, h, Clear)) && Record(r, h, Clear).passed == h.published
  {
    assert h.log[h.published..h.published] == [];
  }

  /** And so does a jump to the head. */
  lemma SeekKeeps(r: Ring, h: History)
    requires Tracked(r, h) && !r.reading
    ensures Consistent(Next(r, SeekHead), Record(r, h, SeekHead))
  {
    var p := if h.published == 0 then 0 else h.published - 1;
    assert h.log[p..p] == [];
    SeekIndex(r.head, h.published);
    hide HeadIs, TailIs;
  }

  lemma SeekIndex(head: nat, published: nat)
    requires HeadIs(head, published)
    ensures TailIs(if head == 0 then MESSAGE_RING_SIZE - 1 else head - 1, if published == 0 then 0 else published - 1)
  {
    if published > 1 {
      NextIndex((published - 2) % MESSAGE_RING_SIZE, published - 1);
    }
  }

  lemma StepTracks(r: Ring, h: History, s: Step)
    requires Tracked(r, h) && Enabled(r, s)
    ensures Tracked(Next(r, s), Record(r, h, s))
  {
    match s
    case Store(m) => StoreTracks(r, h, m);
    case Publish => PublishTracks(r, h);
    case Check =>
      if r.head != r.tail {
        MoveTracks(r, h);
      }
    case Advance => MoveTracks(r, h);
    case Fetch(kind) => FetchTracks(r, h, kind);
    case Clear => ClearKeeps(r, h);
    case SeekHead => SeekKeeps(r, h);
  }

  // ----- A reader that keeps up -----

  /** No jump to the head of a ring that has had no message has taken place. */
  predicate Sound(r: Ring, h: History) {
    h.published > 0 || r.tail == MESSAGE_RING_SIZE
  }

  /** What a reader that keeps up heeds: it does not look after a jump to the head of a ring that
      has had no message, does not pass a slot blindly unless a message waits, and when it takes a
      message it is less than a lap behind. */
  predicate Heeds(r: Ring, h: History, s: Step) {
    match s
    case Check => Sound(r, h)
    case Advance => h.passed < h.published
    case Fetch(_) => Roomy(r, h)
    case _ => true
  }

  lemma StepKeeps(r: Ring, h: History, s: Step)
    requires Consistent(r, h) && Enabled(r, s) && Heeds(r, h, s)
    ensures Consistent(Next(r, s), Record(r, h, s))
  {
    StepTracks(r, h, s);
    if s.Check? {
      CheckSees(h.published, h.passed, r.head, r.tail);
    }
    hide HeadIs, TailIs, Wanted, Wrapped;
  }

  lemma CheckKeeps(r: Ring, h: History)
    requires Consistent(r, h) && !r.reading && Roomy(r, h) && Sound(r, h)
    ensures Consistent(Next(r, Check), Record(r, h, Check))
    ensures Next(r, Check).reading <==> h.passed < h.published
  {
    StepKeeps(r, h, Check);
    RoomyCheck(h.published, h.passed, r.head, r.tail);
  }

  /** A reader that keeps up sees a message exactly when one waits. */
  lemma RoomyCheck(published: nat, passed: nat, head: nat, tail: nat)
    requires HeadIs(head, published) && TailIs(tail, passed) && passed <= published < passed + MESSAGE_RING_SIZE
    requires published > 0 || tail == MESSAGE_RING_SIZE
    ensures head != tail <==> passed < published
  {
    CheckSees(published, passed, head, tail);
  }

  lemma FetchKeeps(r: Ring, h: History, kind: nat)
    requires Consistent(r, h) && r.reading && Roomy(r, h)
    ensures Consistent(Next(r, Fetch(kind)), Record(r, h, Fetch(kind)))
    ensures r.slots[r.tail] == h.log[h.passed - 1]
  {
    FetchTracks(r, h, kind);
  }

  // ----- Whole runs -----

  predicate RunEnabled(r: Ring, steps: seq<Step>)
    requires Shaped(r)
    decreases |steps|
  {
    steps == [] || (Enabled(r, steps[0]) && RunEnabled(Next(r, steps[0]), steps[1..]))
  }

  function RunRing(r: Ring, steps: seq<Step>): (n: Ring)
    requires Shaped(r) && RunEnabled(r, steps)
    ensures Shaped(n)
    decreases |steps|
  {
    if steps == [] then r else RunRing(Next(r, steps[0]), steps[1..])
  }

  function RunHistory(r: Ring, h: History, steps: seq<Step>): History
    requires Shaped(r) && RunEnabled(r, steps)
    decreases |steps|
  {
    if steps == [] then h else RunHistory(Next(r, steps[0]), Record(r, h, steps[0]), steps[1..])
  }

  /** Before each of its steps the reader heeds what it must. */
  predicate KeepsUp(r: Ring, h: History, steps: seq<Step>)
    requires Shaped(r) && RunEnabled(r, steps)
    decreases |steps|
  {
    steps != [] ==>
      Heeds(r, h, steps[0]) && KeepsUp(Next(r, steps[0]), Record(r, h, steps[0]), steps[1..])
  }

  function Empty(slots: seq<Message>): Ring
    requires |slots| == MESSAGE_RING_SIZE
  {
    Ring(slots, MESSAGE_RING_SIZE, MESSAGE_RING_SIZE, false, false)
  }

  const NO_HISTORY := History([], 0, 0, 0, [], [], false)

  lemma {:induction false} RunTracks(r: Ring, h: History, steps: seq<Step>)
    requires Tracked(r, h) && RunEnabled(r, steps)
    ensures Tracked(RunRing(r, steps), RunHistory(r, h, steps))
    decreases |steps|
  {
    if steps != [] {
      StepTracks(r, h, steps[0]);
      RunTracks(Next(r, steps[0]), Record(r, h, steps[0]), steps[1..]);
    }
  }

  /** A reader that keeps up loses nothing. */
  lemma {:induction false} RunKeeps(r: Ring, h: History, steps: seq<Step>)
    requires Consistent(r, h) && RunEnabled(r, steps) && KeepsUp(r, h, steps)
    ensures Consistent(RunRing(r, steps), RunHistory(r, h, steps))
    decreases |steps|
  {
    if steps != [] {
      StepKeeps(r, h, steps[0]);
      RunKeeps(Next(r, steps[0]), Record(r, h, steps[0]), steps[1..]);
    }
  }

  /** First in, first out, under every interleaving: unless a message was lost, what the reader has
      been given since its last clearing or jump is what was written from there on, in order,
      without gap or repetition, as far as it asked for it. */
  lemma Fifo(slots: seq<Message>, steps: seq<Step>)
    requires |slots| == MESSAGE_RING_SIZE && RunEnabled(Empty(slots), steps)
    ensures var r, h := RunRing(Empty(slots), steps), RunHistory(Empty(slots), NO_HISTORY, steps);
      && h.start <= Done(r, h) && |h.asked| == Done(r, h) - h.start
      && (!h.lost ==> Done(r, h) <= |h.log| && h.given == Wanted(h.log[h.start..Done(r, h)], h.asked))
      && (KeepsUp(Empty(slots), NO_HISTORY, steps) ==> !h.lost)
  {
    assert Consistent(Empty(slots), NO_HISTORY);
    RunTracks(Empty(slots), NO_HISTORY, steps);
    if KeepsUp(Empty(slots), NO_HISTORY, steps) {
      RunKeeps(Empty(slots), NO_HISTORY, steps);
    }
  }

  // ----- Exactly when a message is lost -----

  predicate AllTypes(asked: seq<nat>) {
    forall i | 0 <= i < |asked| :: asked[i] == AGENT_MESSAGE_ALL
  }

  /** No message is written twice, or was in the ring from the start. */
  predicate Distinct(slots: seq<Message>, log: seq<Message>) {
    && (forall i, j | 0 <= i < j < |log| :: log[i] != log[j])
    && forall i | 0 <= i < |log| :: log[i] !in slots
  }

  /** The i-th message given comes from the ring, and is not the i-th written. */
  predicate Stray(slots: seq<Message>, h: History, i: nat)
    requires i < |h.given|
  {
    (h.given[i] in slots || h.given[i] in h.log) && (h.start + i < |h.log| ==> h.given[i] != h.log[h.start + i])
  }

  /** What a reader of all types has been given, one message a fetch, betrays what it has lost. */
  ghost predicate Betrayed(slots: seq<Message>, r: Ring, h: History) {
    && (forall i | 0 <= i < |r.slots| :: r.slots[i] in slots || r.slots[i] in h.log)
    && (AllTypes(h.asked) ==> |h.given| == |h.asked|)
    && (AllTypes(h.asked) && Distinct(slots, h.log) && h.lost ==> exists i | 0 <= i < |h.given| :: Stray(slots, h, i))
  }

  lemma NewestIn(d: nat, n: nat) returns (k: nat)
    requires d < n
    ensures d <= k < n <= k + MESSAGE_RING_SIZE && k % MESSAGE_RING_SIZE == d % MESSAGE_RING_SIZE
  {
    k := d;
    while k + MESSAGE_RING_SIZE < n
      invariant d <= k < n && k % MESSAGE_RING_SIZE == d % MESSAGE_RING_SIZE
    {
      k := k + MESSAGE_RING_SIZE;
    }
  }

  /** The slot of a message that was written over holds the newest one with its index. */
  lemma WrittenOver(r: Ring, h: History, d: nat) returns (k: nat)
    requires Tracked(r, h) && d + MESSAGE_RING_SIZE < |h.log|
    ensures d < k < |h.log| && r.slots[d % MESSAGE_RING_SIZE] == h.log[k]
  {
    hide HeadIs, TailIs, Wanted;
    k := NewestIn(d, |h.log|);
  }

  /** A message that is not there is not what is fetched. */
  lemma WrongMessage(slots: seq<Message>, r: Ring, h: History)
    requires Tracked(r, h) && r.reading && Distinct(slots, h.log) && !Intact(h)
    ensures h.passed - 1 < |h.log| ==> r.slots[r.tail] != h.log[h.passed - 1]
  {
    var d := h.passed - 1;
    assert r.tail == d % MESSAGE_RING_SIZE;
    if d < |h.log| {
      var k := WrittenOver(r, h, d);
      hide Tracked;
    }
  }

  lemma FetchedAt(r: Ring, h: History)
    requires Tracked(r, h) && r.reading
    ensures Shaped(r) && h.passed > 0 && h.passed - 1 == h.start + |h.asked|
  {
  }

  lemma FetchBetrays(slots: seq<Message>, r: Ring, h: History, kind: nat)
    requires Tracked(r, h) && Betrayed(slots, r, h) && r.reading
    ensures Betrayed(slots, Next(r, Fetch(kind)), Record(r, h, Fetch(kind)))
  {
    var g := Record(r, h, Fetch(kind));
    FetchedAt(r, h);
    hide Tracked, Intact;
    if AllTypes(g.asked) {
      assert g.asked[|h.asked|] == kind == AGENT_MESSAGE_ALL;
      assert forall i | 0 <= i < |h.asked| :: g.asked[i] == h.asked[i];
      assert AllTypes(h.asked) && g.given == h.given + [r.slots[r.tail]];
      if Distinct(slots, g.log) && g.lost {
        if h.lost {
          var i :| 0 <= i < |h.given| && Stray(slots, h, i);
          assert Stray(slots, g, i);
        } else {
          var d := h.passed - 1;
          WrongMessage(slots, r, h);
          hide Distinct;
          assert g.given[|h.given|] == r.slots[r.tail] && d == h.start + |h.given|;
          assert Stray(slots, g, |h.given|);
        }
      }
    }
  }

  lemma StoreBetrays(slots: seq<Message>, r: Ring, h: History, m: Message)
    requires Tracked(r, h) && Betrayed(slots, r, h) && !r.writing
    ensures Betrayed(slots, Next(r, Store(m)), Record(r, h, Store(m)))
  {
    var n, g := Next(r, Store(m)), Record(r, h, Store(m));
    assert g.log[|h.log|] == m && forall i | 0 <= i < |h.log| :: g.log[i] == h.log[i];
    forall i | 0 <= i < |n.slots|
      ensures n.slots[i] in slots || n.slots[i] in g.log
    {
      assert n.slots[i] == m || n.slots[i] == r.slots[i];
    }
    if AllTypes(g.asked) && Distinct(slots, g.log) && g.lost {
      assert Distinct(slots, h.log);
      var i :| 0 <= i < |h.given| && Stray(slots, h, i);
      assert Stray(slots, g, i);
    }
  }

  lemma StepBetrays(slots: seq<Message>, r: Ring, h: History, s: Step)
    requires Tracked(r, h) && Betrayed(slots, r, h) && Enabled(r, s)
    ensures Betrayed(slots, Next(r, s), Record(r, h, s))
  {
    match s
    case Store(m) => StoreBetrays(slots, r, h, m);
    case Fetch(kind) => FetchBetrays(slots, r, h, kind);
    case Publish | Check | Advance => SameBetrays(slots, r, h, Next(r, s), Record(r, h, s));
    case Clear | SeekHead =>
  }

  lemma SameBetrays(slots: seq<Message>, r: Ring, h: History, n: Ring, g: History)
    requires Betrayed(slots, r, h) && n.slots == r.slots
    requires g.log == h.log && g.start == h.start && g.asked == h.asked && g.given == h.given && g.lost == h.lost
    ensures Betrayed(slots, n, g)
  {
    if h.lost && AllTypes(h.asked) && Distinct(slots, h.log) {
      var i :| 0 <= i < |h.given| && Stray(slots, h, i);
      assert Stray(slots, g, i);
    }
  }

  lemma {:induction false} RunBetrays(slots: seq<Message>, r: Ring, h: History, steps: seq<Step>)
    requires Tracked(r, h) && Betrayed(slots, r, h) && RunEnabled(r, steps)
    ensures Tracked(RunRing(r, steps), RunHistory(r, h, steps))
    ensures Betrayed(slots, RunRing(r, steps), RunHistory(r, h, steps))
    decreases |steps|
  {
    if steps != [] {
      StepTracks(r, h, steps[0]);
      StepBetrays(slots, r, h, steps[0]);
      RunBetrays(slots, Next(r, steps[0]), Record(r, h, steps[0]), steps[1..]);
    }
  }

  /** No other message is ever lost: a reader of all types has been given the messages written
      since its last clearing or jump if and only if each was in its slot, not yet written over,
      when it was fetched. */
  lemma FifoExactly(slots: seq<Message>, steps: seq<Step>)
    requires |slots| == MESSAGE_RING_SIZE && RunEnabled(Empty(slots), steps)
    ensures var r, h := RunRing(Empty(slots), steps), RunHistory(Empty(slots), NO_HISTORY, steps);
      && h.start <= Done(r, h)
      && (AllTypes(h.asked) && Distinct(slots, h.log) ==>
            (!h.lost <==> Done(r, h) <= |h.log| && h.given == h.log[h.start..Done(r, h)]))
  {
    RunBetrays(slots, Empty(slots), NO_HISTORY, steps);
    var r, h := RunRing(Empty(slots), steps), RunHistory(Empty(slots), NO_HISTORY, steps);
    if AllTypes(h.asked) && Distinct(slots, h.log) {
      if h.lost {
        var i :| 0 <= i < |h.given| && Stray(slots, h, i);
        assert Done(r, h) <= |h.log| ==> h.log[h.start..Done(r, h)][i] == h.log[h.start + i];
      } else {
        AllWanted(h.log[h.start..Done(r, h)], h.asked);
      }
    }
  }

  lemma {:induction false} AllWanted(messages: seq<Message>, asked: seq<nat>)
    requires |messages| == |asked| && AllTypes(asked)
    ensures Wanted(messages, asked) == messages
    decreases |messages|
  {
    if messages != [] {
      var n := |messages| - 1;
      AllWanted(messages[..n], asked[..n]);
      assert messages[..n] + [messages[n]] == messages;
    }
  }

  /** A jump to the head, then a check and a fetch, gives the newest message and leaves nothing
      waiting. */
  lemma HeadReadsNewest(r: Ring, h: History)
    requires Tracked(r, h) && !r.reading && h.published > 0
    ensures var at := Next(r, SeekHead);
      Enabled(at, Check) &&
      var met := Next(at, Check);
      met.reading && Fetched(met, AGENT_MESSAGE_ALL) == [h.log[h.published - 1]]
          && Next(met, Fetch(AGENT_MESSAGE_ALL)).tail == r.head
  {
    var at := Next(r, SeekHead);
    var g := Record(r, h, SeekHead);
    SeekKeeps(r, h);
    CheckKeeps(at, g);
    FetchKeeps(Next(at, Check), Record(at, g, Check), AGENT_MESSAGE_ALL);
  }

  /** A jump to the head of a ring that has had no message makes the reader fetch a slot that was
      never written, and then miss the first message. */
  lemma HeadOfEmptyRing(slots: seq<Message>, m: Message)
    requires |slots| == MESSAGE_RING_SIZE
    ensures var met := Next(Next(Empty(slots), SeekHead), Check);
      && met.reading && Fetched(met, AGENT_MESSAGE_ALL) == [slots[0]]
      && !Next(Next(Next(Next(met, Fetch(AGENT_MESSAGE_ALL)), Store(m)), Publish), Check).reading
  {
    var met := Next(Next(Empty(slots), SeekHead), Check);
    assert met.reading && met.tail == 0;
  }

  /** A reader that has fallen behind by a lap or more is given a later message: the newest that
      has the index of its own in the ring. */
  lemma BehindReads(r: Ring, h: History, j: nat)
    requires Tracked(r, h) && !r.reading && h.published > 0 && r.head != r.tail
    requires j < |h.log| && j >= |h.log| - MESSAGE_RING_SIZE && j % MESSAGE_RING_SIZE == h.passed % MESSAGE_RING_SIZE
    ensures Next(r, Check).reading && Fetched(Next(r, Check), AGENT_MESSAGE_ALL) == [h.log[j]]
  {
    NextIndex(r.tail, h.passed);
  }

  /** After a try following each batch, the reader has passed as many messages as it met, none of
      the type before the one it was given. */
  ghost predicate Progress(h: History, after: History, batches: seq<seq<Message>>, got: seq<Message>, kind: nat) {
    && after.log == h.log + Flat(batches) && after.published == |after.log|
         && h.passed <= after.passed <= after.published
    && after.passed == PassedBy(h.passed, h.published, batches)
    && (got != [] ==>
          && h.passed < after.passed && IsWanted(after.log[after.passed - 1], kind)
          && got == [after.log[after.passed - 1]])
    && forall j | h.passed <= j < after.passed - |got| :: !IsWanted(after.log[j], kind)
  }

  lemma NoProgress(h: History, kind: nat)
    requires h.passed <= h.published == |h.log|
    ensures Progress(h, h, [], [], kind)
  {
    assert h.log + [] == h.log;
  }

  lemma ProgressIs(h: History, after: History, batches: seq<seq<Message>>, kind: nat)
    requires Progress(h, after, batches, [], kind)
    ensures after.published == |h.log| + |Flat(batches)| && h.passed <= after.passed
  {
  }

  lemma MoreProgress(h: History, before: History, received: History, after: History, arrivals: seq<seq<Message>>,
                     i: nat, got: seq<Message>, kind: nat)
    requires i < |arrivals| && Progress(h, before, arrivals[..i], [], kind) && h.published == |h.log|
    requires received.log == before.log + arrivals[i] && received.passed == before.passed
    requires received.published == before.published + |arrivals[i]|
    requires after.log == received.log && after.published == received.published
    requires received.passed <= received.published <= |received.log|
    requires after.passed == if received.passed < received.published then received.passed + 1 else received.passed
    requires got == if received.passed < received.published && IsWanted(received.log[received.passed], kind)
                    then [received.log[received.passed]] else []
    ensures Progress(h, after, arrivals[..i + 1], got, kind)
  {
    NextFlat(arrivals, i, h.passed, h.published);
    hide Flat, PassedBy, IsWanted;
    assert after.log == h.log + Flat(arrivals[..i + 1]);
    assert forall j | h.passed <= j < before.passed :: after.log[j] == before.log[j];
  }

  function Flat(batches: seq<seq<Message>>): seq<Message> {
    if batches == [] then [] else Flat(batches[..|batches| - 1]) + batches[|batches| - 1]
  }

  /** How many messages have been passed after a try following each batch. */
  function PassedBy(passed: nat, published: nat, batches: seq<seq<Message>>): nat
    decreases |batches|
  {
    if batches == [] then passed
    else
      var p := PassedBy(passed, published, batches[..|batches| - 1]);
      if p < published + |Flat(batches)| then p + 1 else p
  }

  lemma NextFlat(batches: seq<seq<Message>>, i: nat, passed: nat, published: nat)
    requires i < |batches|
    ensures Flat(batches[..i + 1]) == Flat(batches[..i]) + batches[i]
    ensures |Flat(batches[..i + 1])| <= |Flat(batches)|
    ensures var p := PassedBy(passed, published, batches[..i]);
      PassedBy(passed, published, batches[..i + 1]) == if p < published + |Flat(batches[..i + 1])| then p + 1 else p
  {
    assert batches[..i + 1][..i] == batches[..i];
    FlatGrows(batches, i + 1);
  }

  lemma {:induction false} FlatGrows(batches: seq<seq<Message>>, i: nat)
    requires i <= |batches|
    ensures |Flat(batches[..i])| <= |Flat(batches)|
    decreases |batches|
  {
    if i == |batches| {
      assert batches[..i] == batches;
    } else {
      var n := |batches| - 1;
      FlatGrows(batches[..n], i);
      assert batches[..n][..i] == batches[..i];
    }
  }

  lemma ReceiveKeeps(r: Ring, h: History, m: Message)
    requires CanRead(r, h) && !r.writing && !r.reading && h.published + 1 < h.passed + MESSAGE_RING_SIZE
    ensures Shaped(r) && Next(r, Store(m)).writing && !Next(r, Store(m)).reading
    ensures !Next(Next(r, Store(m)), Publish).writing && !Next(Next(r, Store(m)), Publish).reading
    ensures CanRead(Next(Next(r, Store(m)), Publish), h.(log := h.log + [m], published := h.published + 1))
  {
    StepKeeps(r, h, Store(m));
    StepKeeps(Next(r, Store(m)), Record(r, h, Store(m)), Publish);
    hide Consistent, HeadIs, TailIs, Wanted, Wrapped;
  }

  /** The reader keeps up and has not jumped to the head of a ring without messages. */
  ghost predicate CanRead(r: Ring, h: History) {
    Consistent(r, h) && Roomy(r, h) && Sound(r, h)
  }

  /** What a check, and a fetch if it sees a message, make of the ring and its history. */
  lemma TryKeeps(r: Ring, h: History, kind: nat)
    requires CanRead(r, h) && !r.reading
    ensures var met, after := Next(r, Check), Record(r, h, Check);
      && h.passed <= h.published <= |h.log|
      && (met.reading <==> h.passed < h.published)
      && (!met.reading ==> CanRead(met, after) && after == h)
      && (met.reading ==>
            && CanRead(Next(met, Fetch(kind)), Record(met, after, Fetch(kind)))
            && Fetched(met, kind) == (if IsWanted(h.log[h.passed], kind) then [h.log[h.passed]] else [])
            && Record(met, after, Fetch(kind)).log == h.log && Record(met, after, Fetch(kind)).published == h.published
            && Record(met, after, Fetch(kind)).passed == h.passed + 1)
  {
    hide Tracked, HeadIs, TailIs, Wanted, Wrapped, Intact;
    TrackedIs(r, h);
    CheckKeeps(r, h);
    var met, after := Next(r, Check), Record(r, h, Check);
    if met.reading {
      TrackedIs(met, after);
      FetchKeeps(met, after, kind);
    }
  }

  lemma TrackedIs(r: Ring, h: History)
    requires Tracked(r, h)
    ensures Shaped(r) && h.published <= |h.log|
  {
  }

  lemma PassedIs(r: Ring, h: History)
    requires CanRead(r, h)
    ensures h.passed <= h.published <= |h.log| && (!r.writing ==> h.published == |h.log|)
  {
  }

  // ----- The threads -----

  /** The members of `Agent` that the two threads share. */
  class AgentRing {
    const ring: array<Message>
    var head: nat
    var tail: nat
    /** The writer's local index, between its two steps. */
    var newPosition: nat
    ghost var writing: bool
    ghost var reading: bool

    ghost function State(): Ring
      reads this, ring
    {
      Ring(ring[..], head, tail, writing, reading)
    }

    ghost predicate Valid()
      reads this, ring
    {
      Shaped(State()) && (writing ==> newPosition == Wrapped(head + 1))
    }

    constructor (blank: Message)
      ensures Valid() && fresh(ring) && State() == Empty(ring[..])
    {
      ring := new Message[MESSAGE_RING_SIZE](_ => blank);
      head, tail, newPosition := MESSAGE_RING_SIZE, MESSAGE_RING_SIZE, 0;
      writing, reading := false, false;
    }

    /** The writer fills the next slot. */
    method StoreStep(m: Message)
      requires Valid() && !writing
      modifies this, ring
      ensures Valid() && State() == Next(old(State()), Store(m))
    {
      newPosition := head + 1;
      if newPosition >= ring.Length {
        newPosition := 0;
      }
      ring[newPosition] := m;
      writing := true;
    }

    /** The writer publishes the slot. */
    method PublishStep()
      requires Valid() && writing
      modifies this
      ensures Valid() && State() == Next(old(State()), Publish)
    {
      head := newPosition;
      writing := false;
    }

    /** The reader looks whether a message waits, and passes on to it. */
    method CheckStep() returns (seen: bool)
      requires Valid() && !reading
      modifies this
      ensures Valid() && State() == Next(old(State()), Check) && seen == reading && unchanged(`writing)
    {
      seen := head != tail;
      if seen {
        tail := tail + 1;
        if tail >= ring.Length {
          tail := 0;
        }
        reading := true;
      }
    }

    /** With no time to wait, the reader passes on without looking. */
    method AdvanceStep()
      requires Valid() && !reading
      modifies this
      ensures Valid() && State() == Next(old(State()), Advance)
    {
      tail := tail + 1;
      if tail >= ring.Length {
        tail := 0;
      }
      reading := true;
    }

    /** The reader takes the message, if it is of the type asked for. */
    method FetchStep(kind: nat) returns (got: seq<Message>)
      requires Valid() && reading
      modifies this
      ensures Valid() && State() == Next(old(State()), Fetch(kind)) && got == Fetched(old(State()), kind)
      ensures unchanged(`writing)
    {
      got := if IsWanted(ring[tail], kind) then [ring[tail]] else [];
      reading := false;
    }

    /** `clearring`. */
    method ClearRing()
      requires Valid() && !reading
      modifies this
      ensures Valid() && State() == Next(old(State()), Clear)
    {
      tail := head;
    }

    /** The start of a read at the head. */
    method SeekStep()
      requires Valid() && !reading
      modifies this
      ensures Valid() && State() == Next(old(State()), SeekHead)
    {
      tail := if head == 0 then ring.Length - 1 else head - 1;
    }

    /** One try of `readring`. */
    method TryOnce(kind: nat, ghost h: History) returns (got: seq<Message>, ghost after: History)
      requires Valid() && !reading && CanRead(State(), h)
      modifies this
      ensures Valid() && !reading && CanRead(State(), after) && unchanged(`writing)
      ensures after.log == h.log && after.published == h.published && h.passed <= h.published <= |h.log|
      ensures after.passed == if h.passed < h.published then h.passed + 1 else h.passed
      ensures got == if h.passed < h.published && IsWanted(h.log[h.passed], kind) then [h.log[h.passed]] else []
    {
      got := [];
      TryKeeps(State(), h, kind);
      after := Record(State(), h, Check);
      hide Consistent, Record, Next, Fetched, CanRead;
      var seen := CheckStep();
      if seen {
        after := Record(State(), after, Fetch(kind));
        got := FetchStep(kind);
      }
    }

    /** The writer stores and publishes messages while the reader sleeps. */
    method Receive(batch: seq<Message>, ghost h: History) returns (ghost after: History)
      requires Valid() && !reading && !writing && CanRead(State(), h)
      requires h.published + |batch| < h.passed + MESSAGE_RING_SIZE
      modifies this, ring
      ensures Valid() && !reading && !writing && CanRead(State(), after)
      ensures after.log == h.log + batch && after.passed == h.passed && after.published == h.published + |batch|
    {
      hide Next, Shaped, CanRead, Consistent;
      after := h;
      for i := 0 to |batch|
        invariant Valid() && !reading && !writing && CanRead(State(), after)
        invariant after.log == h.log + batch[..i] && after.passed == h.passed && after.published == h.published + i
      {
        ReceiveKeeps(State(), after, batch[i]);
        assert batch[..i + 1] == batch[..i] + [batch[i]];
        StoreStep(batch[i]);
        PublishStep();
        after := after.(log := after.log + [batch[i]], published := after.published + 1);
      }
      assert batch[..|batch|] == batch;
    }

    /** `readring` at the tail, with time for as many tries as there are batches of messages that
        arrive before them: it passes one waiting message a try, and gives the first that has the
        type. */
    method ReadTail(kind: nat, arrivals: seq<seq<Message>>, ghost h: History)
      returns (got: seq<Message>, ghost tries: nat, ghost after: History)
      requires Valid() && !reading && !writing && CanRead(State(), h)
      requires h.published + |Flat(arrivals)| < h.passed + MESSAGE_RING_SIZE
      modifies this, ring
      ensures Valid() && !reading && !writing && CanRead(State(), after)
      ensures tries <= |arrivals| && Progress(h, after, arrivals[..tries], got, kind)
      ensures got == [] ==> tries == |arrivals|
    {
      after, got, tries := h, [], 0;
      PassedIs(State(), h);
      assert arrivals[..0] == [];
      NoProgress(h, kind);
      hide *;
      var i := 0;
      while i < |arrivals| && got == []
        invariant Valid() && !reading && !writing && CanRead(State(), after) && tries == i <= |arrivals|
        invariant Progress(h, after, arrivals[..i], got, kind)
      {
        ProgressIs(h, after, arrivals[..i], kind);
        NextFlat(arrivals, i, h.passed, h.published);
        ghost var before := after;
        after := Receive(arrivals[i], before);
        ghost var received := after;
        got, after := TryOnce(kind, received);
        MoreProgress(h, before, received, after, arrivals, i, got, kind);
        i, tries := i + 1, tries + 1;
      }
    }

    /** `readring` at the head: the newest message is the first that is passed, whatever the reader
        has missed before. */
    method ReadHead(kind: nat, arrivals: seq<seq<Message>>, ghost h: History)
      returns (got: seq<Message>, ghost tries: nat, ghost after: History)
      requires Valid() && !reading && !writing && Tracked(State(), h)
      requires h.published > 0 && |Flat(arrivals)| + 1 < MESSAGE_RING_SIZE
      modifies this, ring
      ensures Valid() && !reading && !writing && CanRead(State(), after)
      ensures tries <= |arrivals| && (got == [] ==> tries == |arrivals|)
      ensures Progress(Restarted(h, h.published - 1), after, arrivals[..tries], got, kind)
    {
      SeekKeeps(State(), h);
      SeekStep();
      hide *;
      got, tries, after := ReadTail(kind, arrivals, Restarted(h, h.published - 1));
    }

    /** `readring` with no time to wait: it passes one message blindly, and gives that message if it
        is stored, not written over and of the type. Otherwise it is lost. */
    method ReadNow(kind: nat, ghost h: History) returns (got: seq<Message>, ghost after: History)
      requires Valid() && !reading && Tracked(State(), h)
      modifies this
      ensures Valid() && !reading && Tracked(State(), after) && unchanged(`writing)
      ensures after.log == h.log && after.published == h.published && after.passed == h.passed + 1
      ensures if h.passed < |h.log| <= h.passed + MESSAGE_RING_SIZE
              then after.lost == h.lost && got == if IsWanted(h.log[h.passed], kind) then [h.log[h.passed]] else []
              else after.lost
    {
      MoveTracks(State(), h);
      ghost var met := h.(passed := h.passed + 1);
      AdvanceStep();
      FetchTracks(State(), met, kind);
      after := Record(State(), met, Fetch(kind));
      got := FetchStep(kind);
    }
  }
}
