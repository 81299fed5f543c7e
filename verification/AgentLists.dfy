/** The lists of agents kept by libraries/agent/agentclass.cpp: the latest heartbeat of every agent
    in `message_loop`, and the servers by port in `find_servers`. */
module AgentLists {
  datatype AgentId = AgentId(node: string, proc: string)

  datatype Beat = Beat(id: AgentId, port: int, utc: real)

  // ----- The latest heartbeat of every agent -----

  predicate IsHeard(beats: seq<Beat>, id: AgentId) {
    exists k | 0 <= k < |beats| :: beats[k].id == id
  }

  /** The agents in the order in which they were first heard. */
  function FirstHeard(beats: seq<Beat>): (ids: seq<AgentId>)
    ensures forall i, j | 0 <= i < j < |ids| :: ids[i] != ids[j]
    ensures forall k | 0 <= k < |beats| :: beats[k].id in ids
    ensures forall i | 0 <= i < |ids| :: IsHeard(beats, ids[i])
  {
    if beats == [] then []
    else
      var earlier, last := FirstHeard(beats[..|beats| - 1]), beats[|beats| - 1];
      HeardSoFar(beats[..|beats| - 1], beats, earlier);
      if last.id in earlier then earlier else earlier + [last.id]
  }

  lemma HeardSoFar(earlier: seq<Beat>, beats: seq<Beat>, ids: seq<AgentId>)
    requires beats != [] && earlier == beats[..|beats| - 1] && forall i | 0 <= i < |ids| :: IsHeard(earlier, ids[i])
    ensures forall i | 0 <= i < |ids| :: IsHeard(beats, ids[i])
    ensures IsHeard(beats, beats[|beats| - 1].id)
  {
    forall i | 0 <= i < |ids|
      ensures IsHeard(beats, ids[i])
    {
      assert IsHeard(earlier, ids[i]);
      var k :| 0 <= k < |earlier| && earlier[k].id == ids[i];
      assert beats[k].id == ids[i];
    }
  }

  /** The last heartbeat of an agent that has been heard. */
  function Latest(beats: seq<Beat>, id: AgentId): (r: Beat)
    requires id in FirstHeard(beats)
    ensures r.id == id && r in beats
  {
    var last := beats[|beats| - 1];
    if last.id == id then last else Latest(beats[..|beats| - 1], id)
  }

  /** Agents in the order in which they were first heard, each once, with its latest heartbeat. */
  ghost predicate IsAgentList(list: seq<Beat>, beats: seq<Beat>) {
    && |list| == |FirstHeard(beats)|
    && forall i | 0 <= i < |list| :: list[i] == Latest(beats, FirstHeard(beats)[i])
  }

  lemma HeardAfter(beats: seq<Beat>, b: Beat)
    ensures FirstHeard(beats + [b]) == if b.id in FirstHeard(beats) then FirstHeard(beats)
              else FirstHeard(beats) + [b.id]
  {
    assert (beats + [b])[..|beats|] == beats;
  }

  lemma LatestAfter(beats: seq<Beat>, b: Beat, id: AgentId)
    requires id in FirstHeard(beats) || id == b.id
    ensures id in FirstHeard(beats + [b])
    ensures Latest(beats + [b], id) == if id == b.id then b else Latest(beats, id)
  {
    HeardAfter(beats, b);
    assert (beats + [b])[..|beats|] == beats;
  }

  lemma IdsListed(list: seq<Beat>, beats: seq<Beat>)
    requires IsAgentList(list, beats)
    ensures forall j | 0 <= j < |list| :: list[j].id == FirstHeard(beats)[j]
  {
  }

  /** Replacing the agent's entry, or appending one, makes the list of one more heartbeat. */
  lemma HearKeeps(list: seq<Beat>, beats: seq<Beat>, b: Beat, i: nat)
    requires IsAgentList(list, beats) && i <= |list| && (i < |list| ==> list[i].id == b.id)
    requires forall j | 0 <= j < i :: list[j].id != b.id
    ensures IsAgentList(if i < |list| then list[i := b] else list + [b], beats + [b])
  {
    var ids, all := FirstHeard(beats), beats + [b];
    HeardAfter(beats, b);
    hide FirstHeard, Latest;
    IdsListed(list, beats);
    if b.id in ids {
      var k :| 0 <= k < |ids| && ids[k] == b.id;
      assert list[k].id == b.id;
    }
    var now := if i < |list| then list[i := b] else list + [b];
    forall j | 0 <= j < |now|
      ensures now[j] == Latest(all, FirstHeard(all)[j])
    {
      LatestAfter(beats, b, FirstHeard(all)[j]);
    }
  }

  // ----- The servers by port -----

  predicate ByPort(list: seq<Beat>) {
    forall i, j | 0 <= i < j < |list| :: list[i].port <= list[j].port
  }

  /** b has been entered before the first entry whose port is not smaller. */
  ghost predicate IsEntered(before: seq<Beat>, b: Beat, after: seq<Beat>) {
    exists p | 0 <= p <= |before| :: EnteredAt(before, b, after, p)
  }

  predicate EnteredAt(before: seq<Beat>, b: Beat, after: seq<Beat>, p: nat)
    requires p <= |before|
  {
    && after == before[..p] + [b] + before[p..]
    && (forall k | 0 <= k < p :: before[k].port < b.port) && (forall k | p <= k < |before| :: b.port <= before[k].port)
  }

  lemma EnteredByPort(before: seq<Beat>, b: Beat, after: seq<Beat>, p: nat)
    requires ByPort(before) && p <= |before| && EnteredAt(before, b, after, p)
    ensures ByPort(after) && multiset(after) == multiset(before) + multiset{b}
  {
    assert before[..p] + before[p..] == before;
    EntriesAre(before, b, after, p);
    hide EnteredAt;
  }

  lemma EntriesAre(before: seq<Beat>, b: Beat, after: seq<Beat>, p: nat)
    requires p <= |before| && EnteredAt(before, b, after, p)
    ensures |after| == |before| + 1 && after[p] == b && after == before[..p] + [b] + before[p..]
    ensures forall i | 0 <= i < p :: after[i] == before[i] && after[i].port < b.port
    ensures forall i, j | p < i < |after| && j == i - 1 :: after[i] == before[j] && b.port <= after[i].port
  {
  }

  lemma SwapDown(was: seq<Beat>, b: Beat, now: seq<Beat>, j: nat)
    requires 0 < j <= |was| && now == was[..j] + [b] + was[j..]
    ensures now[j] == b && now[j - 1] == was[j - 1]
    ensures now[j := now[j - 1]][j - 1 := now[j]] == was[..j - 1] + [b] + was[j - 1..]
  {
    assert was[..j] == was[..j - 1] + [was[j - 1]] && was[j - 1..] == [was[j - 1]] + was[j..];
  }

  class Agent {
    var agentList: seq<Beat>
    var slist: seq<Beat>

    constructor ()
      ensures agentList == [] && slist == [] && IsAgentList(agentList, [])
    {
      agentList, slist := [], [];
    }

    /** `message_loop`, with a message's heartbeat. */
    method Hear(b: Beat, ghost beats: seq<Beat>)
      requires IsAgentList(agentList, beats)
      modifies this`agentList
      ensures IsAgentList(agentList, beats + [b])
    {
      var i := 0;
      while i < |agentList| && agentList[i].id != b.id
        invariant 0 <= i <= |agentList|
        invariant forall j | 0 <= j < i :: agentList[j].id != b.id
      {
        i := i + 1;
      }
      HearKeeps(agentList, beats, b, i);
      agentList := if i < |agentList| then agentList[i := b] else agentList + [b];
    }

    /** `find_servers`, with a heartbeat: only an agent that is not listed is entered. */
    method Enter(b: Beat)
      requires ByPort(slist)
      modifies this`slist
      ensures ByPort(slist)
      ensures if exists k | 0 <= k < |old(slist)| :: old(slist)[k].id == b.id then slist == old(slist)
              else IsEntered(old(slist), b, slist)
    {
      ghost var was := slist;
      var i := 0;
      while i < |slist| && b.id != slist[i].id
        invariant 0 <= i <= |slist|
        invariant forall j | 0 <= j < i :: slist[j].id != b.id
      {
        i := i + 1;
      }
      if i == |slist| {
        slist := slist + [b];
        var j := i;
        assert slist == was[..j] + [b] + was[j..];
        while j > 0 && slist[j].port <= slist[j - 1].port
          invariant 0 <= j <= |was| && slist == was[..j] + [b] + was[j..]
          invariant forall k | j <= k < |was| :: b.port <= was[k].port
        {
          SwapDown(was, b, slist, j);
          slist := slist[j := slist[j - 1]][j - 1 := slist[j]];
          j := j - 1;
        }
        if j > 0 {
          assert slist[j] == b && slist[j - 1] == was[j - 1];
        }
        assert EnteredAt(was, b, slist, j);
        EnteredByPort(was, b, slist, j);
      }
    }
  }
}
