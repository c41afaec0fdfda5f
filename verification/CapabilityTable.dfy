/** What a router knows of remote nodes, and what that table means in terms of the messages received. */
module CapabilityTable {
  import opened Common
  import opened Messages

  const STALE_AFTER: real := 300.0

  datatype NodeRecord = NodeRecord(caps: map<string, AgentCapability>, lastSeen: real)

  type Table = map<string, NodeRecord>

  /** Agents by name; of two with one name the later one stays. */
  function ByName(caps: seq<AgentCapability>): map<string, AgentCapability> {
    if |caps| == 0 then map[] else ByName(caps[..|caps| - 1])[caps[|caps| - 1].agentName := caps[|caps| - 1]]
  }

  function Upsert(t: Table, node: string, caps: seq<AgentCapability>, now: real): Table {
    t[node := NodeRecord(ByName(caps), now)]
  }

  function Without(caps: map<string, AgentCapability>, names: seq<string>): map<string, AgentCapability> {
    map n | n in caps && n !in names :: caps[n]
  }

  function WithdrawAgents(t: Table, node: string, names: seq<string>, now: real): Table {
    if node in t then t[node := NodeRecord(Without(t[node].caps, names), now)] else t
  }

  function Refresh(t: Table, node: string, now: real): Table {
    if node in t then t[node := t[node].(lastSeen := now)] else t
  }

  predicate IsStale(lastSeen: real, now: real) {
    now - lastSeen > STALE_AFTER
  }

  /** One sweep keeps exactly the records that are not stale. */
  function SweepStale(t: Table, now: real): Table {
    map n | n in t && !IsStale(t[n].lastSeen, now) :: t[n]
  }

  predicate CanHandle(caps: map<string, AgentCapability>, task: string) {
    exists n :: n in caps && task in caps[n].tasks
  }

  function NodesForTask(t: Table, task: string): set<string> {
    set n | n in t && CanHandle(t[n].caps, task)
  }

  // --- the classes -------------------------------------------------------------------------

  class RemoteNodeInfo {
    const nodeId: string
    var capabilities: map<string, AgentCapability>
    var lastSeen: real

    constructor (nodeId: string, caps: seq<AgentCapability>, now: real)
      ensures this.nodeId == nodeId && View() == NodeRecord(ByName(caps), now)
    {
      this.nodeId := nodeId;
      capabilities, lastSeen := ByName(caps), now;
    }

    ghost function View(): NodeRecord
      reads this
    {
      NodeRecord(capabilities, lastSeen)
    }

    /** Every task of every agent, collected in a loop over the agents. */
    method Tasks() returns (result: set<string>)
      ensures forall task :: task in result <==> CanHandle(capabilities, task)
    {
      result := {};
      var rest := capabilities.Keys;
      while rest != {}
        invariant rest <= capabilities.Keys
        invariant forall task :: task in result <==> exists n :: n in capabilities && n !in rest && task in capabilities[n].tasks
        decreases rest
      {
        var name :| name in rest;
        rest := rest - {name};
        result := result + set t | t in capabilities[name].tasks;
      }
    }

    method Update(caps: seq<AgentCapability>, now: real)
      modifies this
      ensures View() == NodeRecord(ByName(caps), now)
    {
      capabilities := map[];
      for i := 0 to |caps|
        invariant capabilities == ByName(caps[..i])
      {
        assert caps[..i + 1][..i] == caps[..i];
        capabilities := capabilities[caps[i].agentName := caps[i]];
      }
      assert caps[..|caps|] == caps;
      lastSeen := now;
    }

    method Withdraw(names: seq<string>, now: real)
      modifies this
      ensures View() == NodeRecord(Without(old(capabilities), names), now)
    {
      for i := 0 to |names|
        invariant capabilities == Without(old(capabilities), names[..i])
      {
        assert names[..i + 1] == names[..i] + [names[i]];
        capabilities := capabilities - {names[i]};
      }
      assert names[..|names|] == names;
      lastSeen := now;
    }

    method Touch(now: real)
      modifies this`lastSeen
      ensures View() == old(View()).(lastSeen := now)
    {
      lastSeen := now;
    }
  }

  /** The router's table of remote nodes. */
  class RemoteNodes {
    var nodes: map<string, RemoteNodeInfo>

    constructor ()
      ensures Valid() && View() == map[]
    {
      nodes := map[];
    }

    ghost predicate Valid()
      reads this, nodes.Values
    {
      && (forall n :: n in nodes ==> nodes[n].nodeId == n)
      && (forall a, b :: a in nodes && b in nodes && a != b ==> nodes[a] != nodes[b])
    }

    ghost function View(): Table
      reads this, nodes.Values
    {
      map n | n in nodes :: nodes[n].View()
    }

    method UpsertNode(node: string, caps: seq<AgentCapability>, now: real)
      requires Valid()
      modifies this, nodes.Values
      ensures Valid() && View() == Upsert(old(View()), node, caps, now)
      ensures fresh(nodes.Values - old(nodes.Values))
    {
      if node in nodes {
        nodes[node].Update(caps, now);
      } else {
        var info := new RemoteNodeInfo(node, caps, now);
        nodes := nodes[node := info];
      }
    }

    method WithdrawFrom(node: string, names: seq<string>, now: real)
      requires Valid()
      modifies nodes.Values
      ensures Valid() && View() == WithdrawAgents(old(View()), node, names, now)
    {
      if node in nodes {
        nodes[node].Withdraw(names, now);
      }
    }

    method HeartbeatFrom(node: string, now: real)
      requires Valid()
      modifies nodes.Values
      ensures Valid() && View() == Refresh(old(View()), node, now)
    {
      if node in nodes {
        nodes[node].Touch(now);
      }
    }

    /** The second half of the eviction loop's body. */
    method EvictStale(now: real)
      requires Valid()
      modifies this
      ensures Valid() && View() == SweepStale(old(View()), now)
      ensures nodes.Values <= old(nodes.Values)
    {
      var stale := set n | n in nodes && IsStale(nodes[n].lastSeen, now);
      nodes := nodes - stale;
    }

    method NodesFor(task: string) returns (result: set<string>)
      requires Valid()
      ensures result == NodesForTask(View(), task)
    {
      result := {};
      var rest := nodes.Keys;
      while rest != {}
        invariant rest <= nodes.Keys
        invariant result == set n | n in nodes && n !in rest && CanHandle(nodes[n].capabilities, task)
        decreases rest
      {
        var n :| n in rest;
        rest := rest - {n};
        var tasks := nodes[n].Tasks();
        if task in tasks {
          result := result + {n};
        }
      }
    }
  }

  // --- the table as a replay of messages ------------------------------------------------------

  datatype Event =
    | Announced(node: string, caps: seq<AgentCapability>, now: real)
    | Withdrawn(node: string, names: seq<string>, now: real)
    | Beat(node: string, now: real)
    | Swept(now: real)

  function Step(t: Table, e: Event): Table {
    match e
    case Announced(node, caps, now) => Upsert(t, node, caps, now)
    case Withdrawn(node, names, now) => WithdrawAgents(t, node, names, now)
    case Beat(node, now) => Refresh(t, node, now)
    case Swept(now) => SweepStale(t, now)
  }

  function Replay(log: seq<Event>): Table {
    if |log| == 0 then map[] else Step(Replay(log[..|log| - 1]), log[|log| - 1])
  }

  /** The event is a message from the node. */
  predicate From(e: Event, node: string) {
    !e.Swept? && e.node == node
  }

  /** When the node was last heard in the log, whatever it said. */
  function LastHeard(log: seq<Event>, node: string): Option<real> {
    if |log| == 0 then None
    else if From(log[|log| - 1], node) then Some(log[|log| - 1].now)
    else LastHeard(log[..|log| - 1], node)
  }

  /** The k-th event is a sweep at which the node had been silent for too long. */
  ghost predicate EvictsAt(log: seq<Event>, k: int, node: string) {
    0 <= k < |log| && log[k].Swept? && LastHeard(log[..k], node).Some? && log[k].now - LastHeard(log[..k], node).value > 300.0
  }

  /** The i-th event is the node's latest announce or reply, and no sweep evicted the node after it. */
  ghost predicate CurrentAnnounce(log: seq<Event>, i: int, node: string) {
    && 0 <= i < |log| && log[i].Announced? && log[i].node == node
    && forall k :: i < k < |log| ==>
      !(log[k].Announced? && log[k].node == node) && !EvictsAt(log, k, node)
  }

  /** The j-th agent of the list is the last one of its name. */
  ghost predicate LastOfName(caps: seq<AgentCapability>, j: int) {
    0 <= j < |caps| && forall k :: j < k < |caps| ==> caps[k].agentName != caps[j].agentName
  }

  ghost predicate WithdrawnSince(log: seq<Event>, i: int, node: string, name: string) {
    exists k: nat :: i < k < |log| && log[k].Withdrawn? && log[k].node == node && name in log[k].names
  }

  /** The node offers the task: its current announce lists an agent for it that was not withdrawn since. */
  ghost predicate Offers(log: seq<Event>, node: string, task: string) {
    exists i, j :: CurrentAnnounce(log, i, node) && OfferedBy(log, i, j, node, task)
  }

  ghost predicate OfferedBy(log: seq<Event>, i: int, j: int, node: string, task: string) {
    && 0 <= i < |log| && log[i].Announced? && LastOfName(log[i].caps, j)
    && task in log[i].caps[j].tasks && !WithdrawnSince(log, i, node, log[i].caps[j].agentName)
  }

  lemma {:induction false} LastIsStored(caps: seq<AgentCapability>, j: int)
    requires LastOfName(caps, j)
    ensures caps[j].agentName in ByName(caps) && ByName(caps)[caps[j].agentName] == caps[j]
  {
    var front := caps[..|caps| - 1];
    if j < |front| {
      assert front[j] == caps[j] && LastOfName(front, j);
      LastIsStored(front, j);
    }
  }

  lemma {:induction false} StoredHasLast(caps: seq<AgentCapability>, name: string) returns (j: int)
    requires name in ByName(caps)
    ensures LastOfName(caps, j) && caps[j].agentName == name
  {
    var n := |caps| - 1;
    if caps[n].agentName == name {
      j := n;
    } else {
      j := StoredHasLast(caps[..n], name);
      assert caps[..n][j] == caps[j];
      assert forall k :: j < k < n ==> caps[..n][k] == caps[k];
    }
  }

  /** What the replayed table says of one node, in terms of the log: no record without a current announce, and with
      one the record holds the agents not withdrawn since and the time the node was last heard. */
  ghost predicate RecordMatches(t: Table, log: seq<Event>, node: string) {
    && (node in t <==> exists i :: CurrentAnnounce(log, i, node))
    && (node in t ==> LastHeard(log, node) == Some(t[node].lastSeen))
    && (forall i :: CurrentAnnounce(log, i, node) ==> node in t && AgentsMatch(t[node].caps, log, i, node))
  }

  ghost predicate AgentsMatch(caps: map<string, AgentCapability>, log: seq<Event>, i: int, node: string)
    requires CurrentAnnounce(log, i, node)
  {
    var announced := ByName(log[i].caps);
    && (forall name :: name in caps <==> name in announced && !WithdrawnSince(log, i, node, name))
    && (forall name :: name in caps ==> caps[name] == announced[name])
  }

  lemma EvictsAtPrefix(log: seq<Event>, k: int, node: string)
    requires |log| > 0 && k < |log| - 1
    ensures EvictsAt(log, k, node) <==> EvictsAt(log[..|log| - 1], k, node)
  {
    if 0 <= k { assert log[..|log| - 1][..k] == log[..k]; }
  }

  /** How the latest event changes which announce is current. */
  lemma CurrentAnnounceStep(log: seq<Event>, i: int, node: string)
    requires |log| > 0 && i < |log| - 1
    ensures var last := log[|log| - 1];
      CurrentAnnounce(log, i, node) <==>
        CurrentAnnounce(log[..|log| - 1], i, node)
        && !(last.Announced? && last.node == node) && !EvictsAt(log, |log| - 1, node)
  {
    var front := log[..|log| - 1];
    forall k | i < k < |front| ensures EvictsAt(log, k, node) <==> EvictsAt(front, k, node) { EvictsAtPrefix(log, k, node); }
    if CurrentAnnounce(log, i, node) {
      forall k | i < k < |front| ensures !(front[k].Announced? && front[k].node == node) && !EvictsAt(front, k, node) {
        assert front[k] == log[k];
      }
    }
  }

  lemma WithdrawnSinceStep(log: seq<Event>, i: int, node: string, name: string)
    requires |log| > 0 && i < |log| - 1
    ensures var last := log[|log| - 1];
      WithdrawnSince(log, i, node, name) <==>
        WithdrawnSince(log[..|log| - 1], i, node, name) || (last.Withdrawn? && last.node == node && name in last.names)
  {
    var front := log[..|log| - 1];
    if WithdrawnSince(front, i, node, name) {
      var k: nat :| i < k < |front| && front[k].Withdrawn? && front[k].node == node && name in front[k].names;
      assert log[k] == front[k];
    }
    if WithdrawnSince(log, i, node, name) {
      var k: nat :| i < k < |log| && log[k].Withdrawn? && log[k].node == node && name in log[k].names;
      if k < |front| { assert log[k] == front[k]; }
    }
  }

  /** A sweep keeps a matching record and removes one that has gone silent. */
  lemma SweepMatches(log: seq<Event>, node: string)
    requires |log| > 0 && log[|log| - 1].Swept? && RecordMatches(Replay(log[..|log| - 1]), log[..|log| - 1], node)
    ensures RecordMatches(Replay(log), log, node)
  {
    hide EvictsAt, CurrentAnnounce;
    var front, t := log[..|log| - 1], Replay(log[..|log| - 1]);
    var n := |log| - 1;
    CurrentIsAnnounce(log, n, node);
    forall i | i < n ensures CurrentAnnounce(log, i, node) <==> CurrentAnnounce(front, i, node) && !EvictsAt(log, n, node) {
      CurrentAnnounceStep(log, i, node);
    }
    SweepEvicts(log, node);
    forall i | CurrentAnnounce(log, i, node) ensures node in Replay(log) && AgentsMatch(Replay(log)[node].caps, log, i, node) {
      CurrentRange(log, i, node);
      CurrentRange(front, i, node);
      forall name ensures WithdrawnSince(log, i, node, name) <==> WithdrawnSince(front, i, node, name) {
        WithdrawnSinceStep(log, i, node, name);
      }
      assert log[i] == front[i];
    }
    if node in Replay(log) {
      var i :| CurrentAnnounce(front, i, node);
      CurrentRange(front, i, node);
      assert CurrentAnnounce(log, i, node);
    }
  }

  lemma SweepEvicts(log: seq<Event>, node: string)
    requires |log| > 0 && log[|log| - 1].Swept?
    ensures var t := Replay(log[..|log| - 1]);
      node in t && LastHeard(log[..|log| - 1], node) == Some(t[node].lastSeen) ==>
        (node in Replay(log) <==> !EvictsAt(log, |log| - 1, node))
  {
  }

  lemma CurrentRange(log: seq<Event>, i: int, node: string)
    requires CurrentAnnounce(log, i, node)
    ensures 0 <= i < |log| && log[i].Announced? && log[i].node == node
  {
  }

  lemma CurrentIsAnnounce(log: seq<Event>, i: int, node: string)
    ensures CurrentAnnounce(log, i, node) ==> 0 <= i < |log| && log[i].Announced? && log[i].node == node
  {
  }

  /** An announce by the node makes itself current. */
  lemma AnnounceMatches(log: seq<Event>, node: string)
    requires |log| > 0 && log[|log| - 1].Announced? && log[|log| - 1].node == node
    ensures RecordMatches(Replay(log), log, node)
  {
    var n := |log| - 1;
    assert CurrentAnnounce(log, n, node);
    assert forall i :: CurrentAnnounce(log, i, node) ==> i >= n;
    forall name ensures !WithdrawnSince(log, n, node, name) { }
  }

  /** A message other than an announce of the node takes away exactly the agents it withdraws. */
  lemma AgentsAfterMessage(log: seq<Event>, i: int, node: string)
    requires |log| > 0 && !log[|log| - 1].Swept? && !(log[|log| - 1].Announced? && log[|log| - 1].node == node)
    requires CurrentAnnounce(log[..|log| - 1], i, node) && CurrentAnnounce(log, i, node)
    requires node in Replay(log[..|log| - 1]) && AgentsMatch(Replay(log[..|log| - 1])[node].caps, log[..|log| - 1], i, node)
    ensures node in Replay(log) && AgentsMatch(Replay(log)[node].caps, log, i, node)
  {
    hide CurrentAnnounce, WithdrawnSince, ByName;
    var front, last := log[..|log| - 1], log[|log| - 1];
    CurrentRange(front, i, node);
    assert log[i] == front[i];
    forall name ensures WithdrawnSince(log, i, node, name) <==>
        WithdrawnSince(front, i, node, name) || (last.Withdrawn? && last.node == node && name in last.names)
    {
      WithdrawnSinceStep(log, i, node, name);
    }
  }

  /** Any other message of the node, or a message of another node. */
  lemma OtherMessageMatches(log: seq<Event>, node: string)
    requires |log| > 0 && !log[|log| - 1].Swept? && !(log[|log| - 1].Announced? && log[|log| - 1].node == node)
    requires RecordMatches(Replay(log[..|log| - 1]), log[..|log| - 1], node)
    ensures RecordMatches(Replay(log), log, node)
  {
    hide CurrentAnnounce, AgentsMatch, EvictsAt;
    var front := log[..|log| - 1];
    assert !EvictsAt(log, |log| - 1, node) by { OnlySweepsEvict(log, |log| - 1, node); }
    forall i ensures CurrentAnnounce(log, i, node) <==> CurrentAnnounce(front, i, node) {
      CurrentIsAnnounce(log, i, node);
      CurrentIsAnnounce(front, i, node);
      if i < |front| { CurrentAnnounceStep(log, i, node); }
    }
    forall i | CurrentAnnounce(log, i, node) ensures node in Replay(log) && AgentsMatch(Replay(log)[node].caps, log, i, node) {
      AgentsAfterMessage(log, i, node);
    }
  }

  lemma OnlySweepsEvict(log: seq<Event>, k: int, node: string)
    ensures EvictsAt(log, k, node) ==> 0 <= k < |log| && log[k].Swept?
  {
  }

  /** The table is what the log says, for every log and every node. */
  lemma {:induction false} ReplayMatches(log: seq<Event>, node: string)
    ensures RecordMatches(Replay(log), log, node)
  {
    hide RecordMatches;
    if |log| > 0 {
      ReplayMatches(log[..|log| - 1], node);
      var last := log[|log| - 1];
      if last.Swept? {
        SweepMatches(log, node);
      } else if last.Announced? && last.node == node {
        AnnounceMatches(log, node);
      } else {
        OtherMessageMatches(log, node);
      }
    } else {
      EmptyMatches(node);
    }
  }

  lemma EmptyMatches(node: string)
    ensures RecordMatches(Replay([]), [], node)
  {
  }

  /** nodes_for_task holds a node exactly when the log says that the node offers the task. */
  lemma TableRefinesLog(log: seq<Event>, node: string, task: string)
    ensures node in NodesForTask(Replay(log), task) <==> Offers(log, node, task)
  {
    hide CurrentAnnounce, LastHeard, Replay;
    ReplayMatches(log, node);
    var t := Replay(log);
    if node in NodesForTask(t, task) {
      var name :| name in t[node].caps && task in t[node].caps[name].tasks;
      var i :| CurrentAnnounce(log, i, node);
      CurrentRange(log, i, node);
      var j := StoredHasLast(log[i].caps, name);
      LastIsStored(log[i].caps, j);
      assert OfferedBy(log, i, j, node, task);
    }
    if Offers(log, node, task) {
      var i, j :| CurrentAnnounce(log, i, node) && OfferedBy(log, i, j, node, task);
      LastIsStored(log[i].caps, j);
      assert log[i].caps[j].agentName in t[node].caps;
    }
  }

  // --- heartbeats ---------------------------------------------------------------------------------

  function WithoutBeats(log: seq<Event>): seq<Event> {
    if |log| == 0 then []
    else WithoutBeats(log[..|log| - 1]) + (if log[|log| - 1].Beat? then [] else [log[|log| - 1]])
  }

  /** No event is later than the next. */
  ghost predicate InOrder(log: seq<Event>) {
    forall i :: 0 < i < |log| ==> log[i - 1].now <= log[i].now
  }

  /** The same agents of the same nodes, except that t may hold further nodes and heard from each later or as late. */
  ghost predicate Covers(t: Table, t': Table) {
    forall n :: n in t' ==> n in t && t[n].caps == t'[n].caps && t'[n].lastSeen <= t[n].lastSeen
  }

  lemma {:induction false} HeardByNow(log: seq<Event>)
    requires InOrder(log) && |log| > 0
    ensures forall n :: n in Replay(log) ==> Replay(log)[n].lastSeen <= log[|log| - 1].now
  {
    hide ByName, Without;
    var front := log[..|log| - 1];
    if |front| > 0 {
      assert InOrder(front);
      HeardByNow(front);
    }
  }

  /** With a clock that does not go back, heartbeats never cost a node its offers: they only keep it from being evicted,
      and without sweeps they make no difference to who offers what. */
  lemma HeartbeatsOnlyKeep(log: seq<Event>, task: string)
    requires InOrder(log)
    ensures Covers(Replay(log), Replay(WithoutBeats(log)))
    ensures NodesForTask(Replay(WithoutBeats(log)), task) <= NodesForTask(Replay(log), task)
    ensures (forall i :: 0 <= i < |log| ==> !log[i].Swept?) ==>
      NodesForTask(Replay(WithoutBeats(log)), task) == NodesForTask(Replay(log), task)
  {
    CoversWithoutBeats(log);
  }

  lemma {:induction false} CoversWithoutBeats(log: seq<Event>)
    requires InOrder(log)
    ensures Covers(Replay(log), Replay(WithoutBeats(log)))
    ensures (forall i :: 0 <= i < |log| ==> !log[i].Swept?) ==> Replay(WithoutBeats(log)).Keys == Replay(log).Keys
  {
    hide Step, Covers;
    if |log| > 0 {
      var front, last := log[..|log| - 1], log[|log| - 1];
      assert InOrder(front);
      CoversWithoutBeats(front);
      var kept := WithoutBeats(front);
      ReplayLast(kept, last);
      assert WithoutBeats(log) == if last.Beat? then kept else kept + [last];
      assert forall n :: n in Replay(front) ==> Replay(front)[n].lastSeen <= last.now by {
        if |front| > 0 { HeardByNow(front); }
      }
      CoversStep(Replay(front), Replay(kept), last);
    } else {
      assert Covers(map[], map[]) by { NothingCovers(); }
    }
  }

  lemma ReplayLast(log: seq<Event>, e: Event)
    ensures Replay(log + [e]) == Step(Replay(log), e)
  {
    hide Step;
    assert (log + [e])[..|log|] == log;
  }

  lemma NothingCovers()
    ensures Covers(map[], map[])
  {
  }

  lemma CoversStep(t: Table, t': Table, e: Event)
    requires Covers(t, t') && forall n :: n in t ==> t[n].lastSeen <= e.now
    ensures Covers(Step(t, e), if e.Beat? then t' else Step(t', e))
    ensures !e.Swept? && t.Keys == t'.Keys ==> Step(t, e).Keys == (if e.Beat? then t' else Step(t', e)).Keys
  {
    hide ByName, Without;
  }
}
