/** How a node learns what another one offers: by asking, by an announcement, and by a withdrawal. */
module RouterQueries {
  import opened Common
  import opened Messages
  import opened CapabilityTable
  import opened Router
  import opened RouterNet
  import opened RouterRuns
  import opened RouterSlots

  /** The message is a query that reaches the node in time. */
  predicate QueryArrives(s: System, step: NetStep, node: string) {
    Arrives(s, step, node) && step.m.msgType == CapabilityQuery
  }

  /** What a delivery leaves of the messages that were on the network. */
  function Remaining(s: System, step: NetStep): multiset<Message>
    requires step.Deliver? && step.m in s.net
  {
    if step.keep then s.net else s.net - multiset{step.m}
  }

  lemma QueryReply(r: RouterState, m: Message, env: Defaults, local: seq<AgentCapability>)
    ensures Receive(r, ToDict(m), env, local).1
      == if env.now - m.timestamp <= 60.0 && (m.dstNode == "" || m.dstNode == r.nodeId) && m.msgType == CapabilityQuery
         then [NewCapabilityReply(r.nodeId, m.srcNode, m.msgId, local, env.msgId, env.sessionId, env.now)] else []
  {
    DictRoundTrip(m, env);
    hide FromDict, ToDict, CapabilitiesAt, WithdrawnNames, HandleResponse, Record, NewCapabilityReply;
  }

  lemma NetAfter(s: System, step: NetStep)
    requires step.Deliver? && step.node in s.routers && step.m in s.net
    ensures NetNext(s, step).net
      == Remaining(s, step) + multiset(Receive(s.routers[step.node], ToDict(step.m), step.env, step.local).1)
  {
    hide Receive, ToDict;
  }

  lemma ReplySent(states: seq<System>, steps: seq<NetStep>, i: nat) returns (x: Message)
    requires Run(states, steps) && i < |steps| && steps[i].Deliver?
    requires steps[i].node in states[i].routers && steps[i].m in states[i].net
    ensures states[i + 1].net == Remaining(states[i], steps[i])
                                 + if QueryArrives(states[i], steps[i], steps[i].node) then multiset{x} else multiset{}
    ensures x == NewCapabilityReply(steps[i].node, steps[i].m.srcNode, steps[i].m.msgId, steps[i].local,
                                    steps[i].env.msgId, steps[i].env.sessionId, steps[i].env.now)
  {
    var s, step := states[i], steps[i];
    RunKeepsInv(states, steps, i);
    NodeNamed(s, step.node);
    x := NewCapabilityReply(step.node, step.m.srcNode, step.m.msgId, step.local, step.env.msgId, step.env.sessionId, step.env.now);
    QueryReply(s.routers[step.node], step.m, step.env, step.local);
    NetAfter(s, step);
    hide SystemInv, RouterInv, NetNext, Receive, ToDict, NewCapabilityReply;
    assert states[i + 1] == NetNext(s, step);
  }

  /** In every run a delivery puts one new message on the network if it is a query that reaches the node in time, and
      none otherwise: a reply to the asker that names the query. */
  lemma QueryAnswered(states: seq<System>, steps: seq<NetStep>, i: nat) returns (x: Message)
    requires Run(states, steps) && i < |steps| && steps[i].Deliver?
    requires steps[i].node in states[i].routers && steps[i].m in states[i].net
    ensures states[i + 1].net == Remaining(states[i], steps[i])
                                 + if QueryArrives(states[i], steps[i], steps[i].node) then multiset{x} else multiset{}
    ensures x.msgType == CapabilityReply && x.srcNode == steps[i].node && x.dstNode == steps[i].m.srcNode
    ensures x.replyTo == steps[i].m.msgId && x.timestamp == steps[i].env.now && x.msgId == steps[i].env.msgId
    ensures x.sessionId == steps[i].env.sessionId && x.ttl == 8 && x.protoVersion == 1
  {
    x := ReplySent(states, steps, i);
  }

  lemma ReplyTells(r: RouterState, x: Message, local: seq<AgentCapability>, env: Defaults, mine: seq<AgentCapability>)
    requires (x.msgType == CapabilityReply || x.msgType == AgentAnnounce) && (x.dstNode == "" || x.dstNode == r.nodeId) && env.now - x.timestamp <= 60.0
    requires "capabilities" in x.payload && x.payload["capabilities"] == JArray(Capabilities(local))
    ensures Receive(r, ToDict(x), env, mine).0.table == Upsert(r.table, x.srcNode, local, env.now)
  {
    DictRoundTrip(x, env);
    CapabilitiesRoundTrip(local);
    hide FromDict, ToDict, Capabilities, ParseCapabilities;
  }

  lemma TellsOffers(t: Table, node: string, local: seq<AgentCapability>, now: real, task: string)
    ensures node in NodesForTask(Upsert(t, node, local, now), task) <==>
      exists k :: LastOfName(local, k) && task in local[k].tasks
  {
    var caps := ByName(local);
    if node in NodesForTask(Upsert(t, node, local, now), task) {
      var name :| name in caps && task in caps[name].tasks;
      var k := StoredHasLast(local, name);
      LastIsStored(local, k);
    }
    if k :| LastOfName(local, k) && task in local[k].tasks {
      LastIsStored(local, k);
      assert local[k].agentName in caps && task in caps[local[k].agentName].tasks;
    }
  }

  /** In every run: when a query of a reaches b in time, and the message this puts on the network reaches a in time, then
      a finds b for a task exactly when the last agent of some name in b's list has the task. */
  lemma QueryExchange(states: seq<System>, steps: seq<NetStep>, i: nat, j: nat, a: string, b: string, x: Message, task: string)
    requires Run(states, steps) && i < |steps| && j < |steps|
    requires b in states[i].routers && QueryArrives(states[i], steps[i], b) && steps[i].m.srcNode == a
    requires states[i + 1].net == Remaining(states[i], steps[i]) + multiset{x}
    requires a in states[j].routers && Arrives(states[j], steps[j], a) && steps[j].m == x
    ensures a in states[j + 1].routers
    ensures b in NodesForTask(states[j + 1].routers[a].table, task) <==>
      exists k :: LastOfName(steps[i].local, k) && task in steps[i].local[k].tasks
  {
    var y := ReplySent(states, steps, i);
    SameAddition(Remaining(states[i], steps[i]), x, y);
    RunKeepsInv(states, steps, j);
    NodeNamed(states[j], a);
    assert x.payload["capabilities"] == JArray(Capabilities(steps[i].local));
    ReplyTells(states[j].routers[a], x, steps[i].local, steps[j].env, steps[j].local);
    TakenUp(states[j], steps[j]);
    hide SystemInv, RouterInv, Receive, ToDict, NetNext, NewCapabilityReply, Capabilities, NodesForTask, Upsert;
    assert states[j + 1] == NetNext(states[j], steps[j]);
    TellsOffers(states[j].routers[a].table, b, steps[i].local, steps[j].env.now, task);
  }

  lemma NoticeSent(states: seq<System>, steps: seq<NetStep>, i: nat, x: Message)
    requires Run(states, steps) && i < |steps| && steps[i].Notify? && steps[i].node in states[i].routers
    requires states[i + 1].net == states[i].net + multiset{x}
    requires steps[i].msgType !in {TaskRequest, TaskResponse, TaskError}
    ensures x.msgType == steps[i].msgType && x.srcNode == steps[i].node && x.dstNode == steps[i].dst
    ensures x.payload == steps[i].payload && x.timestamp == steps[i].now
  {
    var y := NewNotice(steps[i].msgType, steps[i].node, steps[i].dst, steps[i].payload, steps[i].id, steps[i].session, steps[i].now);
    assert states[i + 1] == NetNext(states[i], steps[i]);
    assert states[i + 1].net == states[i].net + multiset{y};
    SameAddition(states[i].net, x, y);
  }

  /** In every run: when the announcement of a list of agents reaches a in time, then a finds the announcing node for a
      task exactly when the last agent of some name in the list has the task. */
  lemma AnnounceExchange(states: seq<System>, steps: seq<NetStep>, i: nat, j: nat, a: string, x: Message,
                         caps: seq<AgentCapability>, task: string)
    requires Run(states, steps) && i < |steps| && j < |steps|
    requires steps[i].Notify? && steps[i].node in states[i].routers && steps[i].msgType == AgentAnnounce
    requires steps[i].payload == map["capabilities" := JArray(Capabilities(caps))]
    requires states[i + 1].net == states[i].net + multiset{x}
    requires a in states[j].routers && Arrives(states[j], steps[j], a) && steps[j].m == x
    ensures a in states[j + 1].routers
    ensures steps[i].node in NodesForTask(states[j + 1].routers[a].table, task) <==>
      exists k :: LastOfName(caps, k) && task in caps[k].tasks
  {
    NoticeSent(states, steps, i, x);
    RunKeepsInv(states, steps, j);
    NodeNamed(states[j], a);
    ReplyTells(states[j].routers[a], x, caps, steps[j].env, steps[j].local);
    TakenUp(states[j], steps[j]);
    hide SystemInv, RouterInv, Receive, ToDict, NetNext, Capabilities, NodesForTask, Upsert;
    assert states[j + 1] == NetNext(states[j], steps[j]);
    TellsOffers(states[j].routers[a].table, steps[i].node, caps, steps[j].env.now, task);
  }

  lemma WithdrawalTells(r: RouterState, x: Message, names: seq<string>, env: Defaults, mine: seq<AgentCapability>)
    requires x.msgType == AgentWithdraw && (x.dstNode == "" || x.dstNode == r.nodeId) && env.now - x.timestamp <= 60.0
    requires "agents" in x.payload && x.payload["agents"] == JArray(Strings(names))
    ensures Receive(r, ToDict(x), env, mine).0.table == WithdrawAgents(r.table, x.srcNode, names, env.now)
  {
    DictRoundTrip(x, env);
    WithdrawnExact(x.payload, names);
    hide FromDict, ToDict, Strings, WithdrawnNames, WithdrawAgents;
  }

  lemma TellsLoss(t: Table, node: string, names: seq<string>, now: real, task: string)
    ensures node in NodesForTask(WithdrawAgents(t, node, names, now), task) <==>
      node in t && exists n :: n in t[node].caps && n !in names && task in t[node].caps[n].tasks
  {
    if node in t {
      var caps := t[node].caps;
      assert forall n :: n in Without(caps, names) <==> n in caps && n !in names;
    }
  }

  /** In every run: when a withdrawal of agents reaches a in time, then a still finds the withdrawing node for a task
      exactly when a knew an agent of it that has the task and is not among those named. */
  lemma WithdrawExchange(states: seq<System>, steps: seq<NetStep>, i: nat, j: nat, a: string, x: Message,
                         names: seq<string>, task: string)
    requires Run(states, steps) && i < |steps| && j < |steps|
    requires steps[i].Notify? && steps[i].node in states[i].routers && steps[i].msgType == AgentWithdraw
    requires steps[i].payload == map["agents" := JArray(Strings(names))]
    requires states[i + 1].net == states[i].net + multiset{x}
    requires a in states[j].routers && Arrives(states[j], steps[j], a) && steps[j].m == x
    ensures a in states[j + 1].routers
    ensures var b, t := steps[i].node, states[j].routers[a].table;
      b in NodesForTask(states[j + 1].routers[a].table, task) <==>
      b in t && exists n :: n in t[b].caps && n !in names && task in t[b].caps[n].tasks
  {
    NoticeSent(states, steps, i, x);
    RunKeepsInv(states, steps, j);
    NodeNamed(states[j], a);
    WithdrawalTells(states[j].routers[a], x, names, steps[j].env, steps[j].local);
    TakenUp(states[j], steps[j]);
    hide SystemInv, RouterInv, Receive, ToDict, NetNext, Strings, NodesForTask, WithdrawAgents;
    assert states[j + 1] == NetNext(states[j], steps[j]);
    TellsLoss(states[j].routers[a].table, steps[i].node, names, steps[j].env.now, task);
  }

  lemma SameAddition(net: multiset<Message>, x: Message, y: Message)
    requires net + multiset{x} == net + multiset{y}
    ensures x == y
  {
    assert (net + multiset{x})[x] == (net + multiset{y})[x];
  }
}
