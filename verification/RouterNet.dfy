/** Any number of routers over a network that loses, repeats, delays and reorders messages. */
module RouterNet {
  import opened Common
  import opened Messages
  import opened CapabilityTable
  import opened Router

  /** A reply and the request its node was handling when it built it. */
  datatype Built = Built(node: string, request: Message, reply: Message)

  /** built and broadcasts, the requests sent to everyone, record history. */
  datatype System = System(routers: map<string, RouterState>, net: multiset<Message>, built: set<Built>, broadcasts: set<Message>)

  /** What one router does without touching the network. */
  datatype LocalStep =
    | SendReturns(id: string, sent: bool)
    | Timer(id: string)
    | Continue(id: string)
    | CancelCall(id: string)
    | Sweep(now: real)
    | Startup
    | Shutdown

  datatype NetStep =
    | Ask(node: string, task: string, payload: Dict, dst: string, pick: Option<string>, srcAgent: string,
          dstAgent: string, timeout: Option<real>, id: string, session: string, now: real)
    | Write(node: string, id: string)
    | Broadcast(node: string, task: string, payload: Dict, id: string, session: string, now: real)
    | Local(node: string, step: LocalStep)
    | Notify(node: string, msgType: MsgType, dst: string, payload: Dict, id: string, session: string, now: real)
    | Deliver(node: string, m: Message, keep: bool, env: Defaults, local: seq<AgentCapability>)
    | Lose(m: Message)
    | Reply(node: string, m: Message, result: Handled, id: string, now: real)

  function LocalNext(r: RouterState, step: LocalStep): RouterState {
    match step
    case SendReturns(id, sent) => if id in r.calls && r.calls[id].phase == Sending then SendDone(r, id, sent) else r
    case Timer(id) =>
      if TimerEnabled(r, id) then TimerFires(r, id) else r
    case Continue(id) =>
      if CanResume(r, id) then Resume(r, id) else r
    case CancelCall(id) =>
      if id in r.calls && id in r.futures && !r.calls[id].phase.Done? then CallerCancelled(r, id) else r
    case Sweep(now) => Evict(r, now)
    case Startup => Start(r)
    case Shutdown => Stop(r)
  }

  /** A fresh id is one under which no router has made a request. */
  predicate IdTaken(s: System, id: string) {
    (exists n :: n in s.routers && id in s.routers[n].calls) || (exists m :: m in s.broadcasts && m.msgId == id)
  }

  /** The caller names a node, or pick is one that offers the task, if there is one. */
  predicate Selectable(t: Table, task: string, dst: string, pick: Option<string>) {
    dst == "" ==> if pick.Some? then pick.value in NodesForTask(t, task) else NodesForTask(t, task) == {}
  }

  function Put(s: System, node: string, r: RouterState): System {
    s.(routers := s.routers[node := r])
  }

  function Bag(out: seq<Message>): multiset<Message> {
    multiset(out)
  }

  /** One step of the system; a step that is not enabled does nothing. */
  function NetNext(s: System, step: NetStep): System {
    if !step.Lose? && step.node !in s.routers then s
    else
      match step
      case Ask(node, task, payload, dst, pick, srcAgent, dstAgent, timeout, id, session, now) =>
        if IdTaken(s, id) || !Selectable(s.routers[node].table, task, dst, pick) then s
        else Put(s, node, Begin(s.routers[node], task, payload, dst, pick, srcAgent, dstAgent, timeout, id, session, now).0)
      case Write(node, id) =>
        if id in s.routers[node].calls && s.routers[node].calls[id].phase == Sending
        then s.(net := s.net + multiset{s.routers[node].calls[id].request}) else s
      case Broadcast(node, task, payload, id, session, now) =>
        if IdTaken(s, id) then s
        else
          var m := NewTaskRequest(node, "", task, payload, "", "", id, session, now);
          s.(net := s.net + multiset{m}, broadcasts := s.broadcasts + {m})
      case Local(node, l) => Put(s, node, LocalNext(s.routers[node], l))
      case Notify(node, msgType, dst, payload, id, session, now) =>
        if msgType in {TaskRequest, TaskResponse, TaskError} then s
        else s.(net := s.net + multiset{NewNotice(msgType, node, dst, payload, id, session, now)})
      case Deliver(node, m, keep, env, local) =>
        if m !in s.net then s
        else
          var (r, out) := Receive(s.routers[node], ToDict(m), env, local);
          Put(s, node, r).(net := (if keep then s.net else s.net - multiset{m}) + Bag(out))
      case Lose(m) => s.(net := s.net - multiset{m})
      case Reply(node, m, result, id, now) =>
        if m !in s.routers[node].handling then s
        else
          var (r, reply) := FinishHandling(s.routers[node], m, result, id, now);
          Put(s, node, r).(net := s.net + multiset{reply}, built := s.built + {Built(node, m, reply)})
  }

  predicate IsNew(r: RouterState, node: string) {
    r == RouterState(node, false, r.timeout, r.waitFor, map[], map[], map[], map[], multiset{}, map[], [])
  }

  /** Routers that have just been made, under their own distinct non-empty names, and an empty network. */
  ghost predicate Initial(s: System) {
    && (forall n :: n in s.routers ==> n != "" && IsNew(s.routers[n], n))
    && s.net == multiset{} && s.built == {} && s.broadcasts == {}
  }

  /** A run: the states from an initial one on, and the steps between them. */
  ghost predicate Run(states: seq<System>, steps: seq<NetStep>) {
    && |states| == |steps| + 1 && Initial(states[0])
    && forall i :: 0 <= i < |steps| ==> states[i + 1] == NetNext(states[i], steps[i])
  }

  // --- the invariant ---------------------------------------------------------------------------

  /** The message is a request exactly as its sender's call holds it. */
  predicate Called(s: System, m: Message) {
    m.srcNode in s.routers && m.msgId in s.routers[m.srcNode].calls && s.routers[m.srcNode].calls[m.msgId].request == m
  }

  predicate Genuine(s: System, m: Message) {
    Called(s, m) || m in s.broadcasts
  }

  ghost predicate Recorded(built: set<Built>, m: Message) {
    exists b :: b in built && b.reply == m
  }

  predicate IsReply(m: Message) {
    m.msgType == TaskResponse || m.msgType == TaskError
  }

  ghost predicate MessageOk(s: System, m: Message) {
    && m.srcNode != ""
    && (m.msgType == TaskRequest ==> Genuine(s, m))
    && (IsReply(m) ==> Recorded(s.built, m))
  }

  predicate HandlingOk(s: System, node: string, m: Message) {
    Genuine(s, m) && (m.dstNode == node || m in s.broadcasts)
  }

  predicate BuiltOk(s: System, b: Built) {
    HandlingOk(s, b.node, b.request) && Answers(b.reply, b.request, b.node)
  }

  ghost predicate FutureOk(built: set<Built>, id: string, f: FutureState) {
    f.Answer? ==> f.m.replyTo == id && Recorded(built, f.m)
  }

  predicate RequestOk(node: string, id: string, m: Message) {
    m.msgType == TaskRequest && m.msgId == id && m.srcNode == node && m.dstNode != ""
  }

  ghost predicate NodeOk(r: RouterState, node: string, built: set<Built>) {
    && RouterInv(r) && r.nodeId == node != "" && "" !in r.table
    && (forall id :: id in r.calls ==> RequestOk(node, id, r.calls[id].request))
    && (forall id :: id in r.futures ==> FutureOk(built, id, r.futures[id]))
  }

  ghost predicate SystemInv(s: System) {
    && (forall n :: n in s.routers ==> NodeOk(s.routers[n], n, s.built))
    && (forall a, b, id :: a in s.routers && b in s.routers && id in s.routers[a].calls && id in s.routers[b].calls ==> a == b)
    && (forall m, n :: m in s.broadcasts && n in s.routers ==> m.msgId !in s.routers[n].calls)
    && (forall m :: m in s.net ==> MessageOk(s, m))
    && (forall n, m :: n in s.routers && m in s.routers[n].handling ==> HandlingOk(s, n, m))
    && (forall b :: b in s.built ==> BuiltOk(s, b))
  }

  lemma InitialInv(s: System)
    requires Initial(s)
    ensures SystemInv(s)
  {
    hide SlotOk;
    forall n | n in s.routers ensures NodeOk(s.routers[n], n, s.built) {
      EmptyRouterInv(s.routers[n]);
    }
  }

  lemma EmptyRouterInv(r: RouterState)
    requires r.pending == map[] && r.futures == map[] && r.calls == map[] && r.fates == map[] && r.table == map[] && r.events == []
    ensures RouterInv(r)
  {
  }

  // --- one router moves --------------------------------------------------------------------------

  /** What a step may do to a router, as far as the others care. id names the call that may be new. */
  ghost predicate Advances(r: RouterState, r': RouterState) {
    RouterInv(r') && Settled(r, r') && Framed(r, r')
  }

  ghost predicate Framed(r: RouterState, r': RouterState) {
    && r'.nodeId == r.nodeId && ("" !in r.table ==> "" !in r'.table)
    && (forall id :: id in r'.futures && r'.futures[id].Answer? ==> id in r.futures && r.futures[id] == r'.futures[id])
    && (forall m :: m in r'.handling ==> m in r.handling)
    && r'.calls.Keys == r.calls.Keys
  }

  lemma CallsKept(r: RouterState, r': RouterState, id: string)
    requires Settled(r, r') && id in r.calls
    ensures id in r'.calls && r'.calls[id].request == r.calls[id].request
  {
    assert SlotSettled(SlotOf(r, id), SlotOf(r', id));
  }

  lemma GenuineKept(s: System, s': System, m: Message)
    requires Genuine(s, m) && Evolves(s, s')
    ensures Genuine(s', m) && (m in s.broadcasts ==> m in s'.broadcasts)
  {
    hide Settled;
    if Called(s, m) { CallsKept(s.routers[m.srcNode], s'.routers[m.srcNode], m.msgId); }
  }

  /** The same routers, none forgetting a call, and no history lost. */
  ghost predicate Evolves(s: System, s': System) {
    && s'.routers.Keys == s.routers.Keys && s.built <= s'.built && s.broadcasts <= s'.broadcasts
    && forall n :: n in s.routers ==> Settled(s.routers[n], s'.routers[n])
  }

  lemma PutEvolves(s: System, s': System, node: string)
    requires node in s.routers && s'.routers.Keys == s.routers.Keys && s.built <= s'.built && s.broadcasts <= s'.broadcasts
    requires Settled(s.routers[node], s'.routers[node])
    requires forall n :: n in s.routers && n != node ==> s'.routers[n] == s.routers[n]
    ensures Evolves(s, s')
  {
    hide Settled;
    forall n | n in s.routers ensures Settled(s.routers[n], s'.routers[n]) {
      SettledReflexive(s.routers[n]);
    }
  }

  /** What remains to be shown when s becomes s': only the new messages, replies and requests under way matter. */
  lemma InvKept(s: System, s': System)
    requires SystemInv(s) && Evolves(s, s')
    requires forall n :: n in s'.routers ==> NodeOk(s'.routers[n], n, s'.built)
    requires forall a, b, id :: a in s'.routers && b in s'.routers && id in s'.routers[a].calls && id in s'.routers[b].calls ==> a == b
    requires forall m, n :: m in s'.broadcasts && n in s'.routers ==> m.msgId !in s'.routers[n].calls
    requires forall m :: m in s'.net ==> m in s.net || MessageOk(s', m)
    requires forall n, m :: n in s'.routers && m in s'.routers[n].handling ==> m in s.routers[n].handling || HandlingOk(s', n, m)
    requires forall b :: b in s'.built ==> b in s.built || BuiltOk(s', b)
    ensures SystemInv(s')
  {
    hide Evolves, NodeOk, Genuine, Answers;
    SameRouters(s, s');
    forall m | m in s'.net ensures MessageOk(s', m) {
      if m in s.net { MessageKept(s, s', m); }
    }
    forall n, m | n in s'.routers && m in s'.routers[n].handling ensures HandlingOk(s', n, m) {
      if m in s.routers[n].handling { GenuineKept(s, s', m); }
    }
    forall b | b in s'.built ensures BuiltOk(s', b) {
      if b in s.built { GenuineKept(s, s', b.request); }
    }
  }

  lemma SameRouters(s: System, s': System)
    requires Evolves(s, s')
    ensures s'.routers.Keys == s.routers.Keys
  {
  }

  lemma MessageKept(s: System, s': System, m: Message)
    requires MessageOk(s, m) && Evolves(s, s')
    ensures MessageOk(s', m)
  {
    hide Genuine, Settled;
    if m.msgType == TaskRequest { GenuineKept(s, s', m); }
  }

  lemma NodeKept(r: RouterState, r': RouterState, node: string, built: set<Built>, built': set<Built>)
    requires NodeOk(r, node, built) && Advances(r, r') && built <= built'
    ensures NodeOk(r', node, built')
  {
    hide RouterInv, Settled, Answers;
    forall id | id in r'.calls ensures RequestOk(node, id, r'.calls[id].request) {
      CallsKept(r, r', id);
    }
  }

  lemma MoreBuilt(r: RouterState, node: string, built: set<Built>, built': set<Built>)
    requires NodeOk(r, node, built) && built <= built'
    ensures NodeOk(r, node, built')
  {
    hide RouterInv;
  }

  lemma LocalAdvances(r: RouterState, step: LocalStep)
    requires RouterInv(r)
    ensures Advances(r, LocalNext(r, step))
  {
    LocalFramed(r, step);
    hide RouterInv, Settled, Framed, SendDone, TimerFires, Resume, CallerCancelled, Evict, Start, Stop;
    SettledReflexive(r);
    match step {
      case SendReturns(id, sent) =>
        if id in r.calls && r.calls[id].phase == Sending { SendDoneKeepsInv(r, id, sent); }
      case Timer(id) =>
        if TimerEnabled(r, id) { TimerKeepsInv(r, id); }
      case Continue(id) =>
        if CanResume(r, id) { ResumeKeepsInv(r, id); }
      case CancelCall(id) =>
        if id in r.calls && id in r.futures && !r.calls[id].phase.Done? { CancelKeepsInv(r, id); }
      case Sweep(now) => EvictKeepsInv(r, now);
      case Startup => StartKeepsInv(r);
      case Shutdown => StopKeepsInv(r);
    }
  }

  lemma LocalFramed(r: RouterState, step: LocalStep)
    ensures Framed(r, LocalNext(r, step))
  {
    hide Framed, SendDone, Resume, Evict, TimerFires, CallerCancelled, Stop;
    match step {
      case SendReturns(id, sent) =>
        if id in r.calls && r.calls[id].phase == Sending { SendFramed(r, id, sent); }
        IdleFramed(r);
      case Timer(id) =>
        if TimerEnabled(r, id) { TimerFramed(r, id); }
        IdleFramed(r);
      case Continue(id) =>
        if CanResume(r, id) { ResumeFramed(r, id); }
        IdleFramed(r);
      case CancelCall(id) =>
        if id in r.calls && id in r.futures && !r.calls[id].phase.Done? { CancelFramed(r, id); }
        IdleFramed(r);
      case Sweep(now) => SweepFramed(r, now);
      case Startup => StartFramed(r);
      case Shutdown => StopFramed(r);
    }
  }

  lemma IdleFramed(r: RouterState)
    ensures Framed(r, r)
  {
  }

  lemma TimerFramed(r: RouterState, id: string)
    requires TimerEnabled(r, id)
    ensures Framed(r, TimerFires(r, id))
  {
  }

  lemma CancelFramed(r: RouterState, id: string)
    requires id in r.calls && id in r.futures && !r.calls[id].phase.Done?
    ensures Framed(r, CallerCancelled(r, id))
  {
    hide Resume;
    if CanResume(r, id) { ResumeFramed(r, id); }
  }

  lemma StartFramed(r: RouterState)
    ensures Framed(r, Start(r))
  {
  }

  lemma StopFramed(r: RouterState)
    ensures Framed(r, Stop(r))
  {
  }

  lemma SendFramed(r: RouterState, id: string, sent: bool)
    requires id in r.calls && r.calls[id].phase == Sending
    ensures Framed(r, SendDone(r, id, sent))
  {
    hide Resume;
    if sent {
      var r1 := SetPhase(r, id, Waiting);
      if CanResume(r1, id) { ResumeFramed(r1, id); }
    } else {
      RefusalFramed(r, id);
    }
  }

  lemma RefusalFramed(r: RouterState, id: string)
    requires id in r.calls && r.calls[id].phase == Sending
    ensures Framed(r, SendDone(r, id, false))
  {
  }

  lemma ResumeFramed(r: RouterState, id: string)
    requires CanResume(r, id)
    ensures Framed(r, Resume(r, id))
  {
    hide Conclude;
  }

  lemma SweepFramed(r: RouterState, now: real)
    ensures Framed(r, Evict(r, now))
  {
  }

  lemma LocalKeepsInv(s: System, node: string, step: LocalStep)
    requires SystemInv(s) && node in s.routers
    ensures SystemInv(Put(s, node, LocalNext(s.routers[node], step)))
    ensures Evolves(s, Put(s, node, LocalNext(s.routers[node], step)))
  {
    hide RouterInv, Settled, LocalNext, Genuine, NodeOk, Evolves;
    var r, r' := s.routers[node], LocalNext(s.routers[node], step);
    assert NodeOk(r, node, s.built);
    NodeInv(r, node, s.built);
    LocalAdvances(r, step);
    AdvanceKeepsInv(s, node, r');
  }

  lemma NodeInv(r: RouterState, node: string, built: set<Built>)
    requires NodeOk(r, node, built)
    ensures RouterInv(r) && r.nodeId == node != ""
  {
  }

  lemma AdvanceKeepsInv(s: System, node: string, r': RouterState)
    requires SystemInv(s) && node in s.routers && Advances(s.routers[node], r')
    ensures SystemInv(Put(s, node, r')) && Evolves(s, Put(s, node, r'))
  {
    hide RouterInv, Settled, Genuine, NodeOk, Evolves, MessageOk, HandlingOk, BuiltOk;
    var r, s' := s.routers[node], Put(s, node, r');
    PutEvolves(s, s', node);
    NodeKept(r, r', node, s.built, s.built);
    assert forall n :: n in s.routers ==> s'.routers[n].calls.Keys == s.routers[n].calls.Keys;
    InvKept(s, s');
  }

  // --- messages come and go -------------------------------------------------------------------

  lemma NetKeepsInv(s: System, net: multiset<Message>)
    requires SystemInv(s)
    requires forall m :: m in net ==> m in s.net || MessageOk(s, m)
    ensures SystemInv(s.(net := net)) && Evolves(s, s.(net := net))
  {
    hide RouterInv, Settled, NodeOk, Genuine, HandlingOk, BuiltOk, Evolves, MessageOk;
    var s' := s.(net := net);
    StillEvolves(s, s');
    forall m | m in net && m !in s.net ensures MessageOk(s', m) { MessageKept(s, s', m); }
    InvKept(s, s');
  }

  lemma StillEvolves(s: System, s': System)
    requires s'.routers == s.routers && s.built <= s'.built && s.broadcasts <= s'.broadcasts
    ensures Evolves(s, s')
  {
    hide Settled;
    forall n | n in s.routers ensures Settled(s.routers[n], s'.routers[n]) { SettledReflexive(s.routers[n]); }
  }

  lemma WrittenIsGenuine(s: System, node: string, id: string)
    requires SystemInv(s) && node in s.routers && id in s.routers[node].calls
    ensures MessageOk(s, s.routers[node].calls[id].request)
  {
    hide RouterInv;
    assert NodeOk(s.routers[node], node, s.built);
  }

  lemma BroadcastKeepsInv(s: System, m: Message)
    requires SystemInv(s) && !IdTaken(s, m.msgId) && m.srcNode != "" && m.msgType == TaskRequest
    ensures var s' := s.(net := s.net + multiset{m}, broadcasts := s.broadcasts + {m}); SystemInv(s') && Evolves(s, s')
  {
    hide RouterInv, Settled, NodeOk, Called, HandlingOk, BuiltOk, Evolves;
    var s' := s.(net := s.net + multiset{m}, broadcasts := s.broadcasts + {m});
    StillEvolves(s, s');
    assert MessageOk(s', m);
    assert forall x, n :: x in s'.broadcasts && n in s'.routers && x.msgId in s.routers[n].calls ==> IdTaken(s, x.msgId);
    hide MessageOk;
    InvKept(s, s');
  }

  // --- a request is made ----------------------------------------------------------------------

  lemma AskKeepsInv(s: System, node: string, task: string, payload: Dict, dst: string, pick: Option<string>, srcAgent: string,
                    dstAgent: string, timeout: Option<real>, id: string, session: string, now: real)
    requires SystemInv(s) && node in s.routers && !IdTaken(s, id) && Selectable(s.routers[node].table, task, dst, pick)
    ensures var r' := Begin(s.routers[node], task, payload, dst, pick, srcAgent, dstAgent, timeout, id, session, now).0;
      SystemInv(Put(s, node, r')) && Evolves(s, Put(s, node, r'))
  {
    hide RouterInv, Settled, NodeOk, Begin, Selectable, MessageOk, HandlingOk, BuiltOk, Genuine;
    var r := s.routers[node];
    assert NodeOk(r, node, s.built);
    NodeInv(r, node, s.built);
    AskedOk(r, node, s.built, task, payload, dst, pick, srcAgent, dstAgent, timeout, id, session, now);
    BeginKeepsInv(r, task, payload, dst, pick, srcAgent, dstAgent, timeout, id, session, now);
    CallerKeepsInv(s, node, Begin(r, task, payload, dst, pick, srcAgent, dstAgent, timeout, id, session, now).0, id);
  }

  /** One router gains at most a call under an id no other router uses. */
  lemma CallerKeepsInv(s: System, node: string, r': RouterState, id: string)
    requires SystemInv(s) && node in s.routers && !IdTaken(s, id)
    requires NodeOk(r', node, s.built) && Settled(s.routers[node], r') && r'.handling == s.routers[node].handling
    requires r'.calls.Keys <= s.routers[node].calls.Keys + {id}
    ensures SystemInv(Put(s, node, r')) && Evolves(s, Put(s, node, r'))
  {
    hide RouterInv, Settled, NodeOk, Evolves, MessageOk, HandlingOk, BuiltOk, Genuine;
    var s' := Put(s, node, r');
    PutEvolves(s, s', node);
    DistinctKept(s, node, r', id);
    InvKept(s, s');
  }

  lemma DistinctKept(s: System, node: string, r': RouterState, id: string)
    requires SystemInv(s) && node in s.routers
    requires IdTaken(s, id) ==> id in s.routers[node].calls
    requires r'.calls.Keys <= s.routers[node].calls.Keys + {id}
    ensures var s' := Put(s, node, r');
      forall m, n :: m in s'.broadcasts && n in s'.routers ==> m.msgId !in s'.routers[n].calls
    ensures var s' := Put(s, node, r');
      forall a, b, x :: a in s'.routers && b in s'.routers && x in s'.routers[a].calls && x in s'.routers[b].calls ==> a == b
  {
    hide NodeOk, MessageOk, HandlingOk, BuiltOk;
    var s' := Put(s, node, r');
    forall a, b, x | a in s'.routers && b in s'.routers && x in s'.routers[a].calls && x in s'.routers[b].calls ensures a == b {
      var other := if a == node then b else a;
      assert x in s.routers[other].calls ==> IdTaken(s, x);
    }
  }

  lemma AskedOk(r: RouterState, node: string, built: set<Built>, task: string, payload: Dict, dst: string, pick: Option<string>,
                srcAgent: string, dstAgent: string, timeout: Option<real>, id: string, session: string, now: real)
    requires NodeOk(r, node, built) && id !in r.calls && Selectable(r.table, task, dst, pick)
    ensures var r' := Begin(r, task, payload, dst, pick, srcAgent, dstAgent, timeout, id, session, now).0;
      NodeOk(r', node, built) && r'.handling == r.handling && r'.calls.Keys <= r.calls.Keys + {id}
  {
    BeginKeepsInv(r, task, payload, dst, pick, srcAgent, dstAgent, timeout, id, session, now);
    BeginEffect(r, task, payload, dst, pick, srcAgent, dstAgent, timeout, id, session, now);
    hide RouterInv, Settled, Begin, Selectable, RequestOk, NodeOk;
    var r' := Begin(r, task, payload, dst, pick, srcAgent, dstAgent, timeout, id, session, now).0;
    if r' != r { AskedNode(r, r', node, built, id); }
  }

  lemma AskedNode(r: RouterState, r': RouterState, node: string, built: set<Built>, id: string)
    requires NodeOk(r, node, built) && RouterInv(r') && r'.nodeId == r.nodeId && r'.table == r.table
    requires r'.futures == r.futures[id := Unsettled] && id in r'.calls && r'.calls == r.calls[id := r'.calls[id]]
    requires RequestOk(r.nodeId, id, r'.calls[id].request)
    ensures NodeOk(r', node, built) && r'.calls.Keys == r.calls.Keys + {id}
  {
    hide RouterInv, Recorded, RequestOk;
  }

  lemma BeginEffect(r: RouterState, task: string, payload: Dict, dst: string, pick: Option<string>,
                    srcAgent: string, dstAgent: string, timeout: Option<real>, id: string, session: string, now: real)
    requires Selectable(r.table, task, dst, pick) && "" !in r.table
    ensures var r' := Begin(r, task, payload, dst, pick, srcAgent, dstAgent, timeout, id, session, now).0;
      r' == r || (r'.handling == r.handling && r'.nodeId == r.nodeId && r'.table == r.table
                  && r'.futures == r.futures[id := Unsettled]
                  && id in r'.calls && r'.calls == r.calls[id := r'.calls[id]] && RequestOk(r.nodeId, id, r'.calls[id].request))
  {
  }

  // --- a message arrives ----------------------------------------------------------------------

  ghost predicate Took(r: RouterState, r': RouterState, m: Message) {
    && r'.nodeId == r.nodeId && r'.waitFor == r.waitFor && r'.calls == r.calls
    && (forall x :: x in r'.handling ==> x in r.handling || (x == m && TakenBy(r, m)))
    && (forall id :: id in r'.futures && r'.futures[id].Answer? ==>
          || (id in r.futures && r.futures[id] == r'.futures[id])
          || (IsReply(m) && id == m.replyTo && r'.futures[id] == Answer(m)))
    && ("" !in r.table && m.srcNode != "" ==> "" !in r'.table)
  }

  predicate TakenBy(r: RouterState, m: Message) {
    m.msgType == TaskRequest && (m.dstNode == "" || m.dstNode == r.nodeId)
  }

  lemma IdleTook(r: RouterState, m: Message)
    ensures Took(r, r, m)
  {
  }

  lemma RequestTook(r: RouterState, m: Message)
    requires TakenBy(r, m)
    ensures Took(r, r.(handling := r.handling + multiset{m}), m)
  {
  }

  lemma ResponseTook(r: RouterState, m: Message)
    requires IsReply(m)
    ensures Took(r, HandleResponse(r, m), m)
  {
  }

  lemma RecordTook(r: RouterState, e: Event, m: Message)
    requires !e.Swept? && e.node == m.srcNode
    ensures Took(r, Record(r, e), m)
  {
    hide ByName, Without;
  }

  lemma ReceiveEffect(r: RouterState, m: Message, env: Defaults, local: seq<AgentCapability>)
    ensures var (r', out) := Receive(r, ToDict(m), env, local);
      Took(r, r', m) && forall x :: x in out ==> x.msgType == CapabilityReply && x.srcNode == r.nodeId
  {
    DictRoundTrip(m, env);
    hide FromDict, ToDict, CapabilitiesAt, WithdrawnNames, HandleResponse, Record, Took;
    IdleTook(r, m);
    if TakenBy(r, m) { RequestTook(r, m); }
    if IsReply(m) { ResponseTook(r, m); }
    var names, caps := WithdrawnNames(m.payload), CapabilitiesAt(m.payload);
    if names.Some? { RecordTook(r, Withdrawn(m.srcNode, names.value, env.now), m); }
    RecordTook(r, Beat(m.srcNode, env.now), m);
    if caps.Ok? { RecordTook(r, Announced(m.srcNode, caps.value, env.now), m); }
  }

  lemma TookOk(r: RouterState, r': RouterState, node: string, built: set<Built>, m: Message)
    requires NodeOk(r, node, built) && Took(r, r', m) && RouterInv(r') && m.srcNode != "" && (IsReply(m) ==> Recorded(built, m))
    ensures NodeOk(r', node, built)
  {
    hide RouterInv, Recorded;
  }

  lemma DeliverKeepsInv(s: System, node: string, m: Message, env: Defaults, local: seq<AgentCapability>)
    requires SystemInv(s) && node in s.routers && m in s.net
    ensures var s' := Put(s, node, Receive(s.routers[node], ToDict(m), env, local).0); SystemInv(s') && Evolves(s, s')
  {
    hide RouterInv, Settled, NodeOk, Receive, ToDict, Evolves, BuiltOk, HandlingOk, Genuine, Took;
    var r := s.routers[node];
    var r' := Receive(r, ToDict(m), env, local).0;
    assert NodeOk(r, node, s.built);
    NodeInv(r, node, s.built);
    ReceiveEffect(r, m, env, local);
    ReceiveKeepsInv(r, ToDict(m), env, local);
    assert MessageOk(s, m);
    TookOk(r, r', node, s.built, m);
    TookKeepsInv(s, node, r', m);
  }

  lemma TookKeepsInv(s: System, node: string, r': RouterState, m: Message)
    requires SystemInv(s) && node in s.routers && MessageOk(s, m)
    requires Took(s.routers[node], r', m) && Settled(s.routers[node], r') && NodeOk(r', node, s.built)
    ensures SystemInv(Put(s, node, r')) && Evolves(s, Put(s, node, r'))
  {
    hide RouterInv, Settled, NodeOk, Evolves, BuiltOk, Genuine, Took, HandlingOk, MessageOk;
    var r, s' := s.routers[node], Put(s, node, r');
    TookFacts(r, r', m);
    PutEvolves(s, s', node);
    if TakenBy(r, m) { TakenOk(s, s', node, m); }
    DistinctSame(s, node, r');
    InvKept(s, s');
  }

  lemma DistinctSame(s: System, node: string, r': RouterState)
    requires SystemInv(s) && node in s.routers && r'.calls.Keys == s.routers[node].calls.Keys
    ensures var s' := Put(s, node, r');
      forall m, n :: m in s'.broadcasts && n in s'.routers ==> m.msgId !in s'.routers[n].calls
    ensures var s' := Put(s, node, r');
      forall a, b, x :: a in s'.routers && b in s'.routers && x in s'.routers[a].calls && x in s'.routers[b].calls ==> a == b
  {
    hide NodeOk, MessageOk, HandlingOk, BuiltOk;
    assert forall n :: n in s.routers ==> Put(s, node, r').routers[n].calls.Keys == s.routers[n].calls.Keys;
  }

  lemma TakenOk(s: System, s': System, node: string, m: Message)
    requires SystemInv(s) && node in s.routers && MessageOk(s, m) && TakenBy(s.routers[node], m) && Evolves(s, s')
    ensures HandlingOk(s', node, m)
  {
    hide RouterInv, Settled, NodeOk, Evolves, BuiltOk, Called;
    assert NodeOk(s.routers[node], node, s.built);
    NodeInv(s.routers[node], node, s.built);
    if Called(s, m) { CalledAddressed(s, m); }
    GenuineKept(s, s', m);
  }

  lemma TookFacts(r: RouterState, r': RouterState, m: Message)
    requires Took(r, r', m)
    ensures r'.calls == r.calls
    ensures forall x :: x in r'.handling ==> x in r.handling || (x == m && TakenBy(r, m))
  {
  }

  lemma CalledAddressed(s: System, m: Message)
    requires SystemInv(s) && Called(s, m)
    ensures RequestOk(m.srcNode, m.msgId, m)
  {
    hide RouterInv;
    assert NodeOk(s.routers[m.srcNode], m.srcNode, s.built);
  }

  // --- a reply is built ---------------------------------------------------------------------

  lemma ReplyAnswers(nodeId: string, m: Message, result: Handled, id: string, now: real)
    ensures var reply := ReplyTo(nodeId, m, result, id, now);
      && Answers(reply, m, nodeId) && reply.srcAgent == m.dstAgent && reply.timestamp == now && reply.msgId == id
      && (result.Produced? ==> reply.msgType == TaskResponse && reply.payload == result.data && reply.dstAgent == m.srcAgent)
      && (result.Failed? ==> reply.msgType == TaskError && reply.payload == map["error" := JString(result.error)]
                             && reply.dstAgent == "")
  {
  }

  lemma ReplyKeepsInv(s: System, node: string, m: Message, result: Handled, id: string, now: real)
    requires SystemInv(s) && node in s.routers && m in s.routers[node].handling
    ensures var (r', reply) := FinishHandling(s.routers[node], m, result, id, now);
      var s' := Put(s, node, r').(built := s.built + {Built(node, m, reply)});
      SystemInv(s') && Evolves(s, s') && MessageOk(s', reply)
  {
    hide RouterInv, Settled, NodeOk, Evolves, MessageOk, Genuine, Answers, ReplyTo, Framed;
    var r := s.routers[node];
    var r' := r.(handling := r.handling - multiset{m});
    var reply := ReplyTo(node, m, result, id, now);
    assert NodeOk(r, node, s.built);
    NodeInv(r, node, s.built);
    HandlingFrame(r, r'.handling);
    assert Framed(r, r') by { HandlingFramed(r, m); }
    AdvanceKeepsInv(s, node, r');
    ReplyAnswers(node, m, result, id, now);
    assert HandlingOk(s, node, m);
    GenuineKept(s, Put(s, node, r'), m);
    BuiltKeepsInv(Put(s, node, r'), Built(node, m, reply));
    EvolvesTransitive(s, Put(s, node, r'), Put(s, node, r').(built := s.built + {Built(node, m, reply)}));
  }

  lemma HandlingFramed(r: RouterState, m: Message)
    ensures Framed(r, r.(handling := r.handling - multiset{m}))
  {
  }

  lemma BuiltKeepsInv(s: System, b: Built)
    requires SystemInv(s) && BuiltOk(s, b) && b.node in s.routers
    ensures var s' := s.(built := s.built + {b}); SystemInv(s') && Evolves(s, s') && MessageOk(s', b.reply)
  {
    hide RouterInv, Settled, NodeOk, Evolves, Genuine;
    var s' := s.(built := s.built + {b});
    StillEvolves(s, s');
    forall n | n in s.routers ensures NodeOk(s'.routers[n], n, s'.built) { MoreBuilt(s.routers[n], n, s.built, s'.built); }
    GenuineKept(s, s', b.request);
    assert NodeOk(s.routers[b.node], b.node, s.built);
    NodeInv(s.routers[b.node], b.node, s.built);
    assert b in s'.built;
    assert BuiltOk(s', b) && MessageOk(s', b.reply);
    hide MessageOk, HandlingOk, BuiltOk;
    InvKept(s, s');
  }

  lemma EvolvesTransitive(a: System, b: System, c: System)
    requires Evolves(a, b) && Evolves(b, c)
    ensures Evolves(a, c)
  {
    hide Settled;
    forall n | n in a.routers ensures Settled(a.routers[n], c.routers[n]) {
      SettledTransitive(a.routers[n], b.routers[n], c.routers[n]);
    }
  }

  // --- every run ------------------------------------------------------------------------------

  lemma NextKeepsInv(s: System, step: NetStep)
    requires SystemInv(s)
    ensures SystemInv(NetNext(s, step)) && Evolves(s, NetNext(s, step))
  {
    hide SystemInv, Evolves, LocalNext, Receive, ToDict, IdTaken, Selectable, Begin, ReplyTo;
    StillEvolves(s, s);
    if step.Lose? || step.node in s.routers {
      match step {
        case Ask(node, task, payload, dst, pick, srcAgent, dstAgent, timeout, id, session, now) =>
          if !IdTaken(s, id) && Selectable(s.routers[node].table, task, dst, pick) {
            AskKeepsInv(s, node, task, payload, dst, pick, srcAgent, dstAgent, timeout, id, session, now);
          }
        case Write(node, id) =>
          if id in s.routers[node].calls {
            WrittenIsGenuine(s, node, id);
            AddKeepsInv(s, s.routers[node].calls[id].request);
          }
        case Broadcast(node, task, payload, id, session, now) =>
          NodeNamed(s, node);
          if !IdTaken(s, id) { BroadcastKeepsInv(s, NewTaskRequest(node, "", task, payload, "", "", id, session, now)); }
        case Local(node, l) => LocalKeepsInv(s, node, l);
        case Notify(node, msgType, dst, payload, id, session, now) => NoticeKeepsInv(s, step);
        case Deliver(node, m, keep, env, local) => if m in s.net { DeliveryKeepsInv(s, step); }
        case Lose(m) => LessKeepsInv(s, s.net - multiset{m});
        case Reply(node, m, result, id, now) =>
          if m in s.routers[node].handling { AnswerKeepsInv(s, step); }
      }
    }
  }

  lemma AddKeepsInv(s: System, m: Message)
    requires SystemInv(s) && MessageOk(s, m)
    ensures SystemInv(s.(net := s.net + multiset{m})) && Evolves(s, s.(net := s.net + multiset{m}))
  {
    hide SystemInv, Evolves, MessageOk;
    NetKeepsInv(s, s.net + multiset{m});
  }

  lemma LessKeepsInv(s: System, net: multiset<Message>)
    requires SystemInv(s) && net <= s.net
    ensures SystemInv(s.(net := net)) && Evolves(s, s.(net := net))
  {
    hide SystemInv, Evolves, MessageOk;
    NetKeepsInv(s, net);
  }

  lemma NoticeKeepsInv(s: System, step: NetStep)
    requires SystemInv(s) && step.Notify? && step.node in s.routers
    ensures SystemInv(NetNext(s, step)) && Evolves(s, NetNext(s, step))
  {
    NodeNamed(s, step.node);
    hide SystemInv, Evolves, Genuine, Recorded;
    StillEvolves(s, s);
    var m := NewNotice(step.msgType, step.node, step.dst, step.payload, step.id, step.session, step.now);
    if step.msgType !in {TaskRequest, TaskResponse, TaskError} { AddKeepsInv(s, m); }
  }

  lemma NodeNamed(s: System, node: string)
    requires SystemInv(s) && node in s.routers
    ensures node != "" && s.routers[node].nodeId == node && RouterInv(s.routers[node])
  {
    hide RouterInv;
    assert NodeOk(s.routers[node], node, s.built);
  }

  lemma DeliveryKeepsInv(s: System, step: NetStep)
    requires SystemInv(s) && step.Deliver? && step.node in s.routers && step.m in s.net
    ensures SystemInv(NetNext(s, step)) && Evolves(s, NetNext(s, step))
  {
    hide SystemInv, Evolves, Receive, ToDict, Took, MessageOk;
    NodeNamed(s, step.node);
    ReceiveEffect(s.routers[step.node], step.m, step.env, step.local);
    DeliverKeepsInv(s, step.node, step.m, step.env, step.local);
    var (r', out) := Receive(s.routers[step.node], ToDict(step.m), step.env, step.local);
    var s1, net := Put(s, step.node, r'), (if step.keep then s.net else s.net - multiset{step.m}) + Bag(out);
    forall x | x in net && x !in s.net ensures MessageOk(s1, x) {
      assert x in out;
      NoticeOk(s1, x);
    }
    NetKeepsInv(s1, net);
    EvolvesTransitive(s, s1, s1.(net := net));
  }

  lemma NoticeOk(s: System, m: Message)
    requires m.srcNode != "" && m.msgType != TaskRequest && !IsReply(m)
    ensures MessageOk(s, m)
  {
  }

  lemma AnswerKeepsInv(s: System, step: NetStep)
    requires SystemInv(s) && step.Reply? && step.node in s.routers && step.m in s.routers[step.node].handling
    ensures SystemInv(NetNext(s, step)) && Evolves(s, NetNext(s, step))
  {
    hide SystemInv, Evolves, MessageOk, FinishHandling;
    ReplyKeepsInv(s, step.node, step.m, step.result, step.id, step.now);
    var (r', reply) := FinishHandling(s.routers[step.node], step.m, step.result, step.id, step.now);
    var s1 := Put(s, step.node, r').(built := s.built + {Built(step.node, step.m, reply)});
    AddKeepsInv(s1, reply);
    EvolvesTransitive(s, s1, s1.(net := s1.net + multiset{reply}));
  }

  lemma {:induction false} RunKeepsInv(states: seq<System>, steps: seq<NetStep>, k: nat)
    requires Run(states, steps) && k < |states|
    ensures SystemInv(states[k])
  {
    hide SystemInv, Evolves, NetNext, Initial;
    if k == 0 {
      InitialInv(states[0]);
    } else {
      RunKeepsInv(states, steps, k - 1);
      NextKeepsInv(states[k - 1], steps[k - 1]);
    }
  }

  lemma {:induction false} RunEvolves(states: seq<System>, steps: seq<NetStep>, j: nat, k: nat)
    requires Run(states, steps) && j <= k < |states|
    ensures Evolves(states[j], states[k])
  {
    hide SystemInv, Evolves, NetNext, Initial;
    if j == k {
      StillEvolves(states[k], states[k]);
    } else {
      RunEvolves(states, steps, j, k - 1);
      RunKeepsInv(states, steps, k - 1);
      NextKeepsInv(states[k - 1], steps[k - 1]);
      EvolvesTransitive(states[j], states[k - 1], states[k]);
    }
  }

  /** The reply was built by the node the request was addressed to, while it was handling exactly that request. */
  ghost predicate ReplyTraced(s: System, request: Message, reply: Message) {
    && Built(request.dstNode, request, reply) in s.built
    && Answers(reply, request, request.dstNode)
  }

  /** In every run, a call returns only a response, and raises RemoteError only for an error, that the addressed node
      built for exactly the call's request. */
  lemma AnswersAreTraced(states: seq<System>, steps: seq<NetStep>, k: nat, node: string, id: string)
    requires Run(states, steps) && k < |states|
    requires node in states[k].routers && id in states[k].routers[node].calls
    ensures var call := states[k].routers[node].calls[id];
      && (call.phase.Done? && call.phase.outcome.Returned? ==>
            var m := call.phase.outcome.m;
            m.msgType == TaskResponse && ReplyTraced(states[k], call.request, m))
      && (call.phase.Done? && call.phase.outcome.RemoteError? ==>
            exists m: Message :: m.msgType == TaskError && call.phase.outcome.error == ErrorText(m)
                              && ReplyTraced(states[k], call.request, m))
  {
    RunKeepsInv(states, steps, k);
    hide SystemInv, Run;
    var r := states[k].routers[node];
    if r.calls[id].phase.Done? {
      NodeNamed(states[k], node);
      OutcomeIsAnswer(r, id);
      if r.futures[id].Answer? {
        AnswerTraced(states[k], node, id);
      }
    }
  }

  lemma OutcomeIsAnswer(r: RouterState, id: string)
    requires RouterInv(r) && id in r.calls && r.calls[id].phase.Done?
    ensures id in r.futures
    ensures var o := r.calls[id].phase.outcome;
      && (o.Returned? ==> r.futures[id] == Answer(o.m) && o.m.msgType != TaskError)
      && (o.RemoteError? ==> r.futures[id].Answer? && r.futures[id].m.msgType == TaskError && o.error == ErrorText(r.futures[id].m))
  {
    SlotAt(r, id);
  }

  lemma AnswerTraced(s: System, node: string, id: string)
    requires SystemInv(s) && node in s.routers
    requires id in s.routers[node].calls && id in s.routers[node].futures && s.routers[node].futures[id].Answer?
    ensures var r := s.routers[node]; ReplyTraced(s, r.calls[id].request, r.futures[id].m)
  {
    hide RouterInv;
    var r := s.routers[node];
    assert NodeOk(r, node, s.built) && FutureOk(s.built, id, r.futures[id]);
    var b :| b in s.built && b.reply == r.futures[id].m;
    assert BuiltOk(s, b);
    assert b.request.msgId == id;
    assert s.routers[b.request.srcNode].calls[id].request == b.request;
    assert b.request.srcNode == node;
    assert Built(b.request.dstNode, b.request, b.reply) == b;
  }

  /** Between any two states of a run no call, finished outcome, settled future or fate of an entry is lost or changed,
      so no future is ever settled twice. */
  lemma NothingSettlesTwice(states: seq<System>, steps: seq<NetStep>, j: nat, k: nat, node: string, id: string)
    requires Run(states, steps) && j <= k < |states| && node in states[j].routers
    ensures node in states[k].routers
    ensures var r, r' := states[j].routers[node], states[k].routers[node];
      && (id in r.futures && r.futures[id] != Unsettled ==> id in r'.futures && r'.futures[id] == r.futures[id])
      && (id in r.calls ==> id in r'.calls && r'.calls[id].request == r.calls[id].request)
      && (id in r.calls && r.calls[id].phase.Done? ==> r'.calls[id] == r.calls[id])
      && (id in r.fates ==> id in r'.fates && r'.fates[id] == r.fates[id])
  {
    RunEvolves(states, steps, j, k);
    hide Run, Settled;
    var r, r' := states[j].routers[node], states[k].routers[node];
    SettledAt(r, r', id);
  }

  lemma SettledAt(r: RouterState, r': RouterState, id: string)
    requires Settled(r, r')
    ensures SlotSettled(SlotOf(r, id), SlotOf(r', id))
  {
  }

  lemma TableIsReplay(r: RouterState)
    requires RouterInv(r)
    ensures r.table == Replay(r.events)
  {
  }
}
