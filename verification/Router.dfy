/** The protocol router: pending requests, their futures, and the suspended route_task calls. */
module Router {
  import opened Common
  import opened Messages
  import opened CapabilityTable

  const MAX_PENDING: nat := 256

  datatype FutureState = Unsettled | Cancelled | Answer(m: Message) | TimedOut

  datatype PendingRequest = PendingRequest(msgId: string, sessionId: string, task: string, dstNode: string, createdAt: real)

  /** How a route_task call ends for its caller. */
  datatype Outcome =
    | Returned(m: Message)
    | RemoteError(error: Json)
    | NoRoute
    | LostEntry
    | TimeoutRaised
    | CancelRaised

  /** Where a call is suspended: in send_to, in wait_for, or in wait_for cancelling the future. */
  datatype Phase = Sending | Waiting | Expiring | Done(outcome: Outcome)

  datatype Call = Call(request: Message, timeout: real, phase: Phase)

  /** What took an entry out of the pending table. */
  datatype Fate = Answered | SendFailed | Expired | Evicted | Stopped

  /** asyncio.wait_for up to Python 3.11, and as rewritten in 3.12. The older one returns a result that is there when
      the timer fires or the caller is cancelled; the newer one raises. */
  datatype WaitFor = Before312 | Since312

  /** A router between two awaits. fates and events record history; the code does not keep them. */
  datatype RouterState = RouterState(
    nodeId: string, running: bool, timeout: real, waitFor: WaitFor,
    pending: map<string, PendingRequest>, futures: map<string, FutureState>, calls: map<string, Call>,
    table: Table, handling: multiset<Message>,
    fates: map<string, Fate>, events: seq<Event>)

  // --- outbound ----------------------------------------------------------------------------

  datatype BeginResult = NotRunning | NoCapableNode | TooManyPending | Registered(request: Message)

  /** route_task up to its first await. pick is the node selected when the caller names none. */
  function Begin(r: RouterState, task: string, payload: Dict, dst: string, pick: Option<string>, srcAgent: string,
                 dstAgent: string, timeout: Option<real>, id: string, session: string, now: real)
    : (RouterState, BeginResult)
  {
    if !r.running then (r, NotRunning)
    else if dst == "" && pick.None? then (r, NoCapableNode)
    else
      var target := if dst == "" then pick.value else dst;
      var msg := NewTaskRequest(r.nodeId, target, task, payload, srcAgent, dstAgent, id, session, now);
      if |r.pending| >= MAX_PENDING then (r, TooManyPending)
      else (Register(r, PendingRequest(id, session, task, target, now),
                     Call(msg, if timeout.Some? then timeout.value else r.timeout, Sending)),
            Registered(msg))
  }

  /** A new entry with a new future. */
  function Register(r: RouterState, entry: PendingRequest, call: Call): RouterState {
    r.(pending := r.pending[entry.msgId := entry], futures := r.futures[entry.msgId := Unsettled],
       calls := r.calls[entry.msgId := call])
  }

  /** The node chosen for a task: one that offers it with the least latency. */
  ghost predicate Selects(t: Table, task: string, latency: string -> real, pick: Option<string>) {
    match pick
    case None => NodesForTask(t, task) == {}
    case Some(n) => n in NodesForTask(t, task) && forall m :: m in NodesForTask(t, task) ==> latency(n) <= latency(m)
  }

  function SetPhase(r: RouterState, id: string, phase: Phase): RouterState
    requires id in r.calls
  {
    r.(calls := r.calls[id := r.calls[id].(phase := phase)])
  }

  function Finish(r: RouterState, id: string, outcome: Outcome): RouterState
    requires id in r.calls
  {
    SetPhase(r, id, Done(outcome))
  }

  /** pop with a default: removes the entry if there is one. */
  function Pop(r: RouterState, id: string, fate: Fate): RouterState {
    if id in r.pending then r.(pending := r.pending - {id}, fates := r.fates[id := fate]) else r
  }

  /** send_to has returned. After a failure the entry is deleted without a default, so a missing entry raises. The
      newer wait_for does not suspend for a future that is already settled. */
  function SendDone(r: RouterState, id: string, sent: bool): RouterState
    requires id in r.calls && r.calls[id].phase == Sending
  {
    if sent then
      var r1 := SetPhase(r, id, Waiting);
      if r.waitFor.Since312? && id in r.futures && r.futures[id] != Unsettled then Resume(r1, id) else r1
    else if id in r.pending then Finish(Pop(r, id, SendFailed), id, NoRoute)
    else Finish(r, id, LostEntry)
  }

  /** The timer of wait_for can end the wait; the older one gives way to a future that is settled. */
  predicate TimerEnabled(r: RouterState, id: string) {
    && id in r.calls && id in r.futures && r.calls[id].phase == Waiting
    && (r.futures[id] == Unsettled || r.waitFor.Since312?)
  }

  /** wait_for's timer: a future still open is cancelled, and the call will raise. */
  function TimerFires(r: RouterState, id: string): RouterState
    requires TimerEnabled(r, id)
  {
    SetPhase(if r.futures[id] == Unsettled then r.(futures := r.futures[id := Cancelled]) else r, id, Expiring)
  }

  function Conclude(m: Message): Outcome {
    if m.msgType == TaskError then RemoteError(ErrorText(m)) else Returned(m)
  }

  /** wait_for is about to return or raise. */
  predicate CanResume(r: RouterState, id: string) {
    && id in r.calls && id in r.futures
    && (r.calls[id].phase == Expiring || (r.calls[id].phase == Waiting && r.futures[id] != Unsettled))
  }

  /** route_task after wait_for. */
  function Resume(r: RouterState, id: string): RouterState
    requires CanResume(r, id)
  {
    if r.calls[id].phase == Expiring || r.futures[id] == TimedOut then Finish(Pop(r, id, Expired), id, TimeoutRaised)
    else if r.futures[id] == Cancelled then Finish(r, id, CancelRaised)
    else Finish(r, id, Conclude(r.futures[id].m))
  }

  /** The caller's own task is cancelled; the pending entry is left behind. The older wait_for ignores this when the
      future is settled. */
  function CallerCancelled(r: RouterState, id: string): RouterState
    requires id in r.calls && id in r.futures && !r.calls[id].phase.Done?
  {
    if CanResume(r, id) && r.calls[id].phase == Waiting && r.waitFor.Before312? then Resume(r, id)
    else
      var cancels := r.calls[id].phase == Waiting && r.futures[id] == Unsettled;
      Finish(if cancels then r.(futures := r.futures[id := Cancelled]) else r, id, CancelRaised)
  }

  // --- inbound -----------------------------------------------------------------------------

  function HandleResponse(r: RouterState, m: Message): RouterState {
    if m.replyTo !in r.pending then r
    else
      var r' := Pop(r, m.replyTo, Answered);
      if m.replyTo in r.futures && r.futures[m.replyTo] == Unsettled
      then r'.(futures := r'.futures[m.replyTo := Answer(m)]) else r'
  }

  function Record(r: RouterState, e: Event): RouterState {
    r.(table := Step(r.table, e), events := r.events + [e])
  }

  /** The list of names a withdrawal carries. */
  function WithdrawnNames(payload: Dict): Option<seq<string>> {
    var names := StringsAt(payload, "agents");
    if names.Ok? then Some(names.value) else None
  }

  /** A withdrawal names agents exactly when its list, if it has one, is the list of those names. */
  lemma WithdrawnExact(payload: Dict, names: seq<string>)
    ensures WithdrawnNames(payload) == Some(names) <==> At(payload, "agents", JArray([])) == JArray(Strings(names))
  {
    assert Strings([]) == [];
    StringsLength(names);
    if "agents" in payload && payload["agents"].JArray? { StringsExact(payload["agents"].items, names); }
  }

  /** _on_mesh_agent_msg up to its first await: a task request is then being handled, a query is answered. */
  function Receive(r: RouterState, d: Dict, env: Defaults, local: seq<AgentCapability>): (RouterState, seq<Message>) {
    var parsed := FromDict(d, env);
    if parsed.Err? || IsExpired(parsed.value, env.now) then (r, [])
    else if parsed.value.dstNode != "" && parsed.value.dstNode != r.nodeId then (r, [])
    else Dispatch(r, parsed.value, env, local)
  }

  /** The handler of each message type. */
  function Dispatch(r: RouterState, m: Message, env: Defaults, local: seq<AgentCapability>): (RouterState, seq<Message>) {
    match m.msgType
    case TaskRequest => (r.(handling := r.handling + multiset{m}), [])
    case TaskResponse => (HandleResponse(r, m), [])
    case TaskError => (HandleResponse(r, m), [])
    case CapabilityQuery =>
      (r, [NewCapabilityReply(r.nodeId, m.srcNode, m.msgId, local, env.msgId, env.sessionId, env.now)])
    case AgentWithdraw =>
      var names := WithdrawnNames(m.payload);
      (if names.Some? then Record(r, Withdrawn(m.srcNode, names.value, env.now)) else r, [])
    case Heartbeat => (Record(r, Beat(m.srcNode, env.now)), [])
    case _ =>
      var caps := CapabilitiesAt(m.payload);
      (if caps.Ok? then Record(r, Announced(m.srcNode, caps.value, env.now)) else r, [])
  }

  /** What the agent runtime made of a request: an exception or no runtime or no agent, or the response data. */
  datatype Handled = Failed(error: string) | Produced(data: Dict)

  function ReplyTo(nodeId: string, m: Message, result: Handled, id: string, now: real): Message {
    match result
    case Failed(error) => NewTaskError(nodeId, m.srcNode, m.msgId, m.sessionId, m.task, error, m.dstAgent, id, now)
    case Produced(data) => MakeReply(m, TaskResponse, data, nodeId, m.dstAgent, id, now)
  }

  /** The rest of handling a request: a reply is built and sent. */
  function FinishHandling(r: RouterState, m: Message, result: Handled, id: string, now: real): (RouterState, Message) {
    (r.(handling := r.handling - multiset{m}), ReplyTo(r.nodeId, m, result, id, now))
  }

  // --- eviction and lifecycle ----------------------------------------------------------------

  function ExpiredIds(r: RouterState, now: real): set<string> {
    set id | id in r.pending && now - r.pending[id].createdAt > r.timeout
  }

  /** Settles the futures of the given calls that are not settled yet. */
  function SettleAll(futures: map<string, FutureState>, ids: set<string>, end: FutureState): map<string, FutureState> {
    map id | id in futures :: if id in ids && futures[id] == Unsettled then end else futures[id]
  }

  /** The first half of the eviction loop's body. */
  function EvictPending(r: RouterState, now: real): RouterState {
    var ids := ExpiredIds(r, now);
    r.(pending := r.pending - ids,
       futures := SettleAll(r.futures, ids, TimedOut),
       fates := r.fates + (map id | id in ids :: Evicted))
  }

  function Evict(r: RouterState, now: real): RouterState {
    if r.running then Record(EvictPending(r, now), Swept(now)) else r
  }

  function Start(r: RouterState): RouterState {
    r.(running := true)
  }

  function Stop(r: RouterState): RouterState {
    if !r.running then r
    else
      r.(running := false, pending := map[],
         futures := SettleAll(r.futures, r.pending.Keys, Cancelled),
         fates := r.fates + (map id | id in r.pending :: Stopped))
  }

  // --- what every step keeps -------------------------------------------------------------------

  function Lookup<T>(m: map<string, T>, id: string): Option<T> {
    if id in m then Some(m[id]) else None
  }

  /** All that a router holds under one message id. */
  datatype Slot = Slot(entry: Option<PendingRequest>, future: Option<FutureState>, call: Option<Call>, fate: Option<Fate>)

  function SlotOf(r: RouterState, id: string): Slot {
    Slot(Lookup(r.pending, id), Lookup(r.futures, id), Lookup(r.calls, id), Lookup(r.fates, id))
  }

  ghost predicate EntryMatches(p: PendingRequest, request: Message, id: string) {
    && p.msgId == id == request.msgId && p.sessionId == request.sessionId
    && p.task == request.task && p.dstNode == request.dstNode
  }

  /** The state of the future of a call that ends with a timeout. */
  predicate EndsWait(f: FutureState, w: WaitFor) {
    f == Cancelled || f == TimedOut || (w.Since312? && f != Unsettled)
  }

  /** How the pending entry, the future, the fate and the progress of one call go together. */
  ghost predicate SlotOk(s: Slot, id: string, w: WaitFor) {
    if s.call.None? then s == Slot(None, None, None, None)
    else
      s.future.Some? &&
      var f, phase := s.future.value, s.call.value.phase;
      && (s.entry.Some? <==> s.fate.None?)
      && (s.entry.Some? ==> EntryMatches(s.entry.value, s.call.value.request, id) && (f == Unsettled || f == Cancelled))
      && (f == Unsettled ==> s.entry.Some? || s.fate == Some(SendFailed))
      && (f.Answer? ==> s.fate == Some(Answered))
      && (f == TimedOut ==> s.fate == Some(Evicted))
      && (phase == Expiring || phase == Done(TimeoutRaised) ==> EndsWait(f, w))
      && (phase.Done? && phase.outcome.Returned? ==> f == Answer(phase.outcome.m) && phase.outcome.m.msgType != TaskError)
      && (phase.Done? && phase.outcome.RemoteError? ==>
            f.Answer? && f.m.msgType == TaskError && phase.outcome.error == ErrorText(f.m))
      && (s.fate == Some(SendFailed) <==> phase == Done(NoRoute))
      && (s.fate == Some(Expired) ==> phase == Done(TimeoutRaised))
      && (phase == Done(LostEntry) ==> s.fate.Some? && s.fate.value != SendFailed && s.fate.value != Expired)
  }

  /** Settled futures, fates, requests and outcomes never change again. */
  ghost predicate SlotSettled(s: Slot, s': Slot) {
    && (s.future.Some? && s.future.value != Unsettled ==> s'.future == s.future)
    && (s.fate.Some? ==> s'.fate == s.fate)
    && (s.call.Some? ==> s'.call.Some? && s'.call.value.request == s.call.value.request)
    && (s.call.Some? && s.call.value.phase.Done? ==> s'.call == s.call)
  }

  ghost predicate RouterInv(r: RouterState) {
    && (forall id: string :: SlotOk(SlotOf(r, id), id, r.waitFor))
    && |r.pending| <= MAX_PENDING
    && r.table == Replay(r.events)
  }

  ghost predicate Settled(r: RouterState, r': RouterState) {
    forall id: string :: SlotSettled(SlotOf(r, id), SlotOf(r', id))
  }

  /** A step that touches one id and does not add a pending entry is judged by that id alone. */
  lemma OneSlot(r: RouterState, r': RouterState, id: string)
    requires RouterInv(r) && r'.waitFor == r.waitFor && r'.table == r.table && r'.events == r.events
    requires forall x :: x != id ==> SlotOf(r', x) == SlotOf(r, x)
    requires SlotOk(SlotOf(r', id), id, r.waitFor) && SlotSettled(SlotOf(r, id), SlotOf(r', id))
    requires |r'.pending| <= MAX_PENDING
    ensures RouterInv(r') && Settled(r, r')
  {
    hide SlotOf, SlotOk, SlotSettled, Replay;
    forall x ensures SlotOk(SlotOf(r', x), x, r.waitFor) && SlotSettled(SlotOf(r, x), SlotOf(r', x)) {
      assert SlotOk(SlotOf(r, x), x, r.waitFor);
      SameSlotSettled(SlotOf(r, x));
    }
  }

  lemma SameSlotSettled(s: Slot)
    ensures SlotSettled(s, s)
  {
  }

  lemma SlotAt(r: RouterState, id: string)
    requires RouterInv(r)
    ensures SlotOk(SlotOf(r, id), id, r.waitFor)
  {
  }

  lemma BeginKeepsInv(r: RouterState, task: string, payload: Dict, dst: string, pick: Option<string>, srcAgent: string,
                      dstAgent: string, timeout: Option<real>, id: string, session: string, now: real)
    requires RouterInv(r) && id !in r.calls
    ensures var r' := Begin(r, task, payload, dst, pick, srcAgent, dstAgent, timeout, id, session, now).0;
      RouterInv(r') && Settled(r, r')
  {
    SlotAt(r, id);
    assert id !in r.fates;
    BeginSlot(r, task, payload, dst, pick, srcAgent, dstAgent, timeout, id, session, now);
    hide RouterInv, Settled, Begin;
    var r' := Begin(r, task, payload, dst, pick, srcAgent, dstAgent, timeout, id, session, now).0;
    PendingBound(r);
    if r' == r {
      SameSlotSettled(SlotOf(r, id));
    } else {
      NewSlotOk(SlotOf(r, id), SlotOf(r', id), id, r.waitFor);
    }
    hide SlotOk, SlotSettled, SlotOf;
    OneSlot(r, r', id);
  }

  /** The slot of a request just registered. */
  ghost predicate NewSlot(s: Slot, id: string) {
    && s.future == Some(Unsettled) && s.fate == None
    && s.call.Some? && s.call.value.phase == Sending
    && s.entry.Some? && EntryMatches(s.entry.value, s.call.value.request, id)
  }

  lemma NewSlotOk(s: Slot, s': Slot, id: string, w: WaitFor)
    requires s.call.None? && SlotOk(s, id, w) && NewSlot(s', id)
    ensures SlotOk(s', id, w) && SlotSettled(s, s')
  {
  }

  lemma RegisterSlot(r: RouterState, entry: PendingRequest, call: Call)
    requires |r.pending| < MAX_PENDING && entry.msgId !in r.fates && call.phase == Sending
    requires EntryMatches(entry, call.request, entry.msgId)
    ensures var r' := Register(r, entry, call);
      && |r'.pending| <= MAX_PENDING && NewSlot(SlotOf(r', entry.msgId), entry.msgId)
      && forall x :: x != entry.msgId ==> SlotOf(r', x) == SlotOf(r, x)
  {
    assert Register(r, entry, call).pending.Keys == r.pending.Keys + {entry.msgId};
  }

  lemma BeginSlot(r: RouterState, task: string, payload: Dict, dst: string, pick: Option<string>, srcAgent: string,
                  dstAgent: string, timeout: Option<real>, id: string, session: string, now: real)
    requires id !in r.fates
    ensures var r' := Begin(r, task, payload, dst, pick, srcAgent, dstAgent, timeout, id, session, now).0;
      r' == r || (r'.waitFor == r.waitFor && r'.table == r.table && r'.events == r.events && |r'.pending| <= MAX_PENDING
                  && NewSlot(SlotOf(r', id), id) && forall x :: x != id ==> SlotOf(r', x) == SlotOf(r, x))
  {
    hide NewSlot, SlotOf, EntryMatches;
    var target := if dst == "" && pick.Some? then pick.value else dst;
    var msg := NewTaskRequest(r.nodeId, target, task, payload, srcAgent, dstAgent, id, session, now);
    var entry := PendingRequest(id, session, task, target, now);
    var call := Call(msg, if timeout.Some? then timeout.value else r.timeout, Sending);
    NewEntryMatches(r.nodeId, target, task, payload, srcAgent, dstAgent, id, session, now);
    if |r.pending| < MAX_PENDING { RegisterSlot(r, entry, call); }
    RegisterFrame(r, entry, call);
    hide Register, NewTaskRequest;
  }

  lemma RegisterFrame(r: RouterState, entry: PendingRequest, call: Call)
    ensures var r' := Register(r, entry, call);
      r'.waitFor == r.waitFor && r'.table == r.table && r'.events == r.events
  {
  }

  lemma NewEntryMatches(src: string, dst: string, task: string, payload: Dict, srcAgent: string, dstAgent: string,
                        id: string, session: string, now: real)
    ensures EntryMatches(PendingRequest(id, session, task, dst, now),
                         NewTaskRequest(src, dst, task, payload, srcAgent, dstAgent, id, session, now), id)
  {
  }

  lemma PendingBound(r: RouterState)
    requires RouterInv(r)
    ensures |r.pending| <= MAX_PENDING
  {
  }

  lemma PendingShrinks(r: RouterState, ids: set<string>)
    requires RouterInv(r)
    ensures |r.pending - ids| <= MAX_PENDING
  {
    SubsetSize((r.pending - ids).Keys, r.pending.Keys);
  }

  /** The end of send_to, seen from the slot of the call. */
  function AfterSend(s: Slot, sent: bool, w: WaitFor): Slot
    requires s.call.Some?
  {
    var call := s.call.value;
    if sent then
      var s1 := s.(call := Some(call.(phase := Waiting)));
      if w.Since312? && s.future.Some? && s.future.value != Unsettled then Resumed(s1) else s1
    else if s.entry.Some? then s.(entry := None, fate := Some(SendFailed), call := Some(call.(phase := Done(NoRoute))))
    else s.(call := Some(call.(phase := Done(LostEntry))))
  }

  lemma AfterSendOk(s: Slot, id: string, sent: bool, w: WaitFor)
    requires SlotOk(s, id, w) && s.call.Some? && s.call.value.phase == Sending
    ensures SlotOk(AfterSend(s, sent, w), id, w) && SlotSettled(s, AfterSend(s, sent, w))
  {
    hide Resumed;
    if sent && w.Since312? && s.future.value != Unsettled {
      ResumedOk(s.(call := Some(s.call.value.(phase := Waiting))), id, w);
    }
  }

  lemma SendDoneKeepsInv(r: RouterState, id: string, sent: bool)
    requires RouterInv(r) && id in r.calls && r.calls[id].phase == Sending
    ensures RouterInv(SendDone(r, id, sent)) && Settled(r, SendDone(r, id, sent))
  {
    SlotAt(r, id);
    SendDoneEffect(r, id, sent);
    hide RouterInv, Settled, SlotOk, SlotSettled, SendDone, AfterSend;
    PendingBound(r);
    PendingShrinks(r, {id});
    AfterSendOk(SlotOf(r, id), id, sent, r.waitFor);
    OneSlot(r, SendDone(r, id, sent), id);
  }

  /** r' is r with at most the entry of one id taken out and nothing changed under other ids. */
  ghost predicate Touches(r: RouterState, r': RouterState, id: string) {
    && (r'.pending == r.pending || r'.pending == r.pending - {id})
    && r'.waitFor == r.waitFor && r'.table == r.table && r'.events == r.events
    && forall x :: x != id ==> SlotOf(r', x) == SlotOf(r, x)
  }

  lemma SendDoneEffect(r: RouterState, id: string, sent: bool)
    requires id in r.calls && r.calls[id].phase == Sending
    ensures Touches(r, SendDone(r, id, sent), id)
    ensures SlotOf(SendDone(r, id, sent), id) == AfterSend(SlotOf(r, id), sent, r.waitFor)
  {
    hide Resume, Resumed;
    if sent {
      PhaseEffect(r, id, Waiting);
      var r1 := SetPhase(r, id, Waiting);
      if CanResume(r1, id) { ResumeEffect(r1, id); }
    } else if id in r.pending {
      PopEffect(r, id, SendFailed);
      PhaseEffect(Pop(r, id, SendFailed), id, Done(NoRoute));
    } else {
      PhaseEffect(r, id, Done(LostEntry));
    }
  }

  lemma PhaseEffect(r: RouterState, id: string, phase: Phase)
    requires id in r.calls
    ensures var r' := SetPhase(r, id, phase);
      && Touches(r, r', id) && r'.pending == r.pending
      && SlotOf(r', id) == SlotOf(r, id).(call := Some(r.calls[id].(phase := phase)))
  {
  }

  lemma PopEffect(r: RouterState, id: string, fate: Fate)
    ensures var r' := Pop(r, id, fate);
      && Touches(r, r', id) && r'.calls == r.calls
      && SlotOf(r', id) == if id in r.pending then SlotOf(r, id).(entry := None, fate := Some(fate)) else SlotOf(r, id)
  {
  }

  lemma TimerKeepsInv(r: RouterState, id: string)
    requires RouterInv(r) && TimerEnabled(r, id)
    ensures RouterInv(TimerFires(r, id)) && Settled(r, TimerFires(r, id))
  {
    hide RouterInv, Settled;
    SlotAt(r, id);
    PendingBound(r);
    OneSlot(r, TimerFires(r, id), id);
  }

  lemma ResumeKeepsInv(r: RouterState, id: string)
    requires RouterInv(r) && CanResume(r, id)
    ensures RouterInv(Resume(r, id)) && Settled(r, Resume(r, id))
  {
    SlotAt(r, id);
    ResumeEffect(r, id);
    hide RouterInv, Settled, SlotOk, SlotSettled, Resume, Resumed;
    PendingBound(r);
    PendingShrinks(r, {id});
    ResumedOk(SlotOf(r, id), id, r.waitFor);
    OneSlot(r, Resume(r, id), id);
  }

  lemma ResumeEffect(r: RouterState, id: string)
    requires CanResume(r, id)
    ensures Touches(r, Resume(r, id), id)
    ensures SlotOf(Resume(r, id), id) == Resumed(SlotOf(r, id))
  {
    hide Conclude;
    if r.calls[id].phase == Expiring || r.futures[id] == TimedOut {
      PopEffect(r, id, Expired);
      PhaseEffect(Pop(r, id, Expired), id, Done(TimeoutRaised));
    } else if r.futures[id] == Cancelled {
      PhaseEffect(r, id, Done(CancelRaised));
    } else {
      PhaseEffect(r, id, Done(Conclude(r.futures[id].m)));
    }
  }

  /** Resuming, seen from the slot of the call. */
  function Resumed(s: Slot): Slot
    requires s.call.Some? && s.future.Some?
  {
    var f, call := s.future.value, s.call.value;
    if call.phase == Expiring || f == TimedOut then
      s.(entry := None, fate := if s.entry.Some? then Some(Expired) else s.fate,
         call := Some(call.(phase := Done(TimeoutRaised))))
    else if f == Cancelled || f == Unsettled then s.(call := Some(call.(phase := Done(CancelRaised))))
    else s.(call := Some(call.(phase := Done(Conclude(f.m)))))
  }

  lemma ResumedOk(s: Slot, id: string, w: WaitFor)
    requires SlotOk(s, id, w) && s.call.Some?
    requires s.call.value.phase == Expiring || (s.call.value.phase == Waiting && s.future.value != Unsettled)
    ensures SlotOk(Resumed(s), id, w) && SlotSettled(s, Resumed(s))
  {
  }

  lemma CancelKeepsInv(r: RouterState, id: string)
    requires RouterInv(r) && id in r.calls && id in r.futures && !r.calls[id].phase.Done?
    ensures RouterInv(CallerCancelled(r, id)) && Settled(r, CallerCancelled(r, id))
  {
    hide RouterInv, Settled, Resume;
    if CanResume(r, id) { ResumeKeepsInv(r, id); }
    SlotAt(r, id);
    PendingBound(r);
    if !(r.calls[id].phase == Waiting && r.futures[id] != Unsettled && r.waitFor.Before312?) {
      OneSlot(r, CallerCancelled(r, id), id);
    }
  }

  lemma ResponseKeepsInv(r: RouterState, m: Message)
    requires RouterInv(r)
    ensures RouterInv(HandleResponse(r, m)) && Settled(r, HandleResponse(r, m))
  {
    ResponseSlot(r, m);
    SlotAt(r, m.replyTo);
    PendingBound(r);
    PendingShrinks(r, {m.replyTo});
    SameSlotSettled(SlotOf(r, m.replyTo));
    hide RouterInv, Settled, HandleResponse;
    OneSlot(r, HandleResponse(r, m), m.replyTo);
  }

  lemma ResponseSlot(r: RouterState, m: Message)
    ensures var r' := HandleResponse(r, m);
      var s := SlotOf(r, m.replyTo);
      && Touches(r, r', m.replyTo)
      && SlotOf(r', m.replyTo) == if s.entry.None? then s else s.(
           entry := None, fate := Some(Answered), future := if s.future == Some(Unsettled) then Some(Answer(m)) else s.future)
  {
    PopEffect(r, m.replyTo, Answered);
    hide Pop;
    if m.replyTo in r.pending { PopFutures(r, m.replyTo, Answered); }
  }

  lemma PopFutures(r: RouterState, id: string, fate: Fate)
    ensures Pop(r, id, fate).futures == r.futures
  {
  }

  /** Changes outside the slots. */
  lemma SlotsFrame(r: RouterState, r': RouterState)
    requires RouterInv(r) && r'.table == Replay(r'.events)
    requires r'.pending == r.pending && r'.futures == r.futures && r'.calls == r.calls && r'.fates == r.fates
    requires r'.waitFor == r.waitFor
    ensures RouterInv(r') && Settled(r, r')
  {
    hide SlotOk, SlotSettled, Replay;
    forall x ensures SlotOk(SlotOf(r', x), x, r.waitFor) && SlotSettled(SlotOf(r, x), SlotOf(r', x)) {
      assert SlotOf(r', x) == SlotOf(r, x);
      SameSlotSettled(SlotOf(r, x));
    }
  }

  lemma RecordKeepsInv(r: RouterState, e: Event)
    requires RouterInv(r)
    ensures RouterInv(Record(r, e)) && Settled(r, Record(r, e))
  {
    hide SlotOk, SlotOf, Step;
    assert (r.events + [e])[..|r.events|] == r.events;
    SlotsFrame(r, Record(r, e));
  }

  /** Settling the future of an entry that leaves the table without an answer. */
  function Ended(s: Slot, end: FutureState, fate: Fate): Slot {
    s.(entry := None, fate := Some(fate),
       future := if s.future == Some(Unsettled) then Some(end) else s.future)
  }

  lemma EndedOk(s: Slot, id: string, end: FutureState, fate: Fate, w: WaitFor)
    requires SlotOk(s, id, w) && s.entry.Some?
    requires (end == TimedOut && fate == Evicted) || (end == Cancelled && fate == Stopped)
    ensures SlotOk(Ended(s, end, fate), id, w) && SlotSettled(s, Ended(s, end, fate))
  {
  }

  lemma EvictedSlot(r: RouterState, now: real, x: string)
    ensures SlotOf(EvictPending(r, now), x)
         == if x in ExpiredIds(r, now) then Ended(SlotOf(r, x), TimedOut, Evicted) else SlotOf(r, x)
  {
  }

  lemma EvictPendingKeepsInv(r: RouterState, now: real)
    requires RouterInv(r)
    ensures RouterInv(EvictPending(r, now)) && Settled(r, EvictPending(r, now))
  {
    PendingShrinks(r, ExpiredIds(r, now));
    EvictFrame(r, now);
    hide Replay, EvictPending, SlotOk, SlotSettled, Ended;
    forall x ensures SlotOk(SlotOf(EvictPending(r, now), x), x, r.waitFor) && SlotSettled(SlotOf(r, x), SlotOf(EvictPending(r, now), x)) {
      SlotAt(r, x);
      EvictedSlot(r, now, x);
      SameSlotSettled(SlotOf(r, x));
      if x in r.pending { EndedOk(SlotOf(r, x), x, TimedOut, Evicted, r.waitFor); }
    }
  }

  lemma EvictFrame(r: RouterState, now: real)
    ensures var r' := EvictPending(r, now);
      r'.pending == r.pending - ExpiredIds(r, now) && r'.waitFor == r.waitFor && r'.table == r.table && r'.events == r.events
  {
  }

  /** What a sweep, or a stop, leaves under an id. */
  function SweptSlot(r: RouterState, now: real, x: string): Slot {
    if r.running && x in ExpiredIds(r, now) then Ended(SlotOf(r, x), TimedOut, Evicted) else SlotOf(r, x)
  }

  function StoppedSlotOf(r: RouterState, x: string): Slot {
    if r.running && x in r.pending then Ended(SlotOf(r, x), Cancelled, Stopped) else SlotOf(r, x)
  }

  /** A sweep of a running router takes out exactly the entries past the timeout, settles exactly their futures that
      are still open, with a timeout, and touches nothing else. */
  lemma EvictKeepsInv(r: RouterState, now: real)
    requires RouterInv(r)
    ensures RouterInv(Evict(r, now)) && Settled(r, Evict(r, now))
    ensures forall x :: SlotOf(Evict(r, now), x) == SweptSlot(r, now, x)
  {
    hide RouterInv, EvictPending, ExpiredIds, Settled, Ended;
    if r.running {
      forall x ensures SlotOf(Evict(r, now), x) == SweptSlot(r, now, x) { EvictedSlot(r, now, x); }
      EvictPendingKeepsInv(r, now);
      RecordKeepsInv(EvictPending(r, now), Swept(now));
      SettledTransitive(r, EvictPending(r, now), Evict(r, now));
    } else {
      SettledReflexive(r);
    }
  }

  lemma SettledReflexive(r: RouterState)
    ensures Settled(r, r)
  {
    hide SlotOf;
  }

  lemma SettledTransitive(a: RouterState, b: RouterState, c: RouterState)
    requires Settled(a, b) && Settled(b, c)
    ensures Settled(a, c)
  {
    hide SlotOf;
    forall x ensures SlotSettled(SlotOf(a, x), SlotOf(c, x)) {
      assert SlotSettled(SlotOf(a, x), SlotOf(b, x)) && SlotSettled(SlotOf(b, x), SlotOf(c, x));
    }
  }

  lemma StartKeepsInv(r: RouterState)
    requires RouterInv(r)
    ensures RouterInv(Start(r)) && Settled(r, Start(r))
  {
    SlotsFrame(r, Start(r));
  }

  lemma StoppedSlot(r: RouterState, x: string)
    requires r.running
    ensures SlotOf(Stop(r), x) == if x in r.pending then Ended(SlotOf(r, x), Cancelled, Stopped) else SlotOf(r, x)
  {
  }

  /** Stopping a running router takes out every entry, cancels exactly their futures that are still open, and touches
      nothing else. */
  lemma StopKeepsInv(r: RouterState)
    requires RouterInv(r)
    ensures RouterInv(Stop(r)) && Settled(r, Stop(r))
    ensures forall x :: SlotOf(Stop(r), x) == StoppedSlotOf(r, x)
  {
    assert |Stop(r).pending| <= |r.pending| && Stop(r).table == r.table && Stop(r).events == r.events;
    hide Replay, Stop, SlotOk, SlotSettled, Ended;
    forall x
      ensures SlotOk(SlotOf(Stop(r), x), x, r.waitFor) && SlotSettled(SlotOf(r, x), SlotOf(Stop(r), x))
      ensures SlotOf(Stop(r), x) == StoppedSlotOf(r, x)
    {
      SlotAt(r, x);
      SameSlotSettled(SlotOf(r, x));
      if r.running { StoppedSlot(r, x); } else { assert Stop(r) == r by { StopIdle(r); } }
      if x in r.pending { EndedOk(SlotOf(r, x), x, Cancelled, Stopped, r.waitFor); }
    }
  }

  lemma StopIdle(r: RouterState)
    requires !r.running
    ensures Stop(r) == r
  {
  }

  lemma ReceiveKeepsInv(r: RouterState, d: Dict, env: Defaults, local: seq<AgentCapability>)
    requires RouterInv(r)
    ensures RouterInv(Receive(r, d, env, local).0) && Settled(r, Receive(r, d, env, local).0)
  {
    hide FromDict, RouterInv, Settled, HandleResponse, Record, CapabilitiesAt, WithdrawnNames;
    SettledReflexive(r);
    var parsed := FromDict(d, env);
    if parsed.Ok? {
      var m := parsed.value;
      ResponseKeepsInv(r, m);
      HandlingFrame(r, r.handling + multiset{m});
      var names, caps := WithdrawnNames(m.payload), CapabilitiesAt(m.payload);
      if names.Some? { RecordKeepsInv(r, Withdrawn(m.srcNode, names.value, env.now)); }
      RecordKeepsInv(r, Beat(m.srcNode, env.now));
      if caps.Ok? { RecordKeepsInv(r, Announced(m.srcNode, caps.value, env.now)); }
    }
  }

  lemma HandlingFrame(r: RouterState, handling: multiset<Message>)
    requires RouterInv(r)
    ensures RouterInv(r.(handling := handling)) && Settled(r, r.(handling := handling))
  {
    SlotsFrame(r, r.(handling := handling));
  }

  // --- consequences ----------------------------------------------------------------------------

  ghost function WithFate(r: RouterState, fate: Fate): set<string> {
    set id | id in r.fates && r.fates[id] == fate
  }

  /** Every registered request is either waiting in the table or was taken out of it in exactly one way, and the
      counts add up. */
  lemma Accounting(r: RouterState)
    requires RouterInv(r)
    ensures |r.calls| == |r.pending| + |WithFate(r, Answered)| + |WithFate(r, SendFailed)| + |WithFate(r, Expired)|
                       + |WithFate(r, Evicted)| + |WithFate(r, Stopped)|
    ensures forall id :: id in r.calls ==> (id in r.pending <==> id !in r.fates)
    ensures r.pending.Keys <= r.calls.Keys && r.fates.Keys <= r.calls.Keys
  {
    hide RouterInv, WithFate, SlotOf;
    forall id ensures id in r.calls ==> (id in r.pending <==> id !in r.fates)
              ensures id in r.pending || id in r.fates ==> id in r.calls
    {
      PendingOrFated(r, id);
    }
    assert r.calls.Keys == r.pending.Keys + r.fates.Keys;
    assert |r.pending.Keys + r.fates.Keys| == |r.pending.Keys| + |r.fates.Keys|;
    FatesSum(r);
  }

  lemma PendingOrFated(r: RouterState, id: string)
    requires RouterInv(r)
    ensures id in r.calls ==> (id in r.pending <==> id !in r.fates)
    ensures id in r.pending || id in r.fates ==> id in r.calls
  {
    SlotAt(r, id);
  }

  lemma FatesSum(r: RouterState)
    ensures |r.fates| == |WithFate(r, Answered)| + |WithFate(r, SendFailed)| + |WithFate(r, Expired)|
                       + |WithFate(r, Evicted)| + |WithFate(r, Stopped)|
  {
    var a, s, x, e, p := WithFate(r, Answered), WithFate(r, SendFailed), WithFate(r, Expired), WithFate(r, Evicted), WithFate(r, Stopped);
    FateSetsCover(r);
    hide WithFate;
    FateSetsDisjoint(r, Answered, SendFailed);
    FateSetsDisjoint(r, Answered, Expired);
    FateSetsDisjoint(r, SendFailed, Expired);
    FateSetsDisjoint(r, Answered, Evicted);
    FateSetsDisjoint(r, SendFailed, Evicted);
    FateSetsDisjoint(r, Expired, Evicted);
    FateSetsDisjoint(r, Answered, Stopped);
    FateSetsDisjoint(r, SendFailed, Stopped);
    FateSetsDisjoint(r, Expired, Stopped);
    FateSetsDisjoint(r, Evicted, Stopped);
    UnionSize(a, s);
    UnionSize(a + s, x);
    UnionSize(a + s + x, e);
    UnionSize(a + s + x + e, p);
  }

  lemma FateSetsDisjoint(r: RouterState, f: Fate, g: Fate)
    requires f != g
    ensures WithFate(r, f) !! WithFate(r, g)
  {
  }

  lemma FateSetsCover(r: RouterState)
    ensures r.fates.Keys == WithFate(r, Answered) + WithFate(r, SendFailed) + WithFate(r, Expired) + WithFate(r, Evicted) + WithFate(r, Stopped)
  {
    forall id | id in r.fates
      ensures id in WithFate(r, Answered) + WithFate(r, SendFailed) + WithFate(r, Expired) + WithFate(r, Evicted) + WithFate(r, Stopped)
    {
      match r.fates[id] {
        case Answered =>
        case SendFailed =>
        case Expired =>
        case Evicted =>
        case Stopped =>
      }
    }
  }

  lemma UnionSize(a: set<string>, b: set<string>)
    requires a !! b
    ensures |a + b| == |a| + |b|
  {
  }

  /** An entry of the pending table never has a future with a result or an exception. */
  lemma PendingUnsettled(r: RouterState, id: string)
    requires RouterInv(r) && id in r.pending
    ensures id in r.futures && (r.futures[id] == Unsettled || r.futures[id] == Cancelled)
  {
    SlotAt(r, id);
  }

  /** The unconditional delete after a failed send raises exactly when the entry was answered, evicted or stopped
      while the send was under way. */
  lemma FailedSendRaises(r: RouterState, id: string)
    requires RouterInv(r) && id in r.calls && r.calls[id].phase == Sending
    ensures SendDone(r, id, false).calls[id].phase == (if id in r.fates then Done(LostEntry) else Done(NoRoute))
    ensures id in r.fates ==> r.fates[id] in {Answered, Evicted, Stopped}
  {
    SlotAt(r, id);
    SendDoneKeepsInv(r, id, false);
    SlotAt(SendDone(r, id, false), id);
    if id in r.fates {
      match r.fates[id] {
        case Answered =>
        case SendFailed =>
        case Expired =>
        case Evicted =>
        case Stopped =>
      }
    }
  }

  /** It can come to that: any request that is stopped while it is being sent ends so when the send then fails. */
  lemma LostEntryReachable(r: RouterState, task: string, payload: Dict, dst: string, srcAgent: string, dstAgent: string,
                           timeout: Option<real>, id: string, session: string, now: real)
    requires RouterInv(r) && r.running && |r.pending| < MAX_PENDING && dst != "" && id !in r.calls
    ensures var r1 := Begin(r, task, payload, dst, None, srcAgent, dstAgent, timeout, id, session, now).0;
      var r2 := Stop(r1);
      id in r2.calls && r2.calls[id].phase == Sending && SendDone(r2, id, false).calls[id].phase == Done(LostEntry)
  {
    hide RouterInv;
  }

  /** A sweep settles a waiting call by the router's timeout, counted from the registration, and not by the timeout
      given to the call, counted from the end of the send. Some sweep in time for the call's own deadline ends it
      exactly when the router's timeout is up before that deadline. */
  lemma SweepIgnoresCallTimeout(r: RouterState, id: string, since: real)
    requires RouterInv(r) && r.running && id in r.pending && Lookup(r.futures, id) == Some(Unsettled)
    requires id in r.calls && r.calls[id].timeout > 0.0
    ensures forall now: real ::
      Lookup(Evict(r, now).futures, id) == Some(TimedOut) <==> now - r.pending[id].createdAt > r.timeout
    ensures var deadline := since + r.calls[id].timeout;
      (exists now: real :: since <= now < deadline && Lookup(Evict(r, now).futures, id) == Some(TimedOut))
      <==> r.pending[id].createdAt + r.timeout < deadline
  {
    SlotAt(r, id);
    hide RouterInv, Record;
    forall now: real
      ensures Lookup(Evict(r, now).futures, id) == Some(TimedOut) <==> now - r.pending[id].createdAt > r.timeout
    {
      SweptFuture(r, id, now);
    }
    var deadline := since + r.calls[id].timeout;
    var due := r.pending[id].createdAt + r.timeout;
    if due < deadline {
      var now := ((if due < since then since else due) + deadline) / 2.0;
      assert since <= now < deadline && Lookup(Evict(r, now).futures, id) == Some(TimedOut);
    }
  }

  lemma SweptFuture(r: RouterState, id: string, now: real)
    requires r.running && id in r.pending && Lookup(r.futures, id) == Some(Unsettled)
    ensures Lookup(Evict(r, now).futures, id) == Some(TimedOut) <==> now - r.pending[id].createdAt > r.timeout
  {
    hide Step;
  }
}
