/** Each call of a router as an automaton of its own: what may happen to it, and what it becomes. */
module RouterSlots {
  import opened Common
  import opened Messages
  import opened CapabilityTable
  import opened Router
  import opened RouterNet
  import opened RouterRuns

  /** What one step of a run means for the call under one message id of one router. */
  datatype Happening =
    | Registers(entry: PendingRequest, call: Call)
    | SendEnds(sent: bool)
    | TimerGoes
    | Resumes
    | CallerStops
    | ResponseComes(m: Message)
    | GrowsOld
    | RouterStops
    | Nothing

  /** wait_for returns or raises. */
  function Over(s: Slot): Slot
    requires s.call.Some? && s.future.Some? && s.future != Some(Unsettled)
  {
    var call := s.call.value;
    if call.phase == Expiring || s.future == Some(TimedOut) then
      Slot(None, s.future, Some(Call(call.request, call.timeout, Done(TimeoutRaised))),
           if s.entry.Some? then Some(Expired) else s.fate)
    else
      var outcome :=
        if s.future == Some(Cancelled) then CancelRaised
        else
          var m := s.future.value.m;
          if m.msgType != TaskError then Returned(m)
          else if "error" in m.payload then RemoteError(m.payload["error"])
          else RemoteError(JString("unknown error"));
      Slot(s.entry, s.future, Some(Call(call.request, call.timeout, Done(outcome))), s.fate)
  }

  /** Taken out of the table, with the future settled if it is open. */
  function TakenOut(s: Slot, fate: Fate, end: FutureState): Slot {
    if s.entry.None? then s
    else Slot(None, if s.future == Some(Unsettled) then Some(end) else s.future, s.call, Some(fate))
  }

  /** What a call becomes. */
  function After(s: Slot, h: Happening, w: WaitFor): Slot {
    if h.Registers? then Slot(Some(h.entry), Some(Unsettled), Some(h.call), None)
    else if s.call.None? || s.future.None? then s
    else
      var call, open := s.call.value, s.future == Some(Unsettled);
      match h
      case SendEnds(sent) =>
        if call.phase != Sending then s
        else if sent && w.Since312? && !open then Over(s)
        else if sent then Slot(s.entry, s.future, Some(Call(call.request, call.timeout, Waiting)), s.fate)
        else if s.entry.Some? then Slot(None, s.future, Some(Call(call.request, call.timeout, Done(NoRoute))), Some(SendFailed))
        else Slot(None, s.future, Some(Call(call.request, call.timeout, Done(LostEntry))), s.fate)
      case TimerGoes =>
        if call.phase != Waiting || (!open && w.Before312?) then s
        else Slot(s.entry, if open then Some(Cancelled) else s.future, Some(Call(call.request, call.timeout, Expiring)), s.fate)
      case Resumes =>
        if !open && (call.phase == Waiting || call.phase == Expiring) then Over(s) else s
      case CallerStops =>
        if call.phase.Done? then s
        else if call.phase == Waiting && !open && w.Before312? then Over(s)
        else Slot(s.entry, if call.phase == Waiting && open then Some(Cancelled) else s.future,
                  Some(Call(call.request, call.timeout, Done(CancelRaised))), s.fate)
      case ResponseComes(m) => TakenOut(s, Answered, Answer(m))
      case GrowsOld => TakenOut(s, Evicted, TimedOut)
      case RouterStops => TakenOut(s, Stopped, Cancelled)
      case _ => s
  }

  /** A message on the network reaches the node in time and is meant for it or for everyone. */
  predicate Arrives(s: System, step: NetStep, node: string) {
    && step.Deliver? && step.node == node && step.m in s.net
    && step.env.now - step.m.timestamp <= 60.0 && (step.m.dstNode == "" || step.m.dstNode == node)
  }

  /** The node asks under a new id, is running, has room, and there is a node to ask. */
  predicate Asks(s: System, step: NetStep, node: string)
    requires node in s.routers
  {
    && step.Ask? && step.node == node && !IdTaken(s, step.id)
    && Selectable(s.routers[node].table, step.task, step.dst, step.pick)
    && s.routers[node].running && |s.routers[node].pending| < 256
    && (step.dst != "" || step.pick.Some?)
  }

  function Asked(step: NetStep): string
    requires step.Ask? && (step.dst != "" || step.pick.Some?)
  {
    if step.dst != "" then step.dst else step.pick.value
  }

  function HappeningOf(s: System, step: NetStep, node: string, id: string): Happening
    requires node in s.routers
  {
    var r := s.routers[node];
    match step
    case Ask(_, task, payload, dst, pick, srcAgent, dstAgent, timeout, x, session, now) =>
      if x == id && Asks(s, step, node) then
        Registers(PendingRequest(id, session, task, Asked(step), now),
                  Call(Message(TaskRequest, node, Asked(step), srcAgent, dstAgent, task, payload, "", 8, id, session, now, 1),
                       match timeout { case Some(t) => t case None => r.timeout }, Sending))
      else Nothing
    case Local(at, l) =>
      if at != node then Nothing
      else
        (match l
         case SendReturns(x, sent) => if x == id then SendEnds(sent) else Nothing
         case Timer(x) => if x == id then TimerGoes else Nothing
         case Continue(x) => if x == id then Resumes else Nothing
         case CancelCall(x) => if x == id then CallerStops else Nothing
         case Sweep(now) =>
           if r.running && id in r.pending && now - r.pending[id].createdAt > r.timeout then GrowsOld else Nothing
         case Startup => Nothing
         case Shutdown => if r.running then RouterStops else Nothing)
    case Deliver(_, m, keep, env, local) =>
      if Arrives(s, step, node) && m.msgType in {TaskResponse, TaskError} && m.replyTo == id then ResponseComes(m) else Nothing
    case _ => Nothing
  }

  // --- one step of one router ------------------------------------------------------------------

  lemma OverIsResume(r: RouterState, id: string)
    requires CanResume(r, id) && (r.calls[id].phase == Expiring ==> r.futures[id] != Unsettled)
    ensures SlotOf(Resume(r, id), id) == Over(SlotOf(r, id))
  {
    ResumeEffect(r, id);
    hide Resume;
  }

  lemma SendSlot(r: RouterState, x: string, sent: bool, id: string)
    requires RouterInv(r) && x in r.calls && r.calls[x].phase == Sending
    ensures SlotOf(SendDone(r, x, sent), id) == if x == id then After(SlotOf(r, id), SendEnds(sent), r.waitFor) else SlotOf(r, id)
  {
    SlotAt(r, x);
    SendDoneEffect(r, x, sent);
    hide RouterInv, SendDone;
  }

  lemma TimerSlot(r: RouterState, x: string, id: string)
    requires TimerEnabled(r, x)
    ensures SlotOf(TimerFires(r, x), id) == if x == id then After(SlotOf(r, id), TimerGoes, r.waitFor) else SlotOf(r, id)
  {
  }

  lemma ResumeSlot(r: RouterState, x: string, id: string)
    requires RouterInv(r) && CanResume(r, x)
    ensures SlotOf(Resume(r, x), id) == if x == id then After(SlotOf(r, id), Resumes, r.waitFor) else SlotOf(r, id)
  {
    SlotAt(r, x);
    ResumeEffect(r, x);
    OverIsResume(r, x);
    hide RouterInv, Resume, Resumed, Over, Conclude;
  }

  lemma CancelSlot(r: RouterState, x: string, id: string)
    requires RouterInv(r) && x in r.calls && x in r.futures && !r.calls[x].phase.Done?
    ensures SlotOf(CallerCancelled(r, x), id) == if x == id then After(SlotOf(r, id), CallerStops, r.waitFor) else SlotOf(r, id)
  {
    SlotAt(r, x);
    if CanResume(r, x) {
      ResumeEffect(r, x);
      OverIsResume(r, x);
    }
    hide RouterInv, Resume, Resumed, Over, Conclude, SlotOk;
  }

  lemma StartSlot(r: RouterState, id: string)
    ensures SlotOf(Start(r), id) == SlotOf(r, id)
  {
  }

  lemma StopSlot(r: RouterState, id: string)
    requires RouterInv(r)
    ensures SlotOf(Stop(r), id) == if r.running then After(SlotOf(r, id), RouterStops, r.waitFor) else SlotOf(r, id)
  {
    SlotAt(r, id);
    if r.running { StoppedSlot(r, id); } else { StopIdle(r); }
    hide RouterInv, Stop;
  }

  lemma SweepSlot(r: RouterState, now: real, id: string)
    requires RouterInv(r)
    ensures SlotOf(Evict(r, now), id)
      == if r.running && id in r.pending && now - r.pending[id].createdAt > r.timeout
         then After(SlotOf(r, id), GrowsOld, r.waitFor) else SlotOf(r, id)
  {
    SlotAt(r, id);
    EvictedSlot(r, now, id);
    hide RouterInv, EvictPending, Step;
    assert r.running ==> SlotOf(Evict(r, now), id) == SlotOf(EvictPending(r, now), id);
  }

  lemma ResponseSlotOf(r: RouterState, m: Message, id: string)
    requires RouterInv(r)
    ensures SlotOf(HandleResponse(r, m), id)
      == if m.replyTo == id then After(SlotOf(r, id), ResponseComes(m), r.waitFor) else SlotOf(r, id)
  {
    SlotAt(r, m.replyTo);
    ResponseSlot(r, m);
    hide RouterInv, HandleResponse;
  }

  lemma LocalSlot(s: System, node: string, l: LocalStep, id: string)
    requires node in s.routers && RouterInv(s.routers[node])
    ensures var r := s.routers[node];
      && SlotOf(LocalNext(r, l), id) == After(SlotOf(r, id), HappeningOf(s, Local(node, l), node, id), r.waitFor)
      && LocalNext(r, l).running == (if l.Startup? then true else if l.Shutdown? then false else r.running)
      && LocalNext(r, l).handling == r.handling && SameRouter(r, LocalNext(r, l))
  {
    var r := s.routers[node];
    LocalFrame(r, l);
    SlotAt(r, id);
    NothingAfter(SlotOf(r, id), r.waitFor);
    hide After, SlotOf, RouterInv, SendDone, TimerFires, Resume, CallerCancelled, Evict, Stop;
    match l {
      case SendReturns(x, sent) =>
        if x in r.calls && r.calls[x].phase == Sending { SendSlot(r, x, sent, id); }
      case Timer(x) => if TimerEnabled(r, x) { TimerSlot(r, x, id); }
      case Continue(x) => if CanResume(r, x) { ResumeSlot(r, x, id); }
      case CancelCall(x) => if x in r.calls && x in r.futures && !r.calls[x].phase.Done? { CancelSlot(r, x, id); }
      case Sweep(now) => SweepSlot(r, now, id);
      case Startup => StartSlot(r, id);
      case Shutdown => StopSlot(r, id);
    }
  }

  /** What a router never changes. */
  predicate SameRouter(r: RouterState, r': RouterState) {
    r'.nodeId == r.nodeId && r'.timeout == r.timeout && r'.waitFor == r.waitFor
  }

  lemma LocalFrame(r: RouterState, l: LocalStep)
    ensures var r' := LocalNext(r, l);
      && r'.running == (if l.Startup? then true else if l.Shutdown? then false else r.running)
      && r'.handling == r.handling && SameRouter(r, r')
  {
    hide SendDone, TimerFires, Resume, CallerCancelled, Evict;
    match l {
      case SendReturns(x, sent) => if x in r.calls && r.calls[x].phase == Sending { SendRest(r, x, sent); }
      case Timer(x) => if TimerEnabled(r, x) { TimerRest(r, x); }
      case Continue(x) => if CanResume(r, x) { ResumeRest(r, x); }
      case CancelCall(x) => if x in r.calls && x in r.futures && !r.calls[x].phase.Done? { CancelRest(r, x); }
      case Sweep(now) => SweepRest(r, now);
      case Startup =>
      case Shutdown =>
    }
  }

  /** Only the table of calls has changed. */
  predicate Rest(r: RouterState, r': RouterState) {
    r'.running == r.running && r'.handling == r.handling && SameRouter(r, r')
  }

  lemma ResumeRest(r: RouterState, id: string)
    requires CanResume(r, id)
    ensures Rest(r, Resume(r, id))
  {
    hide Conclude;
  }

  lemma SendRest(r: RouterState, id: string, sent: bool)
    requires id in r.calls && r.calls[id].phase == Sending
    ensures Rest(r, SendDone(r, id, sent))
  {
    if sent && CanResume(SetPhase(r, id, Waiting), id) { ResumeRest(SetPhase(r, id, Waiting), id); }
    hide Resume;
  }

  lemma TimerRest(r: RouterState, id: string)
    requires TimerEnabled(r, id)
    ensures Rest(r, TimerFires(r, id))
  {
  }

  lemma CancelRest(r: RouterState, id: string)
    requires id in r.calls && id in r.futures && !r.calls[id].phase.Done?
    ensures Rest(r, CallerCancelled(r, id))
  {
    if CanResume(r, id) { ResumeRest(r, id); }
    hide Resume;
  }

  lemma SweepRest(r: RouterState, now: real)
    ensures Rest(r, Evict(r, now))
  {
    hide Step, ExpiredIds, SettleAll;
  }

  lemma AskSlot(s: System, step: NetStep, node: string, id: string)
    requires node in s.routers && s.routers[node].nodeId == node && RouterInv(s.routers[node])
    requires step.Ask? && step.node == node && !IdTaken(s, step.id)
    requires Selectable(s.routers[node].table, step.task, step.dst, step.pick)
    ensures var r := s.routers[node];
      var r' := Begin(r, step.task, step.payload, step.dst, step.pick, step.srcAgent, step.dstAgent, step.timeout,
                      step.id, step.session, step.now).0;
      && SlotOf(r', id) == After(SlotOf(r, id), HappeningOf(s, step, node, id), r.waitFor)
      && r'.running == r.running && r'.handling == r.handling && SameRouter(r, r')
  {
    SlotAt(s.routers[node], step.id);
    assert step.id !in s.routers[node].calls;
    hide RouterInv, Selectable, IdTaken;
  }

  lemma ReceiveSlot(s: System, step: NetStep, node: string, id: string)
    requires node in s.routers && s.routers[node].nodeId == node && RouterInv(s.routers[node])
    requires step.Deliver? && step.node == node && step.m in s.net
    ensures var r := s.routers[node];
      var r' := Receive(r, ToDict(step.m), step.env, step.local).0;
      && SlotOf(r', id) == After(SlotOf(r, id), HappeningOf(s, step, node, id), r.waitFor)
      && r'.running == r.running && SameRouter(r, r')
      && r'.handling == r.handling
                        + if Arrives(s, step, node) && step.m.msgType == TaskRequest then multiset{step.m} else multiset{}
  {
    var r, m := s.routers[node], step.m;
    DictRoundTrip(m, step.env);
    ResponseSlotOf(r, m, id);
    DispatchSlot(r, m, step.env, step.local, id);
    NothingAfter(SlotOf(r, id), r.waitFor);
    hide RouterInv, FromDict, ToDict, Dispatch, HandleResponse, After, SlotOf;
    assert r.handling + multiset{} == r.handling;
  }

  lemma NothingAfter(s: Slot, w: WaitFor)
    ensures After(s, Nothing, w) == s
  {
  }

  lemma DispatchSlot(r: RouterState, m: Message, env: Defaults, local: seq<AgentCapability>, id: string)
    ensures var r' := Dispatch(r, m, env, local).0;
      && SlotOf(r', id) == (if m.msgType in {TaskResponse, TaskError} then SlotOf(HandleResponse(r, m), id) else SlotOf(r, id))
      && r'.running == r.running && SameRouter(r, r')
      && r'.handling == r.handling + if m.msgType == TaskRequest then multiset{m} else multiset{}
  {
    hide Record, CapabilitiesAt, WithdrawnNames, NewCapabilityReply, HandleResponse;
    assert r.handling + multiset{} == r.handling;
    match m.msgType {
      case TaskRequest => assert SlotOf(r.(handling := r.handling + multiset{m}), id) == SlotOf(r, id);
      case TaskResponse => ResponseRest(r, m);
      case TaskError => ResponseRest(r, m);
      case CapabilityQuery =>
      case AgentWithdraw =>
        var names := WithdrawnNames(m.payload);
        if names.Some? { RecordRest(r, Withdrawn(m.srcNode, names.value, env.now), id); }
      case Heartbeat => RecordRest(r, Beat(m.srcNode, env.now), id);
      case _ =>
        var caps := CapabilitiesAt(m.payload);
        if caps.Ok? { RecordRest(r, Announced(m.srcNode, caps.value, env.now), id); }
    }
  }

  lemma ResponseRest(r: RouterState, m: Message)
    ensures Rest(r, HandleResponse(r, m))
  {
  }

  lemma RecordRest(r: RouterState, e: Event, id: string)
    ensures Rest(r, Record(r, e)) && SlotOf(Record(r, e), id) == SlotOf(r, id)
  {
    hide Step;
  }

  // --- every step of every run ---------------------------------------------------------------------

  /** What the other parts of a router become. */
  function HandlingAfter(s: System, step: NetStep, node: string): multiset<Message>
    requires node in s.routers
  {
    var handling := s.routers[node].handling;
    if Arrives(s, step, node) && step.m.msgType == TaskRequest then handling + multiset{step.m}
    else if step.Reply? && step.node == node then handling - multiset{step.m}
    else handling
  }

  function RunningAfter(s: System, step: NetStep, node: string): bool
    requires node in s.routers
  {
    if step == Local(node, Startup) then true
    else if step == Local(node, Shutdown) then false
    else s.routers[node].running
  }

  /** A step takes the router of a node where its parts say. */
  ghost predicate Automatic(s: System, step: NetStep, node: string, id: string)
    requires node in s.routers
  {
    && node in NetNext(s, step).routers
    && var r, r' := s.routers[node], NetNext(s, step).routers[node];
      && SlotOf(r', id) == After(SlotOf(r, id), HappeningOf(s, step, node, id), r.waitFor)
      && r'.running == RunningAfter(s, step, node) && r'.handling == HandlingAfter(s, step, node) && SameRouter(r, r')
  }

  lemma AskAutomatic(s: System, step: NetStep, node: string, id: string)
    requires node in s.routers && s.routers[node].nodeId == node && RouterInv(s.routers[node]) && step.Ask? && step.node == node
    ensures Automatic(s, step, node, id)
  {
    NothingAfter(SlotOf(s.routers[node], id), s.routers[node].waitFor);
    if !IdTaken(s, step.id) && Selectable(s.routers[node].table, step.task, step.dst, step.pick) {
      AskSlot(s, step, node, id);
      AskMoves(s, step);
    }
    hide RouterInv, SlotOf, After, Begin, IdTaken, Selectable;
  }

  lemma DeliverAutomatic(s: System, step: NetStep, node: string, id: string)
    requires node in s.routers && s.routers[node].nodeId == node && RouterInv(s.routers[node]) && step.Deliver? && step.node == node
    ensures Automatic(s, step, node, id)
  {
    NothingAfter(SlotOf(s.routers[node], id), s.routers[node].waitFor);
    if step.m in s.net {
      ReceiveSlot(s, step, node, id);
      TakenUp(s, step);
      hide NetNext;
    }
    hide RouterInv, SlotOf, After, Receive, ToDict;
  }

  lemma ReplyAutomatic(s: System, step: NetStep, node: string, id: string)
    requires node in s.routers && step.Reply? && step.node == node
    ensures Automatic(s, step, node, id)
  {
    var r := s.routers[node];
    NothingAfter(SlotOf(r, id), r.waitFor);
    assert SlotOf(FinishHandling(r, step.m, step.result, step.id, step.now).0, id) == SlotOf(r, id);
    hide SlotOf, After, ReplyTo;
    if step.m !in r.handling { assert r.handling - multiset{step.m} == r.handling; }
  }

  lemma LocalAutomatic(s: System, node: string, l: LocalStep, id: string)
    requires node in s.routers && RouterInv(s.routers[node])
    ensures Automatic(s, Local(node, l), node, id)
  {
    LocalSlot(s, node, l, id);
    LocalMoves(s, node, l);
    hide RouterInv, NetNext, LocalNext, SlotOf, After, HappeningOf;
  }

  lemma RestAutomatic(s: System, step: NetStep, node: string, id: string)
    requires node in s.routers && !Moves(step, node)
    ensures Automatic(s, step, node, id)
  {
    NothingAfter(SlotOf(s.routers[node], id), s.routers[node].waitFor);
    OthersRest(s, step, node);
    NothingHappens(s, step, node, id);
    hide NetNext, SlotOf, After, HappeningOf, RunningAfter, HandlingAfter;
  }

  lemma NothingHappens(s: System, step: NetStep, node: string, id: string)
    requires node in s.routers && !Moves(step, node)
    ensures HappeningOf(s, step, node, id) == Nothing && RunningAfter(s, step, node) == s.routers[node].running
    ensures HandlingAfter(s, step, node) == s.routers[node].handling
  {
    hide IdTaken, Selectable;
  }

  lemma StepIsAutomatic(s: System, step: NetStep, node: string, id: string)
    requires SystemInv(s) && node in s.routers
    ensures Automatic(s, step, node, id)
  {
    NodeNamed(s, node);
    hide SystemInv, RouterInv, Automatic;
    if !Moves(step, node) {
      RestAutomatic(s, step, node, id);
    } else {
      match step {
        case Ask(_, task, payload, dst, pick, srcAgent, dstAgent, timeout, x, session, now) => AskAutomatic(s, step, node, id);
        case Local(_, l) => LocalAutomatic(s, node, l, id);
        case Deliver(_, m, keep, env, local) => DeliverAutomatic(s, step, node, id);
        case Reply(_, m, result, replyId, now) => ReplyAutomatic(s, step, node, id);
      }
    }
  }

  /** In every run, every call of every router lives its own life: each step takes it exactly where After says, from
      what the step means for it alone; a router runs from its start to its stop; and it is handling exactly the requests
      that arrived and were not answered yet. */
  lemma CallsAreAutomatic(states: seq<System>, steps: seq<NetStep>, i: nat, node: string, id: string)
    requires Run(states, steps) && i < |steps| && node in states[i].routers
    ensures node in states[i + 1].routers
    ensures var r, r' := states[i].routers[node], states[i + 1].routers[node];
      && SlotOf(r', id) == After(SlotOf(r, id), HappeningOf(states[i], steps[i], node, id), r.waitFor)
      && r'.running == RunningAfter(states[i], steps[i], node) && r'.handling == HandlingAfter(states[i], steps[i], node)
      && SameRouter(r, r')
  {
    RunKeepsInv(states, steps, i);
    StepIsAutomatic(states[i], steps[i], node, id);
    hide SystemInv, NetNext, SlotOf, After, HappeningOf;
    assert states[i + 1] == NetNext(states[i], steps[i]);
  }

  // --- asking --------------------------------------------------------------------------------------

  /** What the node has been told by then says that some node offers the task. */
  ghost predicate SomeoneOffers(log: seq<Event>, task: string) {
    exists n :: Offers(log, n, task)
  }

  /** In every run, asking under a new id makes a call exactly when the router is running, has fewer than 256 entries, and
      a node is named or what the router has been told says that some node offers the task. The call then asks the node
      named, or one that offers the task, with all that the caller gave, and its entry dates from now. */
  lemma AskRegisters(states: seq<System>, steps: seq<NetStep>, i: nat, node: string)
    requires Run(states, steps) && i < |steps| && node in states[0].routers && node in states[i].routers
    requires steps[i].Ask? && steps[i].node == node && !IdTaken(states[i], steps[i].id)
    requires Selectable(states[i].routers[node].table, steps[i].task, steps[i].dst, steps[i].pick)
    ensures forall j :: 0 <= j <= i + 1 ==> node in states[j].routers
    ensures var step, r, r' := steps[i], states[i].routers[node], states[i + 1].routers[node];
      var log := LogOf(states, steps, i, node);
      && (step.id in r'.calls <==> r.running && |r.pending| < 256 && (step.dst != "" || SomeoneOffers(log, step.task)))
      && (step.id in r'.calls ==>
            var request := r'.calls[step.id].request;
            && request == Message(TaskRequest, node, request.dstNode, step.srcAgent, step.dstAgent, step.task, step.payload,
                                  "", 8, step.id, step.session, step.now, 1)
            && (if step.dst != "" then request.dstNode == step.dst else Offers(log, request.dstNode, step.task))
            && r'.calls[step.id].timeout == (if step.timeout.None? then r.timeout else step.timeout.value)
            && r'.calls[step.id].phase == Sending && Lookup(r'.futures, step.id) == Some(Unsettled)
            && Lookup(r'.pending, step.id)
               == Some(PendingRequest(step.id, step.session, step.task, request.dstNode, step.now)))
  {
    EventsAreTold(states, steps, i + 1, node);
    OfferedInRun(states, steps, i, node, steps[i].task);
    CallsAreAutomatic(states, steps, i, node, steps[i].id);
    RunKeepsInv(states, steps, i);
    NodeNamed(states[i], node);
    SlotAt(states[i].routers[node], steps[i].id);
    assert steps[i].id !in states[i].routers[node].calls;
    hide Run, SystemInv, RouterInv, IdTaken, LogOf, Offers, NodesForTask;
    AskedSlot(states[i], steps[i], node);
  }

  lemma OfferedInRun(states: seq<System>, steps: seq<NetStep>, i: nat, node: string, task: string)
    requires Run(states, steps) && i < |states| && node in states[0].routers
    ensures forall j :: 0 <= j <= i ==> node in states[j].routers
    ensures forall n :: n in NodesForTask(states[i].routers[node].table, task) <==> Offers(LogOf(states, steps, i, node), n, task)
  {
    RunsAreSafe(states, steps, i, node);
    hide Run, NodesForTask, Offers, LogOf, RouterInv;
  }

  /** What asking under a new id means for the slot of that id. */
  lemma AskedSlot(s: System, step: NetStep, node: string)
    requires node in s.routers && step.Ask? && step.node == node && !IdTaken(s, step.id)
    requires Selectable(s.routers[node].table, step.task, step.dst, step.pick) && step.id !in s.routers[node].calls
    ensures var r, h := s.routers[node], HappeningOf(s, step, node, step.id);
      && (h.Registers? <==>
            r.running && |r.pending| < 256 && (step.dst != "" || exists n :: n in NodesForTask(r.table, step.task)))
      && (!h.Registers? ==> h == Nothing)
      && (h.Registers? && step.dst == "" ==> h.entry.dstNode in NodesForTask(r.table, step.task))
  {
    hide IdTaken, NodesForTask;
    if step.dst == "" && step.pick.None? { assert NodesForTask(s.routers[node].table, step.task) == {}; }
  }
}
