/** What becomes of a routed task in whole runs of the network. */
module RouterRuns {
  import opened Common
  import opened Messages
  import opened CapabilityTable
  import opened Router
  import opened RouterOutcomes
  import opened RouterNet

  /** How a call ends is decided by its future: by a timeout only when the future was cancelled or timed out, or was
      overtaken by the timer of the newer wait_for; a call whose future holds an answer ends with that answer, unless
      it was cancelled, its send failed, or, again, the newer timer came between. */
  lemma CallsEndAsSettled(states: seq<System>, steps: seq<NetStep>, k: nat, node: string, id: string)
    requires Run(states, steps) && k < |states| && node in states[k].routers
    requires id in states[k].routers[node].calls && states[k].routers[node].calls[id].phase.Done?
    ensures id in states[k].routers[node].futures
    ensures var r := states[k].routers[node];
      var f, outcome := r.futures[id], r.calls[id].phase.outcome;
      && (outcome == TimeoutRaised ==> f == Cancelled || f == TimedOut || (r.waitFor.Since312? && f.Answer?))
      && (f.Answer? ==> outcome == Conclude(f.m) || outcome == CancelRaised || outcome == LostEntry
                        || (r.waitFor.Since312? && outcome == TimeoutRaised))
  {
    RunKeepsInv(states, steps, k);
    hide SystemInv, Run;
    NodeNamed(states[k], node);
    SlotAt(states[k].routers[node], id);
    hide RouterInv;
  }

  /** The timer of the call fires, or its caller is cancelled. */
  predicate Interrupts(step: NetStep, node: string, id: string) {
    step == Local(node, Timer(id)) || step == Local(node, CancelCall(id))
  }

  ghost predicate Interrupted(steps: seq<NetStep>, i: nat, k: nat, node: string, id: string) {
    exists j :: i < j < k && j < |steps| && Interrupts(steps[j], node, id)
  }

  /** A call that has its answer: still waiting to be resumed, over with the answer, or interrupted. */
  predicate HasAnswer(s: Slot, w: WaitFor, m: Message, interrupted: bool) {
    && s.call.Some? && s.future == Some(Answer(m))
    && var phase := s.call.value.phase;
      || phase == Waiting || phase == Done(Conclude(m))
      || (interrupted && w.Since312? && phase in {Expiring, Done(TimeoutRaised), Done(CancelRaised)})
  }

  lemma LocalKeepsAnswer(r: RouterState, step: LocalStep, id: string, m: Message, interrupted: bool)
    requires HasAnswer(SlotOf(r, id), r.waitFor, m, interrupted)
    ensures var r' := LocalNext(r, step);
      && r'.waitFor == r.waitFor
      && HasAnswer(SlotOf(r', id), r.waitFor, m, interrupted || step == Timer(id) || step == CancelCall(id))
  {
    hide Conclude, SendDone, TimerFires, Resume, CallerCancelled, Evict, Stop, Resumed, HasAnswer;
    AnswerSettled(r, id, m, interrupted);
    match step {
      case SendReturns(x, sent) =>
        if x in r.calls && r.calls[x].phase == Sending { SendDoneEffect(r, x, sent); }
      case Timer(x) =>
        if TimerEnabled(r, x) { TimerKeepsAnswer(r, x, id, m, interrupted); }
      case Continue(x) =>
        if CanResume(r, x) { ResumeKeepsAnswer(r, x, id, m, interrupted); }
      case CancelCall(x) =>
        if x in r.calls && x in r.futures && !r.calls[x].phase.Done? { CancelKeepsAnswer(r, x, id, m, interrupted); }
      case Sweep(now) => SweepKeepsAnswer(r, now, id, m, interrupted);
      case Startup => assert SlotOf(Start(r), id) == SlotOf(r, id);
      case Shutdown => StopKeepsAnswer(r, id, m, interrupted);
    }
  }

  lemma AnswerSettled(r: RouterState, id: string, m: Message, interrupted: bool)
    requires HasAnswer(SlotOf(r, id), r.waitFor, m, interrupted)
    ensures id in r.calls && id in r.futures && r.calls[id].phase != Sending && r.futures[id] == Answer(m)
    ensures HasAnswer(SlotOf(r, id), r.waitFor, m, true)
  {
  }

  lemma TimerKeepsAnswer(r: RouterState, x: string, id: string, m: Message, interrupted: bool)
    requires HasAnswer(SlotOf(r, id), r.waitFor, m, interrupted) && TimerEnabled(r, x)
    ensures var r' := TimerFires(r, x);
      r'.waitFor == r.waitFor && HasAnswer(SlotOf(r', id), r.waitFor, m, interrupted || x == id)
  {
    if x != id { assert SlotOf(TimerFires(r, x), id) == SlotOf(r, id); }
  }

  lemma ResumeKeepsAnswer(r: RouterState, x: string, id: string, m: Message, interrupted: bool)
    requires HasAnswer(SlotOf(r, id), r.waitFor, m, interrupted) && CanResume(r, x)
    ensures var r' := Resume(r, x); r'.waitFor == r.waitFor && HasAnswer(SlotOf(r', id), r.waitFor, m, interrupted)
  {
    ResumeEffect(r, x);
    hide Resume;
  }

  lemma CancelKeepsAnswer(r: RouterState, x: string, id: string, m: Message, interrupted: bool)
    requires HasAnswer(SlotOf(r, id), r.waitFor, m, interrupted)
    requires x in r.calls && x in r.futures && !r.calls[x].phase.Done?
    ensures var r' := CallerCancelled(r, x);
      r'.waitFor == r.waitFor && HasAnswer(SlotOf(r', id), r.waitFor, m, interrupted || x == id)
  {
    if CanResume(r, x) { ResumeKeepsAnswer(r, x, id, m, interrupted); }
    hide Resume, Conclude;
    if x != id && !(CanResume(r, x) && r.calls[x].phase == Waiting && r.waitFor.Before312?) {
      assert SlotOf(CallerCancelled(r, x), id) == SlotOf(r, id);
    }
  }

  lemma SweepKeepsAnswer(r: RouterState, now: real, id: string, m: Message, interrupted: bool)
    requires HasAnswer(SlotOf(r, id), r.waitFor, m, interrupted)
    ensures Evict(r, now).waitFor == r.waitFor && HasAnswer(SlotOf(Evict(r, now), id), r.waitFor, m, interrupted)
  {
    EvictedSlot(r, now, id);
    hide EvictPending, ExpiredIds, Conclude, Step;
    assert EvictPending(r, now).waitFor == r.waitFor by { EvictFrame(r, now); }
    assert SlotOf(Record(EvictPending(r, now), Swept(now)), id) == SlotOf(EvictPending(r, now), id);
  }

  lemma StopKeepsAnswer(r: RouterState, id: string, m: Message, interrupted: bool)
    requires HasAnswer(SlotOf(r, id), r.waitFor, m, interrupted)
    ensures Stop(r).waitFor == r.waitFor && HasAnswer(SlotOf(Stop(r), id), r.waitFor, m, interrupted)
  {
    assert Stop(r).waitFor == r.waitFor;
    if r.running { StoppedSlot(r, id); } else { StopIdle(r); }
    hide Stop, Conclude;
  }

  ghost predicate Answered(s: System, node: string, id: string, w: WaitFor, m: Message, interrupted: bool) {
    && node in s.routers && s.routers[node].waitFor == w
    && HasAnswer(SlotOf(s.routers[node], id), w, m, interrupted)
  }

  /** The step does something to the router of the node. */
  predicate Moves(step: NetStep, node: string) {
    (step.Ask? || step.Local? || step.Deliver? || step.Reply?) && step.node == node
  }

  lemma OthersRest(s: System, step: NetStep, node: string)
    requires node in s.routers && !Moves(step, node)
    ensures node in NetNext(s, step).routers && NetNext(s, step).routers[node] == s.routers[node]
  {
    hide LocalNext, Receive, Begin, IdTaken, Selectable, FinishHandling, ToDict;
  }

  predicate MovesTo(s: System, step: NetStep, node: string, r': RouterState)
    requires node in s.routers
  {
    var r := s.routers[node];
    match step
    case Ask(_, task, payload, dst, pick, srcAgent, dstAgent, timeout, id, session, now) =>
      !IdTaken(s, id) && r' == Begin(r, task, payload, dst, pick, srcAgent, dstAgent, timeout, id, session, now).0
    case Local(_, l) => r' == LocalNext(r, l)
    case Deliver(_, m, keep, env, local) => m in s.net && r' == Receive(r, ToDict(m), env, local).0
    case Reply(_, m, result, id, now) => m in r.handling && r' == FinishHandling(r, m, result, id, now).0
    case _ => false
  }

  /** A step of the node takes its router where the router's own functions say, or does nothing. */
  lemma MovedTo(s: System, step: NetStep, node: string) returns (r': RouterState)
    requires node in s.routers && Moves(step, node)
    ensures node in NetNext(s, step).routers && NetNext(s, step).routers[node] == r'
    ensures r' == s.routers[node] || MovesTo(s, step, node, r')
  {
    hide LocalNext, Receive, Begin, IdTaken, Selectable, FinishHandling, ToDict;
    r' := NetNext(s, step).routers[node];
  }

  lemma NetKeepsAnswer(s: System, step: NetStep, node: string, id: string, w: WaitFor, m: Message, interrupted: bool)
    requires SystemInv(s) && Answered(s, node, id, w, m, interrupted)
    ensures Answered(NetNext(s, step), node, id, w, m, interrupted || Interrupts(step, node, id))
  {
    NodeNamed(s, node);
    AnswerSettled(s.routers[node], id, m, interrupted);
    hide SystemInv, RouterInv, HasAnswer, LocalNext, Receive, ToDict, Begin, FinishHandling, SlotOf, NetNext;
    var r := s.routers[node];
    if Moves(step, node) {
      var r' := MovedTo(s, step, node);
      if r' != r { MoveKeepsAnswer(s, step, node, r', id, m, interrupted); }
    } else {
      OthersRest(s, step, node);
    }
  }

  lemma MoveKeepsAnswer(s: System, step: NetStep, node: string, r': RouterState, id: string, m: Message, interrupted: bool)
    requires node in s.routers && Moves(step, node) && RouterInv(s.routers[node])
    requires HasAnswer(SlotOf(s.routers[node], id), s.routers[node].waitFor, m, interrupted)
    requires MovesTo(s, step, node, r')
    ensures r'.waitFor == s.routers[node].waitFor
    ensures HasAnswer(SlotOf(r', id), r'.waitFor, m, interrupted || Interrupts(step, node, id))
  {
    var r := s.routers[node];
    AnswerSettled(r, id, m, interrupted);
    hide RouterInv, HasAnswer, LocalNext, Receive, ToDict, Begin, FinishHandling, SlotOf;
    match step {
      case Ask(_, task, payload, dst, pick, srcAgent, dstAgent, timeout, x, session, now) =>
        AskKeepsAnswer(r, task, payload, dst, pick, srcAgent, dstAgent, timeout, x, session, now, id, m, interrupted);
      case Local(_, l) => LocalKeepsAnswer(r, l, id, m, interrupted);
      case Deliver(_, x, keep, env, local) => ReceiveKeepsAnswer(r, x, env, local, id, m, interrupted);
      case Reply(_, x, result, replyId, now) => ReplyKeepsAnswer(r, x, result, replyId, now, id, m, interrupted);
    }
  }

  lemma AskKeepsAnswer(r: RouterState, task: string, payload: Dict, dst: string, pick: Option<string>, srcAgent: string,
                       dstAgent: string, timeout: Option<real>, x: string, session: string, now: real,
                       id: string, m: Message, interrupted: bool)
    requires HasAnswer(SlotOf(r, id), r.waitFor, m, interrupted) && x != id
    ensures var r' := Begin(r, task, payload, dst, pick, srcAgent, dstAgent, timeout, x, session, now).0;
      r'.waitFor == r.waitFor && HasAnswer(SlotOf(r', id), r.waitFor, m, interrupted)
  {
    hide HasAnswer, NewTaskRequest;
    assert SlotOf(Begin(r, task, payload, dst, pick, srcAgent, dstAgent, timeout, x, session, now).0, id) == SlotOf(r, id);
  }

  lemma ReceiveKeepsAnswer(r: RouterState, x: Message, env: Defaults, local: seq<AgentCapability>,
                           id: string, m: Message, interrupted: bool)
    requires RouterInv(r) && HasAnswer(SlotOf(r, id), r.waitFor, m, interrupted)
    ensures var r' := Receive(r, ToDict(x), env, local).0;
      r'.waitFor == r.waitFor && HasAnswer(SlotOf(r', id), r.waitFor, m, interrupted)
  {
    ReceiveEffect(r, x, env, local);
    ReceiveKeepsInv(r, ToDict(x), env, local);
    hide RouterInv, Receive, ToDict, Conclude;
    assert SlotSettled(SlotOf(r, id), SlotOf(Receive(r, ToDict(x), env, local).0, id));
  }

  lemma ReplyKeepsAnswer(r: RouterState, x: Message, result: Handled, replyId: string, now: real,
                         id: string, m: Message, interrupted: bool)
    requires HasAnswer(SlotOf(r, id), r.waitFor, m, interrupted)
    ensures var r' := FinishHandling(r, x, result, replyId, now).0;
      r'.waitFor == r.waitFor && HasAnswer(SlotOf(r', id), r.waitFor, m, interrupted)
  {
    hide HasAnswer, ReplyTo;
    assert SlotOf(FinishHandling(r, x, result, replyId, now).0, id) == SlotOf(r, id);
  }

  /** A reply delivered in time to a waiting call is what the call ends with, whatever else happens in the run. Only
      the newer wait_for can lose it, and only if the call's timer or a cancellation comes before the resumption. */
  lemma DeliveredAnswerStays(states: seq<System>, steps: seq<NetStep>, i: nat, k: nat, node: string)
    requires Run(states, steps) && i < k < |states| && node in states[i].routers
    requires steps[i].Deliver? && steps[i].node == node && steps[i].m in states[i].net && IsReply(steps[i].m)
    requires steps[i].m.dstNode == node && !Messages.IsExpired(steps[i].m, steps[i].env.now)
    requires IsWaiting(states[i].routers[node], steps[i].m.replyTo)
    ensures node in states[k].routers
    ensures var r, m := states[k].routers[node], steps[i].m;
      && m.replyTo in r.calls && Lookup(r.futures, m.replyTo) == Some(Answer(m))
      && var phase := r.calls[m.replyTo].phase;
        || phase == Waiting || phase == Done(Conclude(m))
        || (r.waitFor.Since312? && Interrupted(steps, i, k, node, m.replyTo)
            && phase in {Expiring, Done(TimeoutRaised), Done(CancelRaised)})
  {
    var m := steps[i].m;
    AnswerArrives(states, steps, i, node);
    AnswerStays(states, steps, i, k, node, m.replyTo, states[i].routers[node].waitFor, m);
  }

  lemma AnswerArrives(states: seq<System>, steps: seq<NetStep>, i: nat, node: string)
    requires Run(states, steps) && i < |steps| && node in states[i].routers
    requires steps[i].Deliver? && steps[i].node == node && steps[i].m in states[i].net && IsReply(steps[i].m)
    requires steps[i].m.dstNode == node && !Messages.IsExpired(steps[i].m, steps[i].env.now)
    requires IsWaiting(states[i].routers[node], steps[i].m.replyTo)
    ensures Answered(states[i + 1], node, steps[i].m.replyTo, states[i].routers[node].waitFor, steps[i].m, false)
  {
    RunKeepsInv(states, steps, i);
    NodeNamed(states[i], node);
    DeliveredTo(states[i], steps[i]);
    hide SystemInv, RouterInv, IsWaiting, Receive, ToDict, HandleResponse, NetNext;
    assert states[i + 1] == NetNext(states[i], steps[i]);
    var r, m := states[i].routers[node], steps[i].m;
    ReplyArrives(r, m, steps[i].env, steps[i].local);
    AnswerHeld(r, m);
  }

  lemma DeliveredTo(s: System, step: NetStep)
    requires step.Deliver? && step.node in s.routers && step.m in s.net
    ensures step.node in NetNext(s, step).routers
    ensures NetNext(s, step).routers[step.node] == Receive(s.routers[step.node], ToDict(step.m), step.env, step.local).0
  {
    hide Receive, ToDict;
  }

  lemma AnswerHeld(r: RouterState, m: Message)
    requires IsWaiting(r, m.replyTo)
    ensures HandleResponse(r, m).waitFor == r.waitFor
    ensures HasAnswer(SlotOf(HandleResponse(r, m), m.replyTo), r.waitFor, m, false)
  {
    AnswerEndsCall(r, m.replyTo, m);
    ResponseWaitFor(r, m);
    hide IsWaiting, EndsWith, HandleResponse, Conclude;
  }

  lemma ResponseWaitFor(r: RouterState, m: Message)
    ensures HandleResponse(r, m).waitFor == r.waitFor
  {
  }

  lemma {:induction false} AnswerStays(states: seq<System>, steps: seq<NetStep>, i: nat, k: nat, node: string, id: string,
                                       w: WaitFor, m: Message)
    requires Run(states, steps) && i < k < |states| && Answered(states[i + 1], node, id, w, m, false)
    ensures Answered(states[k], node, id, w, m, Interrupted(steps, i, k, node, id))
  {
    hide NetNext, SystemInv, SlotOf, Initial, Answered;
    if i + 1 < k {
      var before := Interrupted(steps, i, k - 1, node, id);
      AnswerStays(states, steps, i, k - 1, node, id, w, m);
      RunKeepsInv(states, steps, k - 1);
      NetKeepsAnswer(states[k - 1], steps[k - 1], node, id, w, m, before);
      assert states[k] == NetNext(states[k - 1], steps[k - 1]);
      InterruptedNow(steps, i, k, node, id);
      if before || Interrupts(steps[k - 1], node, id) { MoreInterrupted(states[k], node, id, w, m); }
    } else {
      MoreInterrupted(states[k], node, id, w, m);
    }
  }

  lemma InterruptedNow(steps: seq<NetStep>, i: nat, k: nat, node: string, id: string)
    requires i + 1 < k <= |steps|
    ensures Interrupted(steps, i, k, node, id) <==>
      Interrupted(steps, i, k - 1, node, id) || Interrupts(steps[k - 1], node, id)
  {
    hide Interrupts;
  }

  lemma MoreInterrupted(s: System, node: string, id: string, w: WaitFor, m: Message)
    ensures Answered(s, node, id, w, m, false) ==> Answered(s, node, id, w, m, true)
  {
    hide SlotOf;
  }

  // --- the capability table and the messages of the run -------------------------------------------

  /** What a message tells its receiver about the offers of its sender. */
  function EventOf(m: Message, now: real): seq<Event> {
    if m.msgType == AgentAnnounce || m.msgType == CapabilityReply then
      var caps := CapabilitiesAt(m.payload);
      if caps.Ok? then [Announced(m.srcNode, caps.value, now)] else []
    else if m.msgType == AgentWithdraw then
      var names := WithdrawnNames(m.payload);
      if names.Some? then [Withdrawn(m.srcNode, names.value, now)] else []
    else if m.msgType == Heartbeat then [Beat(m.srcNode, now)]
    else []
  }

  /** What a step of the network adds to what a node has been told: a message delivered to it in time and meant for it
      or for everyone, or a sweep while it is running. */
  function Told(s: System, step: NetStep, node: string): seq<Event>
    requires node in s.routers
  {
    match step
    case Deliver(to, m, keep, env, local) =>
      if to == node && m in s.net && !Messages.IsExpired(m, env.now) && (m.dstNode == "" || m.dstNode == node)
      then EventOf(m, env.now) else []
    case Local(at, Sweep(now)) => if at == node && s.routers[node].running then [Swept(now)] else []
    case _ => []
  }

  function LogOf(states: seq<System>, steps: seq<NetStep>, k: nat, node: string): seq<Event>
    requires k <= |steps| < |states| && forall i :: 0 <= i < k ==> node in states[i].routers
  {
    if k == 0 then [] else LogOf(states, steps, k - 1, node) + Told(states[k - 1], steps[k - 1], node)
  }

  lemma DispatchTells(r: RouterState, m: Message, env: Defaults, local: seq<AgentCapability>)
    ensures Dispatch(r, m, env, local).0.events == r.events + EventOf(m, env.now)
  {
    hide Record, CapabilitiesAt, WithdrawnNames, HandleResponse, NewCapabilityReply;
    assert r.events + [] == r.events;
    match m.msgType {
      case TaskRequest =>
      case TaskResponse => ResponseEvents(r, m);
      case TaskError => ResponseEvents(r, m);
      case CapabilityQuery =>
      case AgentWithdraw =>
        var names := WithdrawnNames(m.payload);
        if names.Some? { RecordEvents(r, Withdrawn(m.srcNode, names.value, env.now)); }
      case Heartbeat => RecordEvents(r, Beat(m.srcNode, env.now));
      case _ =>
        var caps := CapabilitiesAt(m.payload);
        if caps.Ok? { RecordEvents(r, Announced(m.srcNode, caps.value, env.now)); }
    }
  }

  lemma RecordEvents(r: RouterState, e: Event)
    ensures Record(r, e).events == r.events + [e]
  {
    hide Step;
  }

  lemma ResponseEvents(r: RouterState, m: Message)
    ensures HandleResponse(r, m).events == r.events
  {
  }

  lemma ReceiveTells(r: RouterState, m: Message, env: Defaults, local: seq<AgentCapability>)
    ensures Receive(r, ToDict(m), env, local).0.events
         == r.events + if !Messages.IsExpired(m, env.now) && (m.dstNode == "" || m.dstNode == r.nodeId) then EventOf(m, env.now) else []
  {
    DictRoundTrip(m, env);
    DispatchTells(r, m, env, local);
    hide FromDict, ToDict, Dispatch, EventOf;
    assert r.events + [] == r.events;
  }

  lemma LocalTells(r: RouterState, step: LocalStep)
    ensures LocalNext(r, step).events == r.events + if step.Sweep? && r.running then [Swept(step.now)] else []
  {
    hide Conclude, Step, ExpiredIds, SettleAll, Resume, SendDone, EvictPending;
    assert r.events + [] == r.events;
    match step {
      case SendReturns(id, sent) => if id in r.calls && r.calls[id].phase == Sending { SendDoneEffect(r, id, sent); }
      case Continue(id) => if CanResume(r, id) { ResumeEffect(r, id); }
      case CancelCall(id) => if CanResume(r, id) { ResumeEffect(r, id); }
      case Sweep(now) => EvictFrame(r, now);
      case _ =>
    }
  }

  lemma StepTells(s: System, step: NetStep, node: string)
    requires node in s.routers && s.routers[node].nodeId == node
    ensures node in NetNext(s, step).routers
    ensures NetNext(s, step).routers[node].events == s.routers[node].events + Told(s, step, node)
  {
    var r := s.routers[node];
    assert r.events + [] == r.events;
    if Moves(step, node) {
      match step {
        case Deliver(_, m, keep, env, local) => ReceiveTells(r, m, env, local);
        case Local(_, l) => LocalTells(r, l);
        case Ask(_, task, payload, dst, pick, srcAgent, dstAgent, timeout, id, session, now) =>
          BeginTells(r, task, payload, dst, pick, srcAgent, dstAgent, timeout, id, session, now);
        case Reply(_, m, result, id, now) =>
      }
      hide LocalNext, Receive, Begin, IdTaken, Selectable, ToDict, ReplyTo, EventOf;
    } else {
      OthersRest(s, step, node);
      hide NetNext, EventOf;
    }
  }

  lemma BeginTells(r: RouterState, task: string, payload: Dict, dst: string, pick: Option<string>, srcAgent: string,
                   dstAgent: string, timeout: Option<real>, id: string, session: string, now: real)
    ensures Begin(r, task, payload, dst, pick, srcAgent, dstAgent, timeout, id, session, now).0.events == r.events
  {
    hide NewTaskRequest;
  }

  /** The events a router records are what the run has told it. */
  lemma {:induction false} EventsAreTold(states: seq<System>, steps: seq<NetStep>, k: nat, node: string)
    requires Run(states, steps) && k < |states| && node in states[0].routers
    ensures forall i :: 0 <= i <= k ==> node in states[i].routers
    ensures states[k].routers[node].events == LogOf(states, steps, k, node)
  {
    hide NetNext, Told, SystemInv;
    if k > 0 {
      EventsAreTold(states, steps, k - 1, node);
      RunKeepsInv(states, steps, k - 1);
      NodeNamed(states[k - 1], node);
      StepTells(states[k - 1], steps[k - 1], node);
      assert states[k] == NetNext(states[k - 1], steps[k - 1]);
    }
  }

  /** In every state of every run each router holds at most 256 entries, its counts add up, and it finds another node
      for a task exactly when the latest announce or reply of that node delivered to it, not followed by an eviction,
      lists an agent with the task that has not been withdrawn since. */
  lemma RunsAreSafe(states: seq<System>, steps: seq<NetStep>, k: nat, node: string)
    requires Run(states, steps) && k < |states| && node in states[0].routers
    ensures forall i :: 0 <= i <= k ==> node in states[i].routers
    ensures var r := states[k].routers[node];
      && RouterInv(r) && |r.pending| <= 256
      && |r.calls| == |r.pending| + |WithFate(r, Fate.Answered)| + |WithFate(r, SendFailed)| + |WithFate(r, Expired)|
                      + |WithFate(r, Evicted)| + |WithFate(r, Stopped)|
      && (forall task, n :: n in NodesForTask(r.table, task) <==> Offers(LogOf(states, steps, k, node), n, task))
  {
    EventsAreTold(states, steps, k, node);
    RunKeepsInv(states, steps, k);
    hide SystemInv, WithFate, Run, LogOf;
    var r := states[k].routers[node];
    NodeNamed(states[k], node);
    Accounting(r);
    PendingBound(r);
    TableIsReplay(r);
    hide RouterInv, NodesForTask, Offers;
    forall task, n ensures n in NodesForTask(r.table, task) <==> Offers(r.events, n, task) {
      TableRefinesLog(r.events, n, task);
    }
  }

  // --- a call that returns ------------------------------------------------------------------------

  /** The four steps from the k-th on: the addressed node takes the request up, answers it with the data, the answer is
      delivered, and the caller goes on; all at one time. */
  ghost predicate Exchanges(steps: seq<NetStep>, k: nat, node: string, request: Message, data: Dict, replyId: string, now: real) {
    var env := Defaults("", "", now);
    && k + 4 <= |steps|
    && steps[k] == Deliver(request.dstNode, request, false, env, [])
    && steps[k + 1] == Reply(request.dstNode, request, Produced(data), replyId, now)
    && steps[k + 2] == Deliver(node, ReplyTo(request.dstNode, request, Produced(data), replyId, now), false, env, [])
    && steps[k + 3] == Local(node, Continue(request.msgId))
  }

  /** In every run, when this happens to a waiting call whose request is on the way and not too old, the call returns the
      answer. */
  lemma ExchangeReturns(states: seq<System>, steps: seq<NetStep>, k: nat, node: string, id: string, data: Dict,
                        replyId: string, now: real)
    requires Run(states, steps) && k + 4 < |states| && node in states[k].routers && IsWaiting(states[k].routers[node], id)
    requires var request := states[k].routers[node].calls[id].request;
      && request in states[k].net && request.dstNode in states[k].routers && request.dstNode != node
      && !Messages.IsExpired(request, now) && Exchanges(steps, k, node, request, data, replyId, now)
    ensures node in states[k + 4].routers && id in states[k + 4].routers[node].calls
    ensures var request := states[k].routers[node].calls[id].request;
      states[k + 4].routers[node].calls[id].phase
      == Done(Returned(ReplyTo(request.dstNode, request, Produced(data), replyId, now)))
  {
    var s := states[k];
    var request := s.routers[node].calls[id].request;
    RunKeepsInv(states, steps, k);
    RequestFacts(s, node, id);
    NodeNamed(s, node);
    NodeNamed(s, request.dstNode);
    ReplyFacts(request, data, replyId, now);
    ExchangeSteps(steps, k, node, request, data, replyId, now);
    hide SystemInv, RouterInv, IsWaiting, NetNext, ReplyTo, Initial, Exchanges;
    assert states[k + 1] == NetNext(s, steps[k]) && states[k + 2] == NetNext(states[k + 1], steps[k + 1]);
    assert states[k + 3] == NetNext(states[k + 2], steps[k + 2]) && states[k + 4] == NetNext(states[k + 3], steps[k + 3]);
    RequestAnswered(s, steps[k], steps[k + 1], request.dstNode, node);
    AnswerReturns(states[k + 2], node, id, steps[k + 2].m, steps[k + 2]);
  }

  lemma RequestAnswered(s: System, deliver: NetStep, reply: NetStep, peer: string, node: string)
    requires deliver.Deliver? && deliver.node == peer && peer in s.routers && s.routers[peer].nodeId == peer && deliver.m in s.net
    requires deliver.m.msgType == TaskRequest && deliver.m.dstNode == peer && !Messages.IsExpired(deliver.m, deliver.env.now)
    requires reply.Reply? && reply.node == peer && reply.m == deliver.m && node in s.routers && node != peer
    ensures var s2 := NetNext(NetNext(s, deliver), reply);
      && s2.routers.Keys == s.routers.Keys && s2.routers[node] == s.routers[node]
      && ReplyTo(peer, deliver.m, reply.result, reply.id, reply.now) in s2.net
  {
    hide NetNext, ReplyTo;
    RequestTaken(s, deliver, peer);
    Replied(NetNext(s, deliver), reply);
  }

  lemma ExchangeSteps(steps: seq<NetStep>, k: nat, node: string, request: Message, data: Dict, replyId: string, now: real)
    requires Exchanges(steps, k, node, request, data, replyId, now)
    ensures var reply := ReplyTo(request.dstNode, request, Produced(data), replyId, now);
      && k + 4 <= |steps|
      && steps[k].Deliver? && steps[k].node == request.dstNode && steps[k].m == request && steps[k].env.now == now
      && steps[k + 1].Reply? && steps[k + 1].node == request.dstNode && steps[k + 1].m == request
      && ReplyTo(request.dstNode, request, steps[k + 1].result, steps[k + 1].id, steps[k + 1].now) == reply
      && steps[k + 2].Deliver? && steps[k + 2].node == node && steps[k + 2].m == reply && steps[k + 2].env.now == now
      && steps[k + 3] == Local(node, Continue(request.msgId))
  {
    hide ReplyTo;
  }

  lemma ReplyFacts(request: Message, data: Dict, replyId: string, now: real)
    ensures var reply := ReplyTo(request.dstNode, request, Produced(data), replyId, now);
      && reply.msgType == TaskResponse && reply.replyTo == request.msgId && reply.dstNode == request.srcNode
      && reply.payload == data && !Messages.IsExpired(reply, now)
  {
  }

  lemma RequestTaken(s: System, step: NetStep, peer: string)
    requires step.Deliver? && step.node == peer && peer in s.routers && s.routers[peer].nodeId == peer && step.m in s.net
    requires step.m.msgType == TaskRequest && step.m.dstNode == peer && !Messages.IsExpired(step.m, step.env.now)
    ensures var s' := NetNext(s, step);
      && s'.routers.Keys == s.routers.Keys && (forall n :: n in s.routers && n != peer ==> s'.routers[n] == s.routers[n])
      && step.m in s'.routers[peer].handling && s'.routers[peer].nodeId == peer
  {
    TakesUp(s.routers[peer], step.m, step.env, step.local);
    TakenUp(s, step);
    hide NetNext, Receive, ToDict;
  }

  lemma AnswerReturns(s: System, node: string, id: string, reply: Message, step: NetStep)
    requires node in s.routers && s.routers[node].nodeId == node && IsWaiting(s.routers[node], id)
    requires reply.msgType == TaskResponse && reply.replyTo == id && reply.dstNode == node
    requires step.Deliver? && step.node == node && step.m == reply && reply in s.net && !Messages.IsExpired(reply, step.env.now)
    ensures var s' := NetNext(NetNext(s, step), Local(node, Continue(id)));
      && node in s'.routers && id in s'.routers[node].calls && s'.routers[node].calls[id].phase == Done(Returned(reply))
  {
    ReplyArrives(s.routers[node], reply, step.env, step.local);
    TakenUp(s, step);
    AnswerEndsCall(s.routers[node], id, reply);
    hide NetNext, Receive, ToDict, IsWaiting, HandleResponse, Resume;
    Continued(NetNext(s, step), node, id);
  }

  lemma RequestFacts(s: System, node: string, id: string)
    requires SystemInv(s) && node in s.routers && id in s.routers[node].calls
    ensures RequestOk(node, id, s.routers[node].calls[id].request)
  {
    hide RouterInv;
    assert NodeOk(s.routers[node], node, s.built);
  }

  lemma TakenUp(s: System, step: NetStep)
    requires step.Deliver? && step.node in s.routers && step.m in s.net
    ensures var (r, out) := Receive(s.routers[step.node], ToDict(step.m), step.env, step.local);
      NetNext(s, step).routers == s.routers[step.node := r]
  {
    hide Receive, ToDict;
  }

  lemma Replied(s: System, step: NetStep)
    requires step.Reply? && step.node in s.routers && step.m in s.routers[step.node].handling
    ensures var s' := NetNext(s, step);
      && s'.routers.Keys == s.routers.Keys && (forall n :: n in s.routers && n != step.node ==> s'.routers[n] == s.routers[n])
      && ReplyTo(s.routers[step.node].nodeId, step.m, step.result, step.id, step.now) in s'.net
  {
    hide ReplyTo;
  }

  lemma Continued(s: System, node: string, id: string)
    requires node in s.routers && CanResume(s.routers[node], id)
    ensures NetNext(s, Local(node, Continue(id))).routers == s.routers[node := Resume(s.routers[node], id)]
  {
    hide Resume;
  }

  function NewRouter(node: string, timeout: real, w: WaitFor): RouterState {
    RouterState(node, false, timeout, w, map[], map[], map[], map[], multiset{}, map[], [])
  }

  /** Two routers that have just been made. */
  function Pair(a: string, b: string, timeout: real, w: WaitFor): System {
    System(map[a := NewRouter(a, timeout, w), b := NewRouter(b, timeout, w)], multiset{}, {}, {})
  }

  /** A router that is started, asked, and has written and sent its request is waiting, whichever wait_for it uses. */
  lemma RequestWaits(r: RouterState, task: string, payload: Dict, dst: string, id: string, session: string, now: real)
    requires RouterInv(r) && r.pending == map[] && id !in r.calls && dst != ""
    ensures var r2 := Begin(Start(r), task, payload, dst, None, "", "", None, id, session, now).0;
      && id in r2.calls && r2.calls[id].phase == Sending && r2.table == r.table
      && r2.calls[id].request == NewTaskRequest(r.nodeId, dst, task, payload, "", "", id, session, now)
      && var r4 := SendDone(r2, id, true); IsWaiting(r4, id) && r4.calls[id].request == r2.calls[id].request
  {
    var r1 := Start(r);
    var r2 := Begin(r1, task, payload, dst, None, "", "", None, id, session, now).0;
    StartKeepsInv(r);
    BeginKeepsInv(r1, task, payload, dst, None, "", "", None, id, session, now);
    hide RouterInv;
    SendDoneKeepsInv(r2, id, true);
  }

  lemma AskMoves(s: System, step: NetStep)
    requires step.Ask? && step.node in s.routers && !IdTaken(s, step.id) && Selectable(s.routers[step.node].table, step.task, step.dst, step.pick)
    ensures NetNext(s, step) == Put(s, step.node,
      Begin(s.routers[step.node], step.task, step.payload, step.dst, step.pick, step.srcAgent, step.dstAgent, step.timeout,
            step.id, step.session, step.now).0)
  {
    hide Begin, IdTaken, Selectable;
  }

  lemma LocalMoves(s: System, node: string, step: LocalStep)
    requires node in s.routers
    ensures NetNext(s, Local(node, step)) == Put(s, node, LocalNext(s.routers[node], step))
  {
    hide LocalNext;
  }

  lemma WriteMoves(s: System, node: string, id: string)
    requires node in s.routers && id in s.routers[node].calls && s.routers[node].calls[id].phase == Sending
    ensures NetNext(s, Write(node, id)) == s.(net := s.net + multiset{s.routers[node].calls[id].request})
  {
  }

  lemma NothingOffered(t: Table, task: string, dst: string)
    requires t == map[]
    ensures Selectable(t, task, dst, None)
  {
  }

  /** The first four steps of an exchange. */
  ghost predicate Opens(steps: seq<NetStep>, a: string, b: string, task: string, payload: Dict, id: string, session: string,
                        now: real) {
    && |steps| >= 4 && steps[0] == Local(a, Startup)
    && steps[1] == Ask(a, task, payload, b, None, "", "", None, id, session, now)
    && steps[2] == Write(a, id) && steps[3] == Local(a, SendReturns(id, true))
  }

  /** After them the call is waiting and its request is on the way. */
  lemma RequestSent(states: seq<System>, steps: seq<NetStep>, a: string, b: string, task: string, payload: Dict, id: string,
                    session: string, now: real)
    requires Run(states, steps) && Opens(steps, a, b, task, payload, id, session, now) && b != ""
    requires a in states[0].routers && b in states[0].routers && !IdTaken(states[0], id)
    requires states[0].routers[a].pending == map[] && states[0].routers[a].table == map[]
    ensures a in states[4].routers && b in states[4].routers && IsWaiting(states[4].routers[a], id)
    ensures states[4].routers[a].calls[id].request == NewTaskRequest(a, b, task, payload, "", "", id, session, now)
    ensures states[4].routers[a].calls[id].request in states[4].net
  {
    RequestAsked(states, steps, a, b, task, payload, id, session, now);
    RunKeepsInv(states, steps, 0);
    NodeNamed(states[0], a);
    var r := states[0].routers[a];
    assert id !in r.calls;
    RequestWaits(r, task, payload, b, id, session, now);
    hide SystemInv, RouterInv, Begin, SendDone, IsWaiting, NetNext, Initial, IdTaken, NewTaskRequest;
    assert states[3] == NetNext(states[2], steps[2]) && states[4] == NetNext(states[3], steps[3]);
    hide Run;
    WriteMoves(states[2], a, id);
    LocalMoves(states[3], a, SendReturns(id, true));
  }

  lemma RequestAsked(states: seq<System>, steps: seq<NetStep>, a: string, b: string, task: string, payload: Dict, id: string,
                     session: string, now: real)
    requires Run(states, steps) && Opens(steps, a, b, task, payload, id, session, now)
    requires a in states[0].routers && !IdTaken(states[0], id) && states[0].routers[a].table == map[]
    ensures states[2].routers == states[0].routers[a :=
      Begin(Start(states[0].routers[a]), task, payload, b, None, "", "", None, id, session, now).0]
  {
    hide Begin, NetNext, Selectable, Initial, IdTaken;
    assert states[1] == NetNext(states[0], steps[0]) && states[2] == NetNext(states[1], steps[1]);
    hide Run;
    var r := states[0].routers[a];
    LocalMoves(states[0], a, Startup);
    assert states[1] == Put(states[0], a, Start(r));
    StillFree(states[0], a, Start(r), id);
    NothingOffered(states[1].routers[a].table, task, b);
    AskMoves(states[1], steps[1]);
  }

  lemma StillFree(s: System, a: string, r: RouterState, id: string)
    requires a in s.routers && !IdTaken(s, id) && r.calls == s.routers[a].calls
    ensures !IdTaken(Put(s, a, r), id)
  {
  }

  lemma PairFacts(a: string, b: string, timeout: real, w: WaitFor, id: string)
    requires a != "" && b != ""
    ensures var s := Pair(a, b, timeout, w);
      && Initial(s) && a in s.routers && b in s.routers && !IdTaken(s, id)
      && s.routers[a].pending == map[] && s.routers[a].table == map[]
  {
  }

  function StatesFrom(s: System, steps: seq<NetStep>): seq<System>
    ensures |StatesFrom(s, steps)| == |steps| + 1
    decreases |steps|
  {
    if |steps| == 0 then [s] else [s] + StatesFrom(NetNext(s, steps[0]), steps[1..])
  }

  lemma {:induction false} StatesFollow(s: System, steps: seq<NetStep>)
    ensures StatesFrom(s, steps)[0] == s
    ensures forall i :: 0 <= i < |steps| ==> StatesFrom(s, steps)[i + 1] == NetNext(StatesFrom(s, steps)[i], steps[i])
    decreases |steps|
  {
    hide NetNext;
    if |steps| > 0 { StatesFollow(NetNext(s, steps[0]), steps[1..]); }
  }

  /** Calls do return: two new routers, a request, its answer, and the caller has the data. */
  lemma CallCanReturn(a: string, b: string, timeout: real, w: WaitFor, task: string, payload: Dict, id: string,
                      session: string, data: Dict, replyId: string, now: real)
    returns (states: seq<System>, steps: seq<NetStep>)
    requires a != b && a != "" && b != ""
    ensures Run(states, steps) && |states| == 9 && states[0] == Pair(a, b, timeout, w)
    ensures a in states[8].routers && id in states[8].routers[a].calls
    ensures var call := states[8].routers[a].calls[id];
      && call.request == NewTaskRequest(a, b, task, payload, "", "", id, session, now)
      && call.phase.Done? && call.phase.outcome.Returned? && call.phase.outcome.m.payload == data
      && Answers(call.phase.outcome.m, call.request, b)
  {
    var request := NewTaskRequest(a, b, task, payload, "", "", id, session, now);
    assert request.dstNode == b && request.msgId == id && !Messages.IsExpired(request, now);
    steps := WholeExchange(a, b, task, payload, id, session, request, data, replyId, now);
    states := StatesFrom(Pair(a, b, timeout, w), steps);
    PairFacts(a, b, timeout, w, id);
    StatesFollow(Pair(a, b, timeout, w), steps);
    hide Opens, Exchanges, StatesFrom, NetNext, ReplyTo, NewTaskRequest, Pair, IsWaiting, Initial;
    assert Run(states, steps);
    hide Run;
    RequestSent(states, steps, a, b, task, payload, id, session, now);
    WaitingHasCall(states[4].routers[a], id);
    ExchangeReturns(states, steps, 4, a, id, data, replyId, now);
    ReplyAnswers(b, request, Produced(data), replyId, now);
    RequestKept(states, steps, a, id);
    hide Answers;
  }

  lemma WholeExchange(a: string, b: string, task: string, payload: Dict, id: string, session: string, request: Message,
                      data: Dict, replyId: string, now: real) returns (steps: seq<NetStep>)
    requires request.dstNode == b && request.msgId == id
    ensures |steps| == 8 && Opens(steps, a, b, task, payload, id, session, now)
    ensures Exchanges(steps, 4, a, request, data, replyId, now)
  {
    hide ReplyTo;
    var env := Defaults("", "", now);
    steps := [Local(a, Startup), Ask(a, task, payload, b, None, "", "", None, id, session, now), Write(a, id),
              Local(a, SendReturns(id, true)), Deliver(b, request, false, env, []), Reply(b, request, Produced(data), replyId, now),
              Deliver(a, ReplyTo(b, request, Produced(data), replyId, now), false, env, []), Local(a, Continue(id))];
  }

  lemma WaitingHasCall(r: RouterState, id: string)
    requires IsWaiting(r, id)
    ensures id in r.calls
  {
  }

  lemma RequestKept(states: seq<System>, steps: seq<NetStep>, node: string, id: string)
    requires Run(states, steps) && |states| == 9 && node in states[4].routers && id in states[4].routers[node].calls
    ensures node in states[8].routers && id in states[8].routers[node].calls
    ensures states[8].routers[node].calls[id].request == states[4].routers[node].calls[id].request
  {
    RunEvolves(states, steps, 4, 8);
    hide Run, Settled;
    CallsKept(states[4].routers[node], states[8].routers[node], id);
  }
}
