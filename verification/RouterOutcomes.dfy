/** How a routed task ends: what each event does to the call that waits for it. */
module RouterOutcomes {
  import opened Common
  import opened Messages
  import opened CapabilityTable
  import opened Router

  /** The call is suspended in wait_for and nothing has happened to it yet. */
  ghost predicate IsWaiting(r: RouterState, id: string) {
    && RouterInv(r) && id in r.calls && r.calls[id].phase == Waiting
    && id in r.pending && Lookup(r.futures, id) == Some(Unsettled)
  }

  /** The call is over with the given outcome, its entry is gone for the given reason, and no response can change
      anything any more. */
  ghost predicate EndsWith(r: RouterState, id: string, outcome: Outcome, fate: Fate) {
    && id in r.calls && r.calls[id].phase == Done(outcome)
    && id !in r.pending && Lookup(r.fates, id) == Some(fate)
    && forall m: Message :: m.replyTo == id ==> HandleResponse(r, m) == r
  }

  lemma GoneIsFinal(r: RouterState, id: string)
    requires id !in r.pending
    ensures forall m: Message :: m.replyTo == id ==> HandleResponse(r, m) == r
  {
  }

  /** Why a request is refused, and that the router is left as it was: it is stopped, else no node is named and none offers
      the task, else 256 requests are pending. */
  lemma RefusedFor(r: RouterState, task: string, payload: Dict, dst: string, pick: Option<string>, srcAgent: string,
                   dstAgent: string, timeout: Option<real>, id: string, session: string, now: real,
                   latency: string -> real)
    requires r.running && dst == "" ==> Selects(r.table, task, latency, pick)
    ensures var (r', result) := Begin(r, task, payload, dst, pick, srcAgent, dstAgent, timeout, id, session, now);
      && (result == NotRunning <==> !r.running)
      && (result == NoCapableNode <==> r.running && dst == "" && NodesForTask(r.table, task) == {})
      && (result == TooManyPending <==>
            r.running && (dst != "" || NodesForTask(r.table, task) != {}) && |r.pending| >= 256)
      && (!result.Registered? ==> r' == r)
  {
    hide NewTaskRequest, NodesForTask, Register;
  }

  /** A registered request carries the caller's task and payload to the node the caller named, or else to one that
      offers the task with the least latency, and takes one new entry. */
  lemma RegisteredRequest(r: RouterState, task: string, payload: Dict, dst: string, pick: Option<string>, srcAgent: string,
                          dstAgent: string, timeout: Option<real>, id: string, session: string, now: real,
                          latency: string -> real)
    requires RouterInv(r) && id !in r.calls && (dst == "" ==> Selects(r.table, task, latency, pick))
    requires Begin(r, task, payload, dst, pick, srcAgent, dstAgent, timeout, id, session, now).1.Registered?
    ensures var (r', result) := Begin(r, task, payload, dst, pick, srcAgent, dstAgent, timeout, id, session, now);
      var request := result.request;
      && request.task == task && request.payload == payload && request.msgId == id
      && (if dst != "" then request.dstNode == dst else HasLeastLatency(r.table, task, latency, request.dstNode))
      && id !in r.pending && r'.pending.Keys == r.pending.Keys + {id}
      && id in r'.calls && r'.calls[id].request == request
  {
    PendingOrFated(r, id);
    var target := if dst == "" then pick.value else dst;
    var request := NewTaskRequest(r.nodeId, target, task, payload, srcAgent, dstAgent, id, session, now);
    Registers(r, PendingRequest(id, session, task, target, now),
              Call(request, if timeout.Some? then timeout.value else r.timeout, Sending));
    hide RouterInv, NodesForTask, Register;
  }

  lemma Registers(r: RouterState, entry: PendingRequest, call: Call)
    ensures var r' := Register(r, entry, call);
      && r'.pending.Keys == r.pending.Keys + {entry.msgId}
      && entry.msgId in r'.calls && r'.calls[entry.msgId] == call
  {
  }

  ghost predicate HasLeastLatency(t: Table, task: string, latency: string -> real, node: string) {
    node in NodesForTask(t, task) && forall n :: n in NodesForTask(t, task) ==> latency(node) <= latency(n)
  }

  /** A response ends the call: the caller gets it, or its error as an exception. */
  lemma AnswerEndsCall(r: RouterState, id: string, m: Message)
    requires IsWaiting(r, id) && m.replyTo == id
    ensures var r1 := HandleResponse(r, m);
      && id in r1.calls && id in r1.futures && r1.calls[id].phase == Waiting && r1.futures[id] == Answer(m)
      && EndsWith(Resume(r1, id), id,
                  if m.msgType == TaskError then RemoteError(ErrorText(m)) else Returned(m), Answered)
  {
    hide RouterInv;
    GoneIsFinal(Resume(HandleResponse(r, m), id), id);
  }

  /** Between its response and the resumption a call can still be interrupted: with the newer wait_for a timer or a
      cancellation of the caller wins over the response; with the older one neither does. */
  lemma AnswerCanBeLost(r: RouterState, id: string, m: Message)
    requires IsWaiting(r, id) && m.replyTo == id
    ensures var r1 := HandleResponse(r, m);
      && id in r1.calls && id in r1.futures && !r1.calls[id].phase.Done?
      && (TimerEnabled(r1, id) <==> r.waitFor.Since312?)
      && (TimerEnabled(r1, id) ==>
            CanResume(TimerFires(r1, id), id) && EndsWith(Resume(TimerFires(r1, id), id), id, TimeoutRaised, Answered))
      && EndsWith(CallerCancelled(r1, id), id, if r.waitFor.Since312? then CancelRaised else Conclude(m), Answered)
  {
    hide RouterInv, Conclude;
    var r1 := HandleResponse(r, m);
    GoneIsFinal(CallerCancelled(r1, id), id);
    if TimerEnabled(r1, id) { GoneIsFinal(Resume(TimerFires(r1, id), id), id); }
  }

  /** When the timer fires the caller gets a timeout; a response that arrives before the call resumes is lost all the
      same. */
  lemma TimerEndsCall(r: RouterState, id: string, late: Message)
    requires IsWaiting(r, id) && late.replyTo == id
    ensures var r1 := TimerFires(r, id);
      && id in r1.calls && id in r1.futures && r1.calls[id].phase == Expiring
      && EndsWith(Resume(r1, id), id, TimeoutRaised, Expired)
    ensures var r2 := HandleResponse(TimerFires(r, id), late);
      && id in r2.calls && id in r2.futures && r2.calls[id].phase == Expiring
      && EndsWith(Resume(r2, id), id, TimeoutRaised, Answered)
  {
    hide RouterInv;
    GoneIsFinal(Resume(TimerFires(r, id), id), id);
    GoneIsFinal(Resume(HandleResponse(TimerFires(r, id), late), id), id);
  }

  /** A sweep that finds the entry too old times the caller out, and leaves every other waiting call alone. */
  lemma SweepEndsCall(r: RouterState, id: string, now: real)
    requires IsWaiting(r, id) && r.running
    ensures var r1 := Evict(r, now);
      && id in r1.calls && id in r1.futures
      && (if now - r.pending[id].createdAt > r.timeout
          then r1.calls[id].phase == Waiting && r1.futures[id] == TimedOut
               && EndsWith(Resume(r1, id), id, TimeoutRaised, Evicted)
          else IsWaiting(r1, id))
  {
    EvictKeepsInv(r, now);
    hide RouterInv, Step;
    var r1 := Evict(r, now);
    if now - r.pending[id].createdAt > r.timeout { GoneIsFinal(Resume(r1, id), id); }
  }

  /** The whole exchange: a request that is sent, taken up by the addressed node, answered there and delivered back in
      time ends the call with that node's answer. */
  lemma ExchangeSucceeds(a: RouterState, id: string, b: RouterState, envB: Defaults, result: Handled, replyId: string,
                         repliedAt: real, envA: Defaults, localA: seq<AgentCapability>, localB: seq<AgentCapability>)
    requires IsWaiting(a, id) && a.calls[id].request.msgType == TaskRequest && a.calls[id].request.srcNode == a.nodeId
    requires b.nodeId == a.calls[id].request.dstNode
    requires !IsExpired(a.calls[id].request, envB.now) && envA.now - repliedAt <= MESSAGE_TTL_SECS
    ensures var request := a.calls[id].request;
      var (b1, out) := Receive(b, ToDict(request), envB, localB);
      var (b2, reply) := FinishHandling(b1, request, result, replyId, repliedAt);
      var a1 := Receive(a, ToDict(reply), envA, localA).0;
      && request in b1.handling && out == [] && b2.handling == b.handling && Answers(reply, request, b.nodeId)
      && id in a1.calls && id in a1.futures && a1.calls[id].phase == Waiting && a1.futures[id] == Answer(reply)
      && EndsWith(Resume(a1, id), id,
                  if result.Failed? then RemoteError(JString(result.error)) else Returned(reply), Answered)
  {
    var request := a.calls[id].request;
    SlotAt(a, id);
    TakesUp(b, request, envB, localB);
    var (b1, out) := Receive(b, ToDict(request), envB, localB);
    var (b2, reply) := FinishHandling(b1, request, result, replyId, repliedAt);
    assert b2.handling == b.handling;
    hide RouterInv, Receive, ToDict, HandleResponse, Resume, EndsWith;
    ReplyArrives(a, reply, envA, localA);
    AnswerEndsCall(a, id, reply);
  }

  lemma TakesUp(b: RouterState, request: Message, env: Defaults, local: seq<AgentCapability>)
    requires request.msgType == TaskRequest && request.dstNode == b.nodeId && !IsExpired(request, env.now)
    ensures Receive(b, ToDict(request), env, local) == (b.(handling := b.handling + multiset{request}), [])
  {
    DictRoundTrip(request, env);
    hide FromDict, ToDict;
  }

  lemma ReplyArrives(a: RouterState, reply: Message, env: Defaults, local: seq<AgentCapability>)
    requires reply.msgType in {TaskResponse, TaskError} && reply.dstNode == a.nodeId && !IsExpired(reply, env.now)
    ensures Receive(a, ToDict(reply), env, local) == (HandleResponse(a, reply), [])
  {
    DictRoundTrip(reply, env);
    hide FromDict, ToDict, HandleResponse;
  }
}
