/** The router as an object: its tables, its futures, and the stretches of code between awaits. */
module RouterObjects {
  import opened Common
  import opened Messages
  import opened CapabilityTable
  import opened Router

  /** An asyncio future: settled at most once. */
  class Future {
    var state: FutureState

    constructor ()
      ensures state == Unsettled
    {
      state := Unsettled;
    }

    /** set_result, set_exception or cancel. */
    method Settle(end: FutureState)
      requires state == Unsettled && end != Unsettled
      modifies this
      ensures state == end
    {
      state := end;
    }
  }

  /** The pending table and the route_task calls that fill it. */
  class PendingCalls {
    const nodeId: string
    const timeout: real
    const waitFor: WaitFor
    var running: bool
    /** The future of an entry is kept in futures under the same id. */
    var pending: map<string, PendingRequest>
    /** The suspended and finished route_task calls, with their local variables. */
    var calls: map<string, Call>
    /** The future each call waits for, shared with its pending entry. */
    var futures: map<string, Future>
    ghost var fates: map<string, Fate>

    constructor (nodeId: string, timeout: real, waitFor: WaitFor)
      ensures Valid() && this.nodeId == nodeId && this.timeout == timeout && this.waitFor == waitFor
      ensures View() == RouterState(nodeId, false, timeout, waitFor, map[], map[], map[], map[], multiset{}, map[], [])
    {
      this.nodeId, this.timeout, this.waitFor := nodeId, timeout, waitFor;
      running, pending, calls, futures, fates := false, map[], map[], map[], map[];
    }

    /** Every call has a future, every entry a call, and no two calls share a future. */
    ghost predicate Valid()
      reads this
    {
      && futures.Keys == calls.Keys && pending.Keys <= calls.Keys
      && (forall a, b :: a in futures && b in futures && a != b ==> futures[a] != futures[b])
    }

    ghost function States(): map<string, FutureState>
      reads this, futures.Values
    {
      map id | id in futures :: futures[id].state
    }

    /** This object's part of a router's state; nothing is known of other nodes. */
    ghost function View(): RouterState
      reads this, futures.Values
    {
      RouterState(nodeId, running, timeout, waitFor, pending, States(), calls, map[], multiset{}, fates, [])
    }

    /** route_task up to send_to. */
    method BeginCall(task: string, payload: Dict, dst: string, pick: Option<string>, srcAgent: string, dstAgent: string,
                     limit: Option<real>, id: string, session: string, now: real) returns (r: BeginResult)
      requires Valid() && id !in calls
      modifies this`pending, this`calls, this`futures
      ensures Valid()
      ensures (View(), r) == Begin(old(View()), task, payload, dst, pick, srcAgent, dstAgent, limit, id, session, now)
      ensures fresh(futures.Values - old(futures.Values))
    {
      if !running {
        return NotRunning;
      }
      if dst == "" && pick.None? {
        return NoCapableNode;
      }
      var target := if dst == "" then pick.value else dst;
      var msg := NewTaskRequest(nodeId, target, task, payload, srcAgent, dstAgent, id, session, now);
      if |pending| >= MAX_PENDING {
        return TooManyPending;
      }
      Register(PendingRequest(id, session, task, target, now), Call(msg, if limit.Some? then limit.value else timeout, Sending));
      r := Registered(msg);
    }

    /** A new entry with a new future. */
    method Register(entry: PendingRequest, call: Call)
      requires Valid() && entry.msgId !in calls
      modifies this`pending, this`calls, this`futures
      ensures Valid()
      ensures pending == old(pending)[entry.msgId := entry] && calls == old(calls)[entry.msgId := call]
      ensures States() == old(States())[entry.msgId := Unsettled]
      ensures fresh(futures.Values - old(futures.Values))
    {
      var future := new Future();
      pending, calls := pending[entry.msgId := entry], calls[entry.msgId := call];
      futures := futures[entry.msgId := future];
    }

    /** route_task after send_to: the entry is deleted without a default when the send failed, and the newer wait_for
        goes straight through with a future that is settled. */
    method AfterSendTo(id: string, sent: bool)
      requires Valid() && id in calls && calls[id].phase == Sending
      modifies this`pending, this`calls, this`fates
      ensures Valid()
      ensures View() == SendDone(old(View()), id, sent)
    {
      hide Resume;
      if sent {
        MoveTo(id, Waiting);
        if waitFor.Since312? && futures[id].state != Unsettled {
          var _ := ResumeCall(id);
        }
      } else {
        SendRefused(id);
      }
    }

    method MoveTo(id: string, phase: Phase)
      requires Valid() && id in calls
      modifies this`calls
      ensures Valid()
      ensures View() == SetPhase(old(View()), id, phase)
    {
      calls := calls[id := calls[id].(phase := phase)];
      assert States() == old(States());
    }

    method CancelFuture(id: string)
      requires Valid() && id in calls && futures[id].state == Unsettled
      modifies futures[id]
      ensures Valid()
      ensures View() == old(View()).(futures := old(States())[id := Cancelled])
    {
      futures[id].Settle(Cancelled);
      assert States() == old(States())[id := Cancelled];
    }

    method SendRefused(id: string)
      requires Valid() && id in calls && calls[id].phase == Sending
      modifies this`pending, this`calls, this`fates
      ensures Valid()
      ensures View() == SendDone(old(View()), id, false)
    {
      if id in pending {
        pending := pending - {id};
        fates := fates[id := SendFailed];
        calls := calls[id := calls[id].(phase := Done(NoRoute))];
      } else {
        calls := calls[id := calls[id].(phase := Done(LostEntry))];
      }
      assert States() == old(States());
    }

    method OnTimer(id: string)
      requires Valid() && id in calls && calls[id].phase == Waiting
      requires futures[id].state == Unsettled || waitFor.Since312?
      modifies this`calls, futures[id]
      ensures Valid()
      ensures View() == TimerFires(old(View()), id)
    {
      if futures[id].state == Unsettled {
        CancelFuture(id);
      }
      MoveTo(id, Expiring);
    }

    /** route_task after wait_for. */
    method ResumeCall(id: string) returns (outcome: Outcome)
      requires Valid() && id in calls
      requires calls[id].phase == Expiring || (calls[id].phase == Waiting && futures[id].state != Unsettled)
      modifies this`pending, this`calls, this`fates
      ensures Valid()
      ensures View() == Resume(old(View()), id) && calls[id].phase == Done(outcome)
    {
      var state := futures[id].state;
      if calls[id].phase == Expiring || state == TimedOut {
        if id in pending {
          pending := pending - {id};
          fates := fates[id := Expired];
        }
        outcome := TimeoutRaised;
      } else if state == Cancelled {
        outcome := CancelRaised;
      } else if state.m.msgType == TaskError {
        outcome := RemoteError(ErrorText(state.m));
      } else {
        outcome := Returned(state.m);
      }
      calls := calls[id := calls[id].(phase := Done(outcome))];
      assert States() == old(States());
    }

    /** The task running the call is cancelled from outside; nothing removes the entry. The older wait_for returns a
        result that is already there. */
    method CancelCaller(id: string)
      requires Valid() && id in calls && !calls[id].phase.Done?
      modifies this`pending, this`calls, this`fates, futures[id]
      ensures Valid()
      ensures View() == CallerCancelled(old(View()), id)
    {
      hide Resume;
      if calls[id].phase == Waiting && futures[id].state != Unsettled && waitFor.Before312? {
        var _ := ResumeCall(id);
      } else {
        Abandon(id);
      }
    }

    method Abandon(id: string)
      requires Valid() && id in calls && !calls[id].phase.Done?
      requires calls[id].phase == Waiting && futures[id].state != Unsettled ==> waitFor.Since312?
      modifies this`calls, futures[id]
      ensures Valid()
      ensures View() == CallerCancelled(old(View()), id)
    {
      hide Resume;
      if calls[id].phase == Waiting && futures[id].state == Unsettled {
        CancelFuture(id);
      }
      MoveTo(id, Done(CancelRaised));
    }

    method HandleTaskResponse(m: Message)
      requires Valid()
      modifies this`pending, this`fates, futures.Values
      ensures Valid()
      ensures View() == HandleResponse(old(View()), m)
    {
      var id := m.replyTo;
      if id !in pending {
        return;
      }
      pending := pending - {id};
      fates := fates[id := Answered];
      if futures[id].state == Unsettled {
        futures[id].Settle(Answer(m));
        assert States() == old(States())[id := Answer(m)];
      }
    }

    /** The first half of the eviction loop's body. */
    method EvictExpired(now: real)
      requires Valid()
      modifies this`pending, this`fates, futures.Values
      ensures Valid()
      ensures View() == EvictPending(old(View()), now)
    {
      var expired := set id | id in pending && now - pending[id].createdAt > timeout;
      assert expired == ExpiredIds(old(View()), now);
      Settle(expired, TimedOut);
      fates := EvictPending(old(View()), now).fates;
      pending := pending - expired;
    }

    /** A loop over entries that settles the futures still open. */
    method Settle(ids: set<string>, end: FutureState)
      requires Valid() && ids <= pending.Keys && end != Unsettled
      modifies futures.Values
      ensures States() == SettleAll(old(States()), ids, end)
    {
      var rest := ids;
      while rest != {}
        invariant rest <= ids
        invariant forall id :: id in futures ==>
          futures[id].state == if id in ids - rest && old(futures[id].state) == Unsettled then end else old(futures[id].state)
        decreases rest
      {
        var id :| id in rest;
        rest := rest - {id};
        if futures[id].state == Unsettled {
          futures[id].Settle(end);
        }
      }
    }

    method StopRouter()
      requires Valid()
      modifies this`running, this`pending, this`fates, futures.Values
      ensures Valid()
      ensures View() == Stop(old(View()))
    {
      if !running {
        return;
      }
      ghost var r := View();
      Settle(pending.Keys, Cancelled);
      running, pending, fates := false, map[], Stop(r).fates;
    }
  }

  class ProtocolRouter {
    const calls: PendingCalls
    const remote: RemoteNodes
    var handling: multiset<Message>
    ghost var events: seq<Event>

    constructor (nodeId: string, timeout: real, waitFor: WaitFor)
      ensures Valid() && fresh(remote) && fresh(calls)
      ensures View() == RouterState(nodeId, false, timeout, waitFor, map[], map[], map[], map[], multiset{}, map[], [])
    {
      calls := new PendingCalls(nodeId, timeout, waitFor);
      remote := new RemoteNodes();
      handling, events := multiset{}, [];
    }

    ghost predicate Valid()
      reads this, calls, remote, remote.nodes.Values
    {
      calls.Valid() && remote.Valid()
    }

    ghost function View(): RouterState
      reads this, calls, calls.futures.Values, remote, remote.nodes.Values
    {
      calls.View().(table := remote.View(), handling := handling, events := events)
    }

    /** route_task up to send_to; the node is selected when the caller names none. */
    method RouteTask(task: string, payload: Dict, dst: string, latency: string -> real, srcAgent: string, dstAgent: string,
                     limit: Option<real>, id: string, session: string, now: real)
      returns (r: BeginResult, ghost pick: Option<string>)
      requires Valid() && id !in calls.calls
      modifies calls`pending, calls`calls, calls`futures
      ensures Valid()
      ensures calls.running && dst == "" ==> Selects(remote.View(), task, latency, pick)
      ensures (View(), r) == Begin(old(View()), task, payload, dst, pick, srcAgent, dstAgent, limit, id, session, now)
      ensures fresh(calls.futures.Values - old(calls.futures.Values))
    {
      hide Begin, Selects;
      var node: Option<string> := None;
      if calls.running && dst == "" {
        node := SelectNode(task, latency);
      }
      pick := node;
      r := SendTo(task, payload, dst, node, srcAgent, dstAgent, limit, id, session, now);
    }

    method SendTo(task: string, payload: Dict, dst: string, pick: Option<string>, srcAgent: string, dstAgent: string,
                  limit: Option<real>, id: string, session: string, now: real) returns (r: BeginResult)
      requires Valid() && id !in calls.calls
      modifies calls`pending, calls`calls, calls`futures
      ensures Valid()
      ensures (View(), r) == Begin(old(View()), task, payload, dst, pick, srcAgent, dstAgent, limit, id, session, now)
      ensures fresh(calls.futures.Values - old(calls.futures.Values))
    {
      hide Begin;
      BeginWithin(calls.View(), task, payload, dst, pick, srcAgent, dstAgent, limit, id, session, now,
                  remote.View(), handling, events);
      r := calls.BeginCall(task, payload, dst, pick, srcAgent, dstAgent, limit, id, session, now);
      assert remote.View() == old(remote.View());
    }

    method EvictionPass(now: real)
      requires Valid()
      modifies this`events, calls`pending, calls`fates, calls.futures.Values, remote
      ensures Valid()
      ensures View() == Evict(old(View()), now)
    {
      hide EvictPending, Step;
      if !calls.running {
        return;
      }
      EvictCalls(now);
      EvictNodes(now);
    }

    method EvictCalls(now: real)
      requires Valid()
      modifies calls`pending, calls`fates, calls.futures.Values
      ensures Valid()
      ensures View() == EvictPending(old(View()), now)
    {
      hide EvictPending;
      EvictWithin(calls.View(), now, remote.View(), handling, events);
      calls.EvictExpired(now);
      assert remote.View() == old(remote.View());
    }

    method EvictNodes(now: real)
      requires Valid()
      modifies this`events, remote
      ensures Valid()
      ensures View() == Record(old(View()), Swept(now))
    {
      remote.EvictStale(now);
      events := events + [Swept(now)];
      assert calls.View() == old(calls.View());
    }

    /** Picks the capable node with the least latency. */
    method SelectNode(task: string, latency: string -> real) returns (pick: Option<string>)
      requires Valid()
      ensures Selects(remote.View(), task, latency, pick)
    {
      var candidates := remote.NodesFor(task);
      var rest := candidates;
      pick := None;
      while rest != {}
        invariant rest <= candidates
        invariant pick.None? ==> rest == candidates
        invariant pick.Some? ==> pick.value in candidates
        invariant pick.Some? ==> forall n :: n in candidates && n !in rest ==> latency(pick.value) <= latency(n)
        decreases rest
      {
        var n :| n in rest;
        rest := rest - {n};
        if pick.None? || latency(n) < latency(pick.value) {
          pick := Some(n);
        }
      }
    }

    method HandleTaskResponse(m: Message)
      requires Valid()
      modifies calls`pending, calls`fates, calls.futures.Values
      ensures Valid()
      ensures View() == HandleResponse(old(View()), m)
    {
      hide HandleResponse;
      ResponseWithin(calls.View(), m, remote.View(), handling, events);
      calls.HandleTaskResponse(m);
      assert remote.View() == old(remote.View());
    }

    method HandleAnnounce(node: string, caps: seq<AgentCapability>, now: real)
      requires Valid()
      modifies this`events, remote, remote.nodes.Values
      ensures Valid()
      ensures View() == Record(old(View()), Announced(node, caps, now))
    {
      hide Upsert;
      remote.UpsertNode(node, caps, now);
      events := events + [Announced(node, caps, now)];
      assert calls.View() == old(calls.View());
    }

    method HandleWithdraw(node: string, names: seq<string>, now: real)
      requires Valid()
      modifies this`events, remote.nodes.Values
      ensures Valid()
      ensures View() == Record(old(View()), Withdrawn(node, names, now))
    {
      hide WithdrawAgents;
      remote.WithdrawFrom(node, names, now);
      events := events + [Withdrawn(node, names, now)];
      assert calls.View() == old(calls.View());
    }

    method HandleHeartbeat(node: string, now: real)
      requires Valid()
      modifies this`events, remote.nodes.Values
      ensures Valid()
      ensures View() == Record(old(View()), Beat(node, now))
    {
      hide Refresh;
      remote.HeartbeatFrom(node, now);
      events := events + [Beat(node, now)];
      assert calls.View() == old(calls.View());
    }

    /** One inbound message up to the first await. */
    method OnMeshAgentMsg(d: Dict, env: Defaults, local: seq<AgentCapability>) returns (out: seq<Message>)
      requires Valid()
      modifies this`events, this`handling, calls`pending, calls`fates, calls.futures.Values, remote, remote.nodes.Values
      ensures Valid()
      ensures (View(), out) == Receive(old(View()), d, env, local)
    {
      hide FromDict, Dispatch;
      var parsed := FromDict(d, env);
      if parsed.Err? || IsExpired(parsed.value, env.now) {
        return [];
      }
      if parsed.value.dstNode != "" && parsed.value.dstNode != calls.nodeId {
        return [];
      }
      out := HandleMessage(parsed.value, env, local);
    }

    /** The handler of each message type. */
    method HandleMessage(m: Message, env: Defaults, local: seq<AgentCapability>) returns (out: seq<Message>)
      requires Valid()
      modifies this`events, this`handling, calls`pending, calls`fates, calls.futures.Values, remote, remote.nodes.Values
      ensures Valid()
      ensures (View(), out) == Dispatch(old(View()), m, env, local)
    {
      hide CapabilitiesAt, WithdrawnNames, HandleResponse, Record, NewCapabilityReply;
      out := [];
      match m.msgType {
        case TaskRequest => handling := handling + multiset{m};
        case TaskResponse => HandleTaskResponse(m);
        case TaskError => HandleTaskResponse(m);
        case CapabilityQuery =>
          out := [NewCapabilityReply(calls.nodeId, m.srcNode, m.msgId, local, env.msgId, env.sessionId, env.now)];
        case AgentWithdraw =>
          var names := WithdrawnNames(m.payload);
          if names.Some? { HandleWithdraw(m.srcNode, names.value, env.now); }
        case Heartbeat => HandleHeartbeat(m.srcNode, env.now);
        case _ =>
          var caps := CapabilitiesAt(m.payload);
          if caps.Ok? { HandleAnnounce(m.srcNode, caps.value, env.now); }
      }
    }
  }

  lemma BeginWithin(r: RouterState, task: string, payload: Dict, dst: string, pick: Option<string>, srcAgent: string,
                    dstAgent: string, limit: Option<real>, id: string, session: string, now: real,
                    table: Table, handling: multiset<Message>, events: seq<Event>)
    ensures var (r', result) := Begin(r, task, payload, dst, pick, srcAgent, dstAgent, limit, id, session, now);
      Begin(r.(table := table, handling := handling, events := events),
            task, payload, dst, pick, srcAgent, dstAgent, limit, id, session, now)
      == (r'.(table := table, handling := handling, events := events), result)
  {
    hide NewTaskRequest;
  }

  /** The other tables play no part in what happens to pending calls. */
  lemma EvictWithin(r: RouterState, now: real, table: Table, handling: multiset<Message>, events: seq<Event>)
    ensures EvictPending(r.(table := table, handling := handling, events := events), now)
         == EvictPending(r, now).(table := table, handling := handling, events := events)
  {
    assert ExpiredIds(r.(table := table, handling := handling, events := events), now) == ExpiredIds(r, now);
  }

  lemma PopWithin(r: RouterState, id: string, fate: Fate, table: Table, handling: multiset<Message>, events: seq<Event>)
    ensures Pop(r.(table := table, handling := handling, events := events), id, fate)
         == Pop(r, id, fate).(table := table, handling := handling, events := events)
  {
  }

  lemma ResponseWithin(r: RouterState, m: Message, table: Table, handling: multiset<Message>, events: seq<Event>)
    ensures HandleResponse(r.(table := table, handling := handling, events := events), m)
         == HandleResponse(r, m).(table := table, handling := handling, events := events)
  {
    PopWithin(r, m.replyTo, Answered, table, handling, events);
    hide Pop;
  }
}
