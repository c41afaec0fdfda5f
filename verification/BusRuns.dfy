/** Whole runs of the bus, where anything may happen while a handler is awaited. */
module BusRuns {
  import opened AgentBus

  /** A message on its way: the handlers still to be awaited, those awaited and what they gave, and the responses. */
  datatype Delivery = Delivery(m: AgentMessage, rest: seq<Subscription>, called: seq<(Subscription, Outcome)>,
                               responses: seq<AgentResponse>)

  datatype World = World(bus: Bus, deliveries: seq<Delivery>)

  datatype Op =
    | Sub(topic: string, handler: Handler, sid: string)
    | Unsub(topic: string, sid: string)
    | UnsubAll(sid: string)
    | Pub(m: AgentMessage, now: real)
    | Req(target: string, m: AgentMessage)
    | HandlerReturns(k: nat, outcome: Outcome)
    | Drain
    | Clear

  function Advance(d: Delivery, o: Outcome): Delivery
    requires |d.rest| > 0
  {
    Delivery(d.m, d.rest[1..], d.called + [(d.rest[0], o)], if o.Responds? then d.responses + [o.response] else d.responses)
  }

  function Open(w: World, bus: Bus, m: AgentMessage, targets: seq<Subscription>): World {
    World(bus, if |targets| == 0 then w.deliveries else w.deliveries + [Delivery(m, targets, [], [])])
  }

  function WorldNext(w: World, op: Op): World {
    match op
    case Sub(topic, handler, sid) => w.(bus := AddSubscription(w.bus, topic, handler, sid))
    case Unsub(topic, sid) => w.(bus := RemoveSubscription(w.bus, topic, sid))
    case UnsubAll(sid) => w.(bus := RemoveEverywhere(w.bus, sid))
    case Pub(m, now) =>
      var (bus, targets) := Route(w.bus, m, now);
      Open(w, bus, m, targets)
    case Req(target, m) =>
      var (bus, first) := RouteRequest(w.bus, target, m);
      Open(w, bus, m, if first.Some? then [first.value] else [])
    case HandlerReturns(k, outcome) =>
      if k < |w.deliveries| && |w.deliveries[k].rest| > 0
      then World(HandlerDone(w.bus, outcome), w.deliveries[k := Advance(w.deliveries[k], outcome)])
      else w
    case Drain => w.(bus := w.bus.(deadLetters := []))
    case Clear => w.(bus := Bus(map[], [], 0, 0, 0))
  }

  function RunBus(ops: seq<Op>): World {
    if |ops| == 0 then World(Bus(map[], [], 0, 0, 0), [])
    else WorldNext(RunBus(ops[..|ops| - 1]), ops[|ops| - 1])
  }

  // --- what the log of operations says --------------------------------------------------------

  /** The subscription made by an operation. */
  function SubAt(ops: seq<Op>, i: nat): Subscription
    requires i < |ops| && ops[i].Sub?
  {
    Subscription(LabelFor(RunBus(ops[..i]).bus.handlers, ops[i].topic, ops[i].sid), ops[i].handler)
  }

  predicate Cancels(op: Op, topic: string, sid: string) {
    (op.Unsub? && op.topic == topic && op.sid == sid) || (op.UnsubAll? && op.sid == sid) || op.Clear?
  }

  /** The i-th operation subscribed to the topic, and nothing since has cancelled that. */
  ghost predicate ActiveAt(ops: seq<Op>, topic: string, i: nat) {
    && i < |ops| && ops[i].Sub? && ops[i].topic == topic
    && forall j :: i < j < |ops| ==> !Cancels(ops[j], topic, SubAt(ops, i).sid)
  }

  /** The active subscriptions made by the first n operations, in order. */
  ghost function Active(ops: seq<Op>, topic: string, n: nat): seq<Subscription>
    requires n <= |ops|
  {
    if n == 0 then [] else Active(ops, topic, n - 1) + (if ActiveAt(ops, topic, n - 1) then [SubAt(ops, n - 1)] else [])
  }

  /** Whom a message to the target concerns. */
  ghost function Recipients(ops: seq<Op>, target: string): seq<Subscription> {
    Active(ops, target, |ops|)
    + (if target == "broadcast" then [] else Active(ops, "broadcast", |ops|))
    + (if target == "*" then [] else Active(ops, "*", |ops|))
  }

  ghost predicate NobodyOn(ops: seq<Op>, topic: string) {
    forall i: nat :: !ActiveAt(ops, topic, i)
  }

  /** The operation finds nobody to deliver its message to. */
  ghost predicate Undeliverable(ops: seq<Op>, op: Op) {
    || (op.Pub? && op.now - op.m.timestamp <= 60.0
        && NobodyOn(ops, op.m.target) && NobodyOn(ops, "broadcast") && NobodyOn(ops, "*"))
    || (op.Req? && NobodyOn(ops, op.target) && NobodyOn(ops, "broadcast"))
  }

  /** All messages dead-lettered since the queue was last emptied. */
  ghost function DeadLog(ops: seq<Op>): seq<AgentMessage> {
    if |ops| == 0 then []
    else
      var front, op := ops[..|ops| - 1], ops[|ops| - 1];
      if op.Drain? || op.Clear? then [] else if Undeliverable(front, op) then DeadLog(front) + [op.m] else DeadLog(front)
  }

  function Latest<T>(log: seq<T>): seq<T> {
    if |log| <= 256 then log else log[|log| - 256..]
  }

  lemma AppendKeepsLatest<T>(log: seq<T>, x: T)
    ensures Append(Latest(log), x) == Latest(log + [x])
  {
  }

  // --- subscriptions -----------------------------------------------------------------------------

  lemma {:induction false} WithoutConcat(a: seq<Subscription>, b: seq<Subscription>, sid: string)
    ensures Without(a + b, sid) == Without(a, sid) + Without(b, sid)
  {
    if |b| == 0 {
      assert a + b == a;
    } else {
      assert (a + b)[..|a + b| - 1] == a + b[..|b| - 1];
      WithoutConcat(a, b[..|b| - 1], sid);
    }
  }

  /** What one more operation leaves of a list of subscriptions to a topic. */
  function Left(subs: seq<Subscription>, op: Op, topic: string): seq<Subscription> {
    if op.Clear? then []
    else if (op.Unsub? && op.topic == topic) || op.UnsubAll? then Without(subs, op.sid)
    else subs
  }

  lemma LeftConcat(a: seq<Subscription>, s: Subscription, op: Op, topic: string)
    ensures Left(a + [s], op, topic) == Left(a, op, topic) + (if Cancels(op, topic, s.sid) then [] else [s])
  {
    if op.Unsub? || op.UnsubAll? {
      WithoutConcat(a, [s], op.sid);
      assert Without([s], op.sid) == if s.sid == op.sid then [] else [s] by { assert [s][..0] == []; }
    }
  }

  lemma ActiveStep(ops: seq<Op>, topic: string, i: nat)
    requires |ops| > 0 && i < |ops| - 1
    ensures var front, op := ops[..|ops| - 1], ops[|ops| - 1];
      && (ops[i].Sub? ==> SubAt(ops, i) == SubAt(front, i))
      && (ActiveAt(ops, topic, i) <==> ActiveAt(front, topic, i) && !Cancels(op, topic, SubAt(front, i).sid))
  {
    var front := ops[..|ops| - 1];
    assert front[..i] == ops[..i];
  }

  lemma {:induction false} ActiveLeft(ops: seq<Op>, topic: string, n: nat)
    requires |ops| > 0 && n <= |ops| - 1
    ensures Active(ops, topic, n) == Left(Active(ops[..|ops| - 1], topic, n), ops[|ops| - 1], topic)
  {
    hide ActiveAt, Cancels;
    if n > 0 {
      var front, op := ops[..|ops| - 1], ops[|ops| - 1];
      ActiveLeft(ops, topic, n - 1);
      ActiveStep(ops, topic, n - 1);
      var before := Active(front, topic, n - 1);
      if ActiveAt(front, topic, n - 1) {
        ActiveInRange(front, topic, n - 1);
        var s := SubAt(front, n - 1);
        LeftConcat(before, s, op, topic);
        assert Active(front, topic, n) == before + [s];
        assert Active(ops, topic, n) == Left(before, op, topic) + (if Cancels(op, topic, s.sid) then [] else [s]);
      } else {
        assert Active(front, topic, n) == before;
        assert Active(ops, topic, n) == Left(before, op, topic);
      }
    }
  }

  /** The bus holds for each topic exactly the subscriptions still active, in the order they were made. */
  lemma {:induction false} SubscribersAreActive(ops: seq<Op>, topic: string)
    ensures SubscribersOf(RunBus(ops).bus.handlers, topic) == Active(ops, topic, |ops|)
  {
    hide ActiveAt, Left;
    if |ops| > 0 {
      var n: nat := |ops| - 1;
      SubscribersAreActive(ops[..n], topic);
      ActiveLeft(ops, topic, n);
      LastActive(ops, topic);
      StepSubscribers(RunBus(ops[..n]), ops[n], topic);
    }
  }

  lemma LastActive(ops: seq<Op>, topic: string)
    requires |ops| > 0
    ensures ActiveAt(ops, topic, |ops| - 1) <==> ops[|ops| - 1].Sub? && ops[|ops| - 1].topic == topic
  {
  }

  lemma StepSubscribers(w: World, op: Op, topic: string)
    ensures SubscribersOf(WorldNext(w, op).bus.handlers, topic)
         == Left(SubscribersOf(w.bus.handlers, topic), op, topic)
            + (if op.Sub? && op.topic == topic then [Subscription(LabelFor(w.bus.handlers, topic, op.sid), op.handler)] else [])
  {
    hide LabelFor, Gather;
  }

  lemma {:induction false} NobodyIsEmpty(ops: seq<Op>, topic: string, n: nat)
    requires n <= |ops|
    ensures Active(ops, topic, n) == [] <==> forall i: nat :: i < n ==> !ActiveAt(ops, topic, i)
  {
    hide ActiveAt;
    if n > 0 { NobodyIsEmpty(ops, topic, n - 1); }
  }

  lemma NobodySubscribed(ops: seq<Op>, topic: string)
    ensures NobodyOn(ops, topic) <==> SubscribersOf(RunBus(ops).bus.handlers, topic) == []
  {
    hide ActiveAt, SubscribersOf, Active, RunBus;
    SubscribersAreActive(ops, topic);
    NobodyIsEmpty(ops, topic, |ops|);
    forall i: nat | ActiveAt(ops, topic, i) ensures i < |ops| { ActiveInRange(ops, topic, i); }
  }

  lemma ActiveInRange(ops: seq<Op>, topic: string, i: nat)
    requires ActiveAt(ops, topic, i)
    ensures i < |ops| && ops[i].Sub? && ops[i].topic == topic
  {
  }

  // --- the dead-letter queue ------------------------------------------------------------------

  /** In every run the queue holds the latest 256 of the messages dead-lettered since it was last emptied. */
  lemma {:induction false} QueueIsLatest(ops: seq<Op>)
    ensures RunBus(ops).bus.deadLetters == Latest(DeadLog(ops))
  {
    hide Undeliverable, WorldNext;
    if |ops| > 0 {
      var front, op := ops[..|ops| - 1], ops[|ops| - 1];
      QueueIsLatest(front);
      UndeliverableMessage(front, op);
      DeadLettersStep(front, op);
      if Undeliverable(front, op) { AppendKeepsLatest(DeadLog(front), op.m); }
      hide Append, Latest;
    }
  }

  lemma UndeliverableMessage(ops: seq<Op>, op: Op)
    ensures Undeliverable(ops, op) ==> op.Pub? || op.Req?
  {
  }

  lemma DeadLettersStep(front: seq<Op>, op: Op)
    ensures WorldNext(RunBus(front), op).bus.deadLetters
         == if op.Drain? || op.Clear? then [] else if Undeliverable(front, op) then Append(RunBus(front).bus.deadLetters, op.m)
            else RunBus(front).bus.deadLetters
  {
    hide Undeliverable, RunBus, Append, Route, RouteRequest;
    if op.Pub? {
      PublishedDeadLetters(front, op);
    } else if op.Req? {
      RequestedDeadLetters(front, op);
    } else {
      UndeliverableMessage(front, op);
    }
  }

  lemma PublishedDeadLetters(front: seq<Op>, op: Op)
    requires op.Pub?
    ensures Route(RunBus(front).bus, op.m, op.now).0.deadLetters
         == if Undeliverable(front, op) then Append(RunBus(front).bus.deadLetters, op.m) else RunBus(front).bus.deadLetters
  {
    hide NobodyOn, RunBus, Append, SubscribersOf, Gather, TopicsFor;
    NobodySubscribed(front, op.m.target);
    NobodySubscribed(front, "broadcast");
    NobodySubscribed(front, "*");
    GatherThree(RunBus(front).bus.handlers, op.m.target);
  }

  lemma RequestedDeadLetters(front: seq<Op>, op: Op)
    requires op.Req?
    ensures RouteRequest(RunBus(front).bus, op.target, op.m).0.deadLetters
         == if Undeliverable(front, op) then Append(RunBus(front).bus.deadLetters, op.m) else RunBus(front).bus.deadLetters
  {
    hide NobodyOn, RunBus, Append, SubscribersOf;
    NobodySubscribed(front, op.target);
    NobodySubscribed(front, "broadcast");
  }

  // --- deliveries --------------------------------------------------------------------------------

  function Subscribers(called: seq<(Subscription, Outcome)>): seq<Subscription> {
    seq(|called|, k requires 0 <= k < |called| => called[k].0)
  }

  function Outcomes(called: seq<(Subscription, Outcome)>): seq<Outcome> {
    seq(|called|, k requires 0 <= k < |called| => called[k].1)
  }

  /** The delivery was begun by the i-th operation: everyone concerned then is called once, in order, and the
      responses are those of the handlers called so far. */
  ghost predicate BegunAt(ops: seq<Op>, i: nat, d: Delivery) {
    && i < |ops|
    && ((ops[i].Pub? && d.m == ops[i].m && ops[i].now - d.m.timestamp <= 60.0
         && Subscribers(d.called) + d.rest == Recipients(ops[..i], d.m.target))
        || (ops[i].Req? && d.m == ops[i].m && Subscribers(d.called) + d.rest == FirstOf(ops[..i], ops[i].target)))
    && d.responses == Responses(Outcomes(d.called))
  }

  ghost function FirstOf(ops: seq<Op>, target: string): seq<Subscription> {
    var direct := Active(ops, target, |ops|);
    var subs := if direct == [] then Active(ops, "broadcast", |ops|) else direct;
    if subs == [] then [] else [subs[0]]
  }

  /** In every run, whatever happens to the subscriptions while handlers are awaited, each delivery calls exactly
      those who were subscribed when it began, once each and in order, and collects their responses in order. */
  lemma {:induction false} DeliveriesAreExact(ops: seq<Op>, k: nat)
    requires k < |RunBus(ops).deliveries|
    ensures exists i :: BegunAt(ops, i, RunBus(ops).deliveries[k])
  {
    hide BegunAt;
    if |ops| > 0 {
      var n: nat := |ops| - 1;
      var w, op := RunBus(ops[..n]), ops[n];
      if k < |w.deliveries| {
        DeliveriesAreExact(ops[..n], k);
        var i :| BegunAt(ops[..n], i, w.deliveries[k]);
        StillBegun(ops, i, w.deliveries[k]);
        if op.HandlerReturns? && op.k == k && |w.deliveries[k].rest| > 0 {
          AdvanceBegun(ops, i, w.deliveries[k], op.outcome);
          assert BegunAt(ops, i, RunBus(ops).deliveries[k]);
        } else {
          DeliveryKept(w, op, k);
          assert BegunAt(ops, i, RunBus(ops).deliveries[k]);
        }
      } else {
        NewDelivery(ops, k);
      }
    }
  }

  lemma StillBegun(ops: seq<Op>, i: nat, d: Delivery)
    requires |ops| > 0 && BegunAt(ops[..|ops| - 1], i, d)
    ensures BegunAt(ops, i, d)
  {
    hide Recipients, FirstOf, Responses;
    assert ops[..|ops| - 1][..i] == ops[..i];
  }

  lemma AdvanceBegun(ops: seq<Op>, i: nat, d: Delivery, o: Outcome)
    requires BegunAt(ops, i, d) && |d.rest| > 0
    ensures BegunAt(ops, i, Advance(d, o))
  {
    hide Recipients, FirstOf;
    var d' := Advance(d, o);
    assert Subscribers(d'.called) + d'.rest == Subscribers(d.called) + d.rest;
    assert Outcomes(d'.called)[..|d.called|] == Outcomes(d.called);
  }

  lemma DeliveryKept(w: World, op: Op, k: nat)
    requires k < |w.deliveries| && !(op.HandlerReturns? && op.k == k && |w.deliveries[k].rest| > 0)
    ensures k < |WorldNext(w, op).deliveries| && WorldNext(w, op).deliveries[k] == w.deliveries[k]
  {
    hide Route, RouteRequest;
  }

  lemma NewDelivery(ops: seq<Op>, k: nat)
    requires |ops| > 0 && |RunBus(ops[..|ops| - 1]).deliveries| <= k < |RunBus(ops).deliveries|
    ensures BegunAt(ops, |ops| - 1, RunBus(ops).deliveries[k])
  {
    hide RunBus, Recipients, FirstOf, SubscribersOf, Gather, Route, RouteRequest, Append, HandlerDone;
    var n: nat := |ops| - 1;
    var w, op := RunBus(ops[..n]), ops[n];
    assert RunBus(ops) == WorldNext(w, op) by { RunLast(ops); }
    RouteTargets(ops[..n], op);
    assert Outcomes([]) == [] && Subscribers([]) == [];
  }

  lemma RunLast(ops: seq<Op>)
    requires |ops| > 0
    ensures RunBus(ops) == WorldNext(RunBus(ops[..|ops| - 1]), ops[|ops| - 1])
  {
    hide WorldNext;
  }

  lemma RouteTargets(ops: seq<Op>, op: Op)
    ensures var bus := RunBus(ops).bus;
      && (op.Pub? ==> var (b, targets) := Route(bus, op.m, op.now);
            targets == if IsExpired(op.m, op.now) then [] else Recipients(ops, op.m.target))
      && (op.Req? ==> var (b, first) := RouteRequest(bus, op.target, op.m);
            (if first.Some? then [first.value] else []) == FirstOf(ops, op.target))
  {
    if op.Pub? {
      SubscribersAreActive(ops, op.m.target);
      GatherThree(RunBus(ops).bus.handlers, op.m.target);
    } else if op.Req? {
      SubscribersAreActive(ops, op.target);
    }
    SubscribersAreActive(ops, "broadcast");
    SubscribersAreActive(ops, "*");
    hide Active, SubscribersOf, Gather, RunBus;
  }

  /** Whom the last operation of a log begins to deliver its message to. */
  ghost function Begins(ops: seq<Op>): seq<Subscription>
    requires |ops| > 0
  {
    var front, op := ops[..|ops| - 1], ops[|ops| - 1];
    if op.Pub? && op.now - op.m.timestamp <= 60.0 then Recipients(front, op.m.target)
    else if op.Req? then FirstOf(front, op.target)
    else []
  }

  /** In every run an operation that finds someone to deliver its message to begins one delivery, no other does, and a
      handler that returns takes its delivery to the next handler. */
  lemma DeliveryBegins(ops: seq<Op>)
    requires |ops| > 0
    ensures var before, after, op := RunBus(ops[..|ops| - 1]).deliveries, RunBus(ops).deliveries, ops[|ops| - 1];
      if op.HandlerReturns? && op.k < |before| && |before[op.k].rest| > 0
      then var d := before[op.k];
        && |after| == |before| && after[op.k].m == d.m && after[op.k].rest == d.rest[1..]
        && after[op.k].called == d.called + [(d.rest[0], op.outcome)]
        && forall k :: 0 <= k < |before| && k != op.k ==> after[k] == before[k]
      else after == before + if Begins(ops) == [] then [] else [Delivery(op.m, Begins(ops), [], [])]
  {
    var front, op := ops[..|ops| - 1], ops[|ops| - 1];
    RunLast(ops);
    RouteTargets(front, op);
    BeginsOnly(ops);
    hide RunBus, Recipients, FirstOf, Route, RouteRequest, HandlerDone, Responses, AddSubscription, RemoveSubscription, RemoveEverywhere;
    assert RunBus(front).deliveries + [] == RunBus(front).deliveries;
  }

  lemma BeginsOnly(ops: seq<Op>)
    requires |ops| > 0
    ensures Begins(ops) != [] ==> ops[|ops| - 1].Pub? || ops[|ops| - 1].Req?
  {
  }

  // --- counters ----------------------------------------------------------------------------------

  datatype Counter = Published | Dead | Handled

  /** Whether the last operation of a log adds to a counter. */
  ghost predicate Counts(ops: seq<Op>, what: Counter)
    requires |ops| > 0
  {
    var front, op := ops[..|ops| - 1], ops[|ops| - 1];
    match what
    case Published => op.Pub?
    case Dead => Undeliverable(front, op)
    case Handled =>
      && op.HandlerReturns? && op.k < |RunBus(front).deliveries| && |RunBus(front).deliveries[op.k].rest| > 0
      && (op.outcome.Responds? || op.outcome.Silent?)
  }

  /** How often that has happened since the bus was last reset. */
  ghost function Tally(ops: seq<Op>, what: Counter): nat {
    if |ops| == 0 || ops[|ops| - 1].Clear? then 0
    else Tally(ops[..|ops| - 1], what) + (if Counts(ops, what) then 1 else 0)
  }

  /** In every run the counters are the messages published, dead-lettered and handled without failure since the last
      reset. */
  lemma {:induction false} CountersAreTallies(ops: seq<Op>)
    ensures var b := RunBus(ops).bus;
      b.published == Tally(ops, Published) && b.deadCount == Tally(ops, Dead) && b.delivered == Tally(ops, Handled)
  {
    if |ops| > 0 {
      var front, op := ops[..|ops| - 1], ops[|ops| - 1];
      CountersAreTallies(front);
      CounterStep(front, op);
      hide Undeliverable, WorldNext;
    }
  }

  lemma CounterStep(front: seq<Op>, op: Op)
    ensures var b, b' := RunBus(front).bus, WorldNext(RunBus(front), op).bus;
      if op.Clear? then b'.published == b'.deadCount == b'.delivered == 0
      else
        && b'.published == b.published + (if op.Pub? then 1 else 0)
        && b'.deadCount == b.deadCount + (if Undeliverable(front, op) then 1 else 0)
        && b'.delivered == b.delivered
             + (if op.HandlerReturns? && op.k < |RunBus(front).deliveries| && |RunBus(front).deliveries[op.k].rest| > 0
                   && (op.outcome.Responds? || op.outcome.Silent?) then 1 else 0)
  {
    hide RunBus, Append, Undeliverable, Route, RouteRequest, Gather;
    if op.Pub? {
      PublishedCounts(front, op);
    } else if op.Req? {
      RequestedCounts(front, op);
    } else {
      UndeliverableMessage(front, op);
    }
  }

  lemma PublishedCounts(front: seq<Op>, op: Op)
    requires op.Pub?
    ensures var b, b' := RunBus(front).bus, Route(RunBus(front).bus, op.m, op.now).0;
      && b'.published == b.published + 1 && b'.delivered == b.delivered
      && b'.deadCount == b.deadCount + if Undeliverable(front, op) then 1 else 0
  {
    hide NobodyOn, RunBus, Append, SubscribersOf, Gather, TopicsFor;
    NobodySubscribed(front, op.m.target);
    NobodySubscribed(front, "broadcast");
    NobodySubscribed(front, "*");
    GatherThree(RunBus(front).bus.handlers, op.m.target);
  }

  lemma RequestedCounts(front: seq<Op>, op: Op)
    requires op.Req?
    ensures var b, b' := RunBus(front).bus, RouteRequest(RunBus(front).bus, op.target, op.m).0;
      && b'.published == b.published && b'.delivered == b.delivered
      && b'.deadCount == b.deadCount + if Undeliverable(front, op) then 1 else 0
  {
    hide NobodyOn, RunBus, Append, SubscribersOf;
    NobodySubscribed(front, op.target);
    NobodySubscribed(front, "broadcast");
  }

  // --- labels ----------------------------------------------------------------------------------

  /** No subscriber of the topic ever chose a label of the form the bus generates. */
  ghost predicate OwnLabelsApart(ops: seq<Op>, topic: string) {
    forall i, k: nat :: 0 <= i < |ops| && ops[i].Sub? && ops[i].topic == topic ==> ops[i].sid != GeneratedLabel(k)
  }

  /** How many subscriptions of the topic were active when the i-th operation came. */
  ghost function ActiveBefore(ops: seq<Op>, topic: string, i: nat): nat
    requires i <= |ops|
  {
    |Active(ops[..i], topic, i)|
  }

  /** When the bus would next generate a label for the topic, that label is in use exactly if one of the active
      subscriptions without a label of its own was made at a time when as many were active as now. */
  lemma GeneratedLabelTaken(ops: seq<Op>, topic: string)
    requires OwnLabelsApart(ops, topic)
    ensures var h := RunBus(ops).bus.handlers;
      LabelLive(h, topic, LabelFor(h, topic, "")) <==>
        exists i: nat :: ActiveAt(ops, topic, i) && ops[i].sid == "" && ActiveBefore(ops, topic, i) == |Active(ops, topic, |ops|)|
  {
    hide ActiveAt, GeneratedLabel, RunBus, OwnLabelsApart;
    var h := RunBus(ops).bus.handlers;
    var n := |Active(ops, topic, |ops|)|;
    SubscribersAreActive(ops, topic);
    ActiveContents(ops, topic, |ops|);
    forall i: nat | ActiveAt(ops, topic, i)
      ensures i < |ops| && ops[i].Sub? && SubAt(ops, i) in SubscribersOf(h, topic)
      ensures SubAt(ops, i).sid == GeneratedLabel(n) <==> ops[i].sid == "" && ActiveBefore(ops, topic, i) == n
    {
      ActiveInRange(ops, topic, i);
      LabelMade(ops, topic, i, n);
    }
  }

  /** The label of a subscription tells how many were active when it was made. */
  lemma LabelMade(ops: seq<Op>, topic: string, i: nat, n: nat)
    requires OwnLabelsApart(ops, topic) && i < |ops| && ops[i].Sub? && ops[i].topic == topic
    ensures SubAt(ops, i).sid == GeneratedLabel(n) <==> ops[i].sid == "" && ActiveBefore(ops, topic, i) == n
  {
    hide Active, RunBus, GeneratedLabel, SubscribersOf;
    SubscribersAreActive(ops[..i], topic);
    GeneratedLabelsDiffer(ActiveBefore(ops, topic, i), n);
  }

  lemma {:induction false} ActiveContents(ops: seq<Op>, topic: string, n: nat)
    requires n <= |ops|
    ensures forall i: nat :: ActiveAt(ops, topic, i) && i < n ==> ops[i].Sub? && SubAt(ops, i) in Active(ops, topic, n)
    ensures forall s :: s in Active(ops, topic, n) ==>
      exists i: nat :: ActiveAt(ops, topic, i) && i < n && ops[i].Sub? && s == SubAt(ops, i)
  {
    hide ActiveAt, SubAt;
    if n > 0 {
      ActiveContents(ops, topic, n - 1);
      if ActiveAt(ops, topic, n - 1) { ActiveInRange(ops, topic, n - 1); }
      forall i: nat | ActiveAt(ops, topic, i) && i < n ensures ops[i].Sub? && SubAt(ops, i) in Active(ops, topic, n) {
        ActiveInRange(ops, topic, i);
      }
    }
  }

  /** The operation takes no subscription away from the topic. */
  ghost predicate Keeps(ops: seq<Op>, topic: string, j: nat)
    requires j < |ops|
  {
    Left(Active(ops[..j], topic, j), ops[j], topic) == Active(ops[..j], topic, j)
  }

  /** While nothing is taken away from a topic, a generated label differs from that of every earlier subscription. */
  lemma GeneratedLabelsDistinct(ops: seq<Op>, topic: string, i: nat, j: nat)
    requires OwnLabelsApart(ops, topic) && i < j < |ops| && (forall k :: i <= k < j ==> Keeps(ops, topic, k))
    requires ops[i].Sub? && ops[i].topic == topic && ops[j].Sub? && ops[j].topic == topic && ops[j].sid == ""
    ensures SubAt(ops, i).sid != SubAt(ops, j).sid
  {
    hide ActiveAt, SubAt, Left, Active;
    ActiveGrows(ops, topic, i, i + 1);
    ActiveGrows(ops, topic, i + 1, j);
    LabelMade(ops, topic, j, ActiveBefore(ops, topic, j));
    LabelMade(ops, topic, i, ActiveBefore(ops, topic, j));
  }

  lemma {:induction false} ActiveGrows(ops: seq<Op>, topic: string, i: nat, j: nat)
    requires i <= j <= |ops| && forall k :: i <= k < j ==> Keeps(ops, topic, k)
    ensures ActiveBefore(ops, topic, i) <= ActiveBefore(ops, topic, j)
    ensures i < j && ops[i].Sub? && ops[i].topic == topic ==> ActiveBefore(ops, topic, i) < ActiveBefore(ops, topic, j)
  {
    if i < j {
      ActiveGrows(ops, topic, i, j - 1);
      hide Active, Left, ActiveAt;
      var front, last: nat := ops[..j], j - 1;
      assert |front| == j && front[..last] == ops[..last] && front[last] == ops[last];
      OneMore(front, topic);
      assert Keeps(ops, topic, last);
    }
  }

  lemma OneMore(ops: seq<Op>, topic: string)
    requires |ops| > 0
    ensures var n := |ops| - 1;
      |Active(ops, topic, n + 1)| == |Left(Active(ops[..n], topic, n), ops[n], topic)|
                                     + (if ops[n].Sub? && ops[n].topic == topic then 1 else 0)
  {
    hide ActiveAt, Left;
    ActiveLeft(ops, topic, |ops| - 1);
    LastActive(ops, topic);
  }

  /** A label made up for a subscription that has none may already be in use: after two such subscriptions and the
      removal of the first, the third gets the label of the second, and unsubscribing it removes both. */
  lemma GeneratedLabelClash(t: string, a: Handler, b: Handler, c: Handler)
    ensures Active([Sub(t, a, ""), Sub(t, b, ""), Unsub(t, "sub_0"), Sub(t, c, "")], t, 4)
         == [Subscription("sub_1", b), Subscription("sub_1", c)]
  {
    var ops := [Sub(t, a, ""), Sub(t, b, ""), Unsub(t, "sub_0"), Sub(t, c, "")];
    SubscribersAreActive(ops, t);
    hide Active, RunBus, Without, Decimal, RemoveEverywhere, Route, RouteRequest, HandlerDone;
    assert ops[..4] == ops && ops[..3][..2] == ops[..2] && ops[..2][..1] == ops[..1] && ops[..1][..0] == [];
    RunLast(ops[..1]);
    RunLast(ops[..2]);
    RunLast(ops[..3]);
    RunLast(ops);
    var first, second := Subscription("sub_0", a), Subscription("sub_1", b);
    SmallLabels();
    assert RunBus([]).bus.handlers == map[] by { EmptyRun(); }
    assert SubscribersOf(RunBus(ops[..1]).bus.handlers, t) == [first];
    assert SubscribersOf(RunBus(ops[..2]).bus.handlers, t) == [first, second];
    WithoutFirst(first, second);
    assert SubscribersOf(RunBus(ops[..3]).bus.handlers, t) == [second];
  }

  lemma SmallLabels()
    ensures "sub_" + Decimal(0) == "sub_0" && "sub_" + Decimal(1) == "sub_1"
    ensures "sub_0" != "sub_1" && "sub_0" != ""
  {
    assert "sub_0"[4] != "sub_1"[4];
  }

  lemma WithoutFirst(a: Subscription, b: Subscription)
    requires a.sid != b.sid
    ensures Without([a, b], a.sid) == [b]
  {
    assert [a] + [b] == [a, b] && [a][..0] == [] && [b][..0] == [];
    WithoutConcat([a], [b], a.sid);
    assert Without([a], a.sid) == [] && Without([b], a.sid) == [b];
  }

  lemma EmptyRun()
    ensures RunBus([]) == World(Bus(map[], [], 0, 0, 0), [])
  {
  }
}
