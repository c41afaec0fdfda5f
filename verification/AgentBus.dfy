/** The publish/subscribe bus between the agents of one node. */
module AgentBus {
  import opened Common

  const DLQ_MAX: nat := 256
  const MESSAGE_MAX_AGE: real := 60.0

  /** A handler stands for the coroutine a subscriber registered. */
  type Handler = nat

  datatype Subscription = Subscription(sid: string, handler: Handler)

  datatype AgentMessage = AgentMessage(messageId: string, target: string, task: string, timestamp: real)

  datatype AgentResponse = AgentResponse(requestId: string, agent: string, data: string, error: string)

  /** What awaiting a handler gives: a response, None, an exception, or a timeout (in request only). */
  datatype Outcome = Responds(response: AgentResponse) | Silent | Raises | TimesOut

  type Handlers = map<string, seq<Subscription>>

  datatype Bus = Bus(handlers: Handlers, deadLetters: seq<AgentMessage>, published: nat, delivered: nat, deadCount: nat)

  predicate IsExpired(m: AgentMessage, now: real) {
    now - m.timestamp > MESSAGE_MAX_AGE
  }

  function SubscribersOf(h: Handlers, topic: string): seq<Subscription> {
    if topic in h then h[topic] else []
  }

  function Decimal(n: nat): string {
    (if n < 10 then "" else Decimal(n / 10)) + ["0123456789"[n % 10]]
  }

  function GeneratedLabel(n: nat): string {
    "sub_" + Decimal(n)
  }

  /** The label given to a subscription that comes without one. */
  function LabelFor(h: Handlers, topic: string, sid: string): string {
    if sid != "" then sid else GeneratedLabel(|SubscribersOf(h, topic)|)
  }

  function Without(subs: seq<Subscription>, sid: string): seq<Subscription> {
    if |subs| == 0 then []
    else Without(subs[..|subs| - 1], sid) + (if subs[|subs| - 1].sid == sid then [] else [subs[|subs| - 1]])
  }

  function TopicsFor(target: string): seq<string> {
    [target] + (if target != "broadcast" then ["broadcast"] else []) + (if target != "*" then ["*"] else [])
  }

  function Gather(h: Handlers, topics: seq<string>): seq<Subscription> {
    if |topics| == 0 then [] else Gather(h, topics[..|topics| - 1]) + SubscribersOf(h, topics[|topics| - 1])
  }

  /** append on a deque with a maximum length. */
  function Append<T>(q: seq<T>, x: T): seq<T> {
    if |q| < DLQ_MAX then q + [x] else q[1..] + [x]
  }

  function AddSubscription(b: Bus, topic: string, handler: Handler, sid: string): Bus {
    b.(handlers := b.handlers[topic := SubscribersOf(b.handlers, topic)
                                       + [Subscription(LabelFor(b.handlers, topic, sid), handler)]])
  }

  function RemoveSubscription(b: Bus, topic: string, sid: string): Bus {
    b.(handlers := b.handlers[topic := Without(SubscribersOf(b.handlers, topic), sid)])
  }

  function RemoveEverywhere(b: Bus, sid: string): Bus {
    b.(handlers := map t | t in b.handlers :: Without(b.handlers[t], sid))
  }

  function DeadLetter(b: Bus, m: AgentMessage): Bus {
    b.(deadLetters := Append(b.deadLetters, m), deadCount := b.deadCount + 1)
  }

  /** publish before its first handler: who will be called. */
  function Route(b: Bus, m: AgentMessage, now: real): (Bus, seq<Subscription>) {
    var b1 := b.(published := b.published + 1);
    if IsExpired(m, now) then (b1, [])
    else
      var all := Gather(b.handlers, TopicsFor(m.target));
      if |all| == 0 then (DeadLetter(b1, m), []) else (b1, all)
  }

  /** request before its handler: the first subscriber of the target, or else of "broadcast". */
  function RouteRequest(b: Bus, target: string, m: AgentMessage): (Bus, Option<Subscription>) {
    var direct := SubscribersOf(b.handlers, target);
    var subs := if |direct| == 0 then SubscribersOf(b.handlers, "broadcast") else direct;
    if |subs| == 0 then (DeadLetter(b, m), None) else (b, Some(subs[0]))
  }

  predicate Delivers(o: Outcome) {
    o.Responds? || o.Silent?
  }

  function HandlerDone(b: Bus, o: Outcome): Bus {
    if Delivers(o) then b.(delivered := b.delivered + 1) else b
  }

  /** The responses among the outcomes, in order. */
  function Responses(outcomes: seq<Outcome>): seq<AgentResponse> {
    if |outcomes| == 0 then []
    else Responses(outcomes[..|outcomes| - 1])
         + (if outcomes[|outcomes| - 1].Responds? then [outcomes[|outcomes| - 1].response] else [])
  }

  /** Which of the first n handlers did not fail. */
  function Delivered(outcome: nat -> Outcome, n: nat): set<nat> {
    set k: nat | k < n && (outcome(k).Responds? || outcome(k).Silent?)
  }

  function FirstOutcomes(outcome: nat -> Outcome, n: nat): seq<Outcome> {
    seq(n, k requires 0 <= k < n => outcome(k))
  }

  lemma NoOutcomes(outcome: nat -> Outcome)
    ensures Delivered(outcome, 0) == {} && Responses(FirstOutcomes(outcome, 0)) == []
  {
  }

  lemma OneMoreOutcome(outcome: nat -> Outcome, k: nat)
    ensures |Delivered(outcome, k + 1)| == |Delivered(outcome, k)| + (if Delivers(outcome(k)) then 1 else 0)
    ensures Responses(FirstOutcomes(outcome, k + 1))
      == Responses(FirstOutcomes(outcome, k)) + (if outcome(k).Responds? then [outcome(k).response] else [])
  {
    assert FirstOutcomes(outcome, k + 1)[..k] == FirstOutcomes(outcome, k);
    assert Delivered(outcome, k + 1) == Delivered(outcome, k) + (if Delivers(outcome(k)) then {k} else {});
  }

  // --- the class ---------------------------------------------------------------------------

  class EventBus {
    var handlers: Handlers
    var deadLetters: seq<AgentMessage>
    var published: nat
    var delivered: nat
    var deadCount: nat

    constructor ()
      ensures View() == Bus(map[], [], 0, 0, 0)
    {
      handlers, deadLetters, published, delivered, deadCount := map[], [], 0, 0, 0;
    }

    ghost function View(): Bus
      reads this
    {
      Bus(handlers, deadLetters, published, delivered, deadCount)
    }

    method Subscribe(topic: string, handler: Handler, sid: string)
      modifies this`handlers
      ensures View() == AddSubscription(old(View()), topic, handler, sid)
    {
      var name := LabelFor(handlers, topic, sid);
      handlers := handlers[topic := SubscribersOf(handlers, topic) + [Subscription(name, handler)]];
    }

    /** The list comprehension that keeps the subscriptions with another label. */
    method Filtered(subs: seq<Subscription>, sid: string) returns (kept: seq<Subscription>)
      ensures kept == Without(subs, sid)
    {
      kept := [];
      for i := 0 to |subs|
        invariant kept == Without(subs[..i], sid)
      {
        assert subs[..i + 1][..i] == subs[..i];
        if subs[i].sid != sid { kept := kept + [subs[i]]; }
      }
      assert subs[..|subs|] == subs;
    }

    method Unsubscribe(topic: string, sid: string) returns (removed: bool)
      modifies this`handlers
      ensures View() == RemoveSubscription(old(View()), topic, sid)
      ensures removed <==> exists s :: s in SubscribersOf(old(handlers), topic) && s.sid == sid
    {
      var subs := SubscribersOf(handlers, topic);
      var kept := Filtered(subs, sid);
      handlers := handlers[topic := kept];
      removed := |kept| < |subs|;
      WithoutExact(subs, sid);
    }

    method UnsubscribeAll(sid: string) returns (count: nat)
      modifies this`handlers
      ensures View() == RemoveEverywhere(old(View()), sid)
      ensures count == |Labelled(old(handlers), old(handlers).Keys, sid)|
    {
      hide Without, Labelled;
      ghost var h := handlers;
      count := 0;
      var rest := handlers.Keys;
      assert h.Keys - rest == {} && |Labelled(h, {}, sid)| == 0 by { NothingLabelled(h, sid); }
      while rest != {}
        invariant rest <= handlers.Keys == h.Keys
        invariant forall t :: t in handlers ==> handlers[t] == if t in rest then h[t] else Without(h[t], sid)
        invariant count == |Labelled(h, h.Keys - rest, sid)|
        decreases rest
      {
        var topic :| topic in rest;
        ghost var done := h.Keys - rest;
        rest := rest - {topic};
        assert done + {topic} == h.Keys - rest;
        var kept := Filtered(handlers[topic], sid);
        LabelledGrows(h, done, topic, sid);
        WithoutExact(h[topic], sid);
        count := count + (|handlers[topic]| - |kept|);
        handlers := handlers[topic := kept];
      }
      assert h.Keys - rest == h.Keys;
    }

    /** The subscriptions of all topics a target stands for. */
    method Collect(target: string) returns (all: seq<Subscription>)
      ensures all == Gather(handlers, TopicsFor(target))
    {
      var topics := TopicsFor(target);
      all := [];
      for i := 0 to |topics|
        invariant all == Gather(handlers, topics[..i])
      {
        assert topics[..i + 1][..i] == topics[..i];
        all := all + SubscribersOf(handlers, topics[i]);
      }
      assert topics[..|topics|] == topics;
    }

    /** The loop that awaits one handler after the other. */
    method CallAll(all: seq<Subscription>, outcome: nat -> Outcome)
      returns (responses: seq<AgentResponse>, ghost called: seq<Subscription>)
      modifies this`delivered
      ensures called == all
      ensures responses == Responses(FirstOutcomes(outcome, |all|))
      ensures delivered == old(delivered) + |Delivered(outcome, |all|)|
    {
      hide Responses, FirstOutcomes, Delivered;
      NoOutcomes(outcome);
      called, responses := [], [];
      for k := 0 to |all|
        invariant called == all[..k]
        invariant responses == Responses(FirstOutcomes(outcome, k))
        invariant delivered == old(delivered) + |Delivered(outcome, k)|
      {
        OneMoreOutcome(outcome, k);
        called := called + [all[k]];
        var result := outcome(k);
        if Delivers(result) { delivered := delivered + 1; }
        if result.Responds? { responses := responses + [result.response]; }
      }
    }

    /** publish, where outcome(k) is what the k-th awaited handler gives. */
    method Publish(m: AgentMessage, now: real, outcome: nat -> Outcome)
      returns (responses: seq<AgentResponse>, ghost called: seq<Subscription>)
      modifies this
      ensures called == Route(old(View()), m, now).1
      ensures responses == Responses(FirstOutcomes(outcome, |called|))
      ensures var b := Route(old(View()), m, now).0;
        View() == b.(delivered := b.delivered + |Delivered(outcome, |called|)|)
    {
      called, responses := [], [];
      published := published + 1;
      if IsExpired(m, now) {
        return;
      }
      var all := Collect(m.target);
      if |all| == 0 {
        deadLetters := Append(deadLetters, m);
        deadCount := deadCount + 1;
        return;
      }
      responses, called := CallAll(all, outcome);
    }

    /** request, where outcome is what its handler gives; None stands for an exception the caller sees. */
    method Request(target: string, m: AgentMessage, outcome: Outcome)
      returns (result: Outcome, ghost called: Option<Subscription>)
      modifies this
      ensures called == RouteRequest(old(View()), target, m).1
      ensures View() == if called.None? then RouteRequest(old(View()), target, m).0 else HandlerDone(old(View()), outcome)
      ensures result == if called.None? || outcome.Raises? then Silent else outcome
    {
      called := None;
      var subs := SubscribersOf(handlers, target);
      if |subs| == 0 { subs := SubscribersOf(handlers, "broadcast"); }
      if |subs| == 0 {
        deadLetters := Append(deadLetters, m);
        deadCount := deadCount + 1;
        return Silent, None;
      }
      called := Some(subs[0]);
      if Delivers(outcome) { delivered := delivered + 1; }
      result := if outcome.Raises? then Silent else outcome;
    }

    method DrainDeadLetters() returns (msgs: seq<AgentMessage>)
      modifies this`deadLetters
      ensures msgs == old(deadLetters) && deadLetters == []
    {
      msgs := deadLetters;
      deadLetters := [];
    }

    method Reset()
      modifies this
      ensures View() == Bus(map[], [], 0, 0, 0)
    {
      handlers, deadLetters, published, delivered, deadCount := map[], [], 0, 0, 0;
    }
  }

  // --- routing -----------------------------------------------------------------------------

  predicate NoneWith(subs: seq<Subscription>, sid: string) {
    forall s :: s in subs ==> s.sid != sid
  }

  /** Unsubscribing removes every subscription with the label and no other. */
  lemma {:induction false} WithoutExact(subs: seq<Subscription>, sid: string)
    ensures forall s :: s in Without(subs, sid) <==> s in subs && s.sid != sid
    ensures |Without(subs, sid)| <= |subs|
    ensures |Without(subs, sid)| == |subs| <==> NoneWith(subs, sid)
    ensures forall s: Subscription :: s.sid != sid ==> multiset(Without(subs, sid))[s] == multiset(subs)[s]
  {
    if |subs| > 0 {
      var front, last := subs[..|subs| - 1], subs[|subs| - 1];
      assert subs == front + [last];
      WithoutExact(front, sid);
    }
  }

  /** The places in a list, and in the lists of some topics, that hold a subscription with the label. */
  ghost function Places(subs: seq<Subscription>, sid: string): set<nat> {
    set i: nat | i < |subs| && subs[i].sid == sid
  }

  ghost function Labelled(h: Handlers, topics: set<string>, sid: string): set<(string, nat)> {
    set t, i: nat | t in topics && t in h && i < |h[t]| && h[t][i].sid == sid :: (t, i)
  }

  lemma {:induction false} PlacesRemoved(subs: seq<Subscription>, sid: string)
    ensures |Without(subs, sid)| + |Places(subs, sid)| == |subs|
  {
    if |subs| == 0 {
      assert Places(subs, sid) == {};
    } else {
      var n: nat := |subs| - 1;
      PlacesRemoved(subs[..n], sid);
      assert Places(subs, sid) == Places(subs[..n], sid) + (if subs[n].sid == sid then {n} else {});
    }
  }

  ghost function Tagged(t: string, places: set<nat>): set<(string, nat)> {
    set i: nat | i in places :: (t, i)
  }

  lemma {:induction false} TaggedSize(t: string, places: set<nat>)
    ensures |Tagged(t, places)| == |places|
  {
    if places != {} {
      var i :| i in places;
      TaggedSize(t, places - {i});
      assert Tagged(t, places) == Tagged(t, places - {i}) + {(t, i)};
    }
  }

  lemma NothingLabelled(h: Handlers, sid: string)
    ensures Labelled(h, {}, sid) == {}
  {
  }

  lemma LabelledGrows(h: Handlers, topics: set<string>, t: string, sid: string)
    requires t in h && t !in topics
    ensures |Labelled(h, topics + {t}, sid)| == |Labelled(h, topics, sid)| + |h[t]| - |Without(h[t], sid)|
  {
    assert Labelled(h, topics + {t}, sid) == Labelled(h, topics, sid) + Tagged(t, Places(h[t], sid));
    TaggedSize(t, Places(h[t], sid));
    PlacesRemoved(h[t], sid);
  }

  /** Every subscription of the target, of "broadcast" and of "*" is called as often as it is registered, also when
      the target is itself one of the two. */
  lemma RecipientsOnce(h: Handlers, target: string, s: Subscription)
    ensures multiset(Gather(h, TopicsFor(target)))[s]
         == multiset(SubscribersOf(h, target))[s]
            + (if target == "broadcast" then 0 else multiset(SubscribersOf(h, "broadcast"))[s])
            + (if target == "*" then 0 else multiset(SubscribersOf(h, "*"))[s])
  {
    GatherThree(h, target);
    hide Gather;
  }

  lemma GatherThree(h: Handlers, target: string)
    ensures Gather(h, TopicsFor(target)) == SubscribersOf(h, target)
         + (if target == "broadcast" then [] else SubscribersOf(h, "broadcast"))
         + (if target == "*" then [] else SubscribersOf(h, "*"))
  {
    var topics := TopicsFor(target);
    var n := |topics|;
    assert topics[..1] == [target] && topics[..n] == topics;
    assert topics[..1][..0] == [];
    assert Gather(h, topics[..1]) == SubscribersOf(h, target);
    assert topics[..2][..1] == topics[..1];
    if n == 3 { assert topics[..3][..2] == topics[..2]; }
  }

  // --- generated labels ------------------------------------------------------------------------

  lemma DigitsDistinct(i: nat, j: nat)
    requires i < 10 && j < 10 && "0123456789"[i] == "0123456789"[j]
    ensures i == j
  {
    assert forall k :: 0 <= k < 10 ==> "0123456789"[k] as int == '0' as int + k;
  }

  lemma {:induction false} DecimalInjective(a: nat, b: nat)
    requires Decimal(a) == Decimal(b)
    ensures a == b
    decreases a
  {
    var n := |Decimal(a)| - 1;
    assert Decimal(a)[n] == "0123456789"[a % 10] && Decimal(b)[n] == "0123456789"[b % 10];
    DigitsDistinct(a % 10, b % 10);
    if a >= 10 && b >= 10 {
      assert Decimal(a / 10) == Decimal(a)[..n] == Decimal(b)[..n] == Decimal(b / 10);
      DecimalInjective(a / 10, b / 10);
    } else {
      DecimalLength(a);
      DecimalLength(b);
    }
  }

  lemma DecimalLength(n: nat)
    ensures |Decimal(n)| >= 1 && (|Decimal(n)| == 1 <==> n < 10)
  {
    if n >= 10 { assert |Decimal(n / 10)| >= 1; }
  }

  lemma GeneratedLabelsDiffer(a: nat, b: nat)
    ensures GeneratedLabel(a) != "" && (GeneratedLabel(a) == GeneratedLabel(b) <==> a == b)
  {
    if GeneratedLabel(a) == GeneratedLabel(b) {
      assert Decimal(a) == GeneratedLabel(a)[4..] == GeneratedLabel(b)[4..] == Decimal(b);
      DecimalInjective(a, b);
    }
  }

  /** All subscriptions came without a label, one after the other. */
  ghost predicate Numbered(subs: seq<Subscription>) {
    forall k :: 0 <= k < |subs| ==> subs[k].sid == GeneratedLabel(k)
  }

  predicate LabelLive(h: Handlers, topic: string, name: string) {
    exists s :: s in SubscribersOf(h, topic) && s.sid == name
  }

  /** After one of n numbered subscriptions was removed, the next generated label is already in use exactly if the
      removed one was not the last. */
  lemma LabelAfterRemoval(b: Bus, topic: string, i: nat)
    requires Numbered(SubscribersOf(b.handlers, topic)) && i < |SubscribersOf(b.handlers, topic)|
    ensures var h := RemoveSubscription(b, topic, GeneratedLabel(i)).handlers;
      LabelLive(h, topic, LabelFor(h, topic, "")) <==> i < |SubscribersOf(b.handlers, topic)| - 1
  {
    hide Without, GeneratedLabel, Places;
    var subs := SubscribersOf(b.handlers, topic);
    var n := |subs|;
    WithoutExact(subs, GeneratedLabel(i));
    PlacesRemoved(subs, GeneratedLabel(i));
    OnePlace(subs, i);
    GeneratedLabelsDiffer(i, n - 1);
    assert subs[n - 1] in subs;
  }

  lemma OnePlace(subs: seq<Subscription>, i: nat)
    requires Numbered(subs) && i < |subs|
    ensures |Places(subs, GeneratedLabel(i))| == 1
  {
    hide GeneratedLabel;
    forall k: nat | k < |subs| ensures subs[k].sid == GeneratedLabel(i) <==> k == i { GeneratedLabelsDiffer(k, i); }
    assert Places(subs, GeneratedLabel(i)) == {i};
  }
}
