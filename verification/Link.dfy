/** Both directions of a connection over a network that may bring any bytes to either end. */
module Link {
  import opened Common
  import opened Transport

  datatype Side = A | B

  function Other(side: Side): Side {
    if side == A then B else A
  }

  /** One end. sealed, accepted, received and bodies, those of the messages received, record history that the code does
      not keep. */
  datatype End = End(
    session: SessionState, closed: bool, inbound: bytes,
    sealed: seq<bytes>, accepted: seq<bytes>, received: seq<bytes>, bodies: seq<bytes>)

  datatype LinkState = LinkState(a: End, b: End)

  function At(l: LinkState, side: Side): End {
    if side == A then l.a else l.b
  }

  function Set(l: LinkState, side: Side, e: End): LinkState {
    if side == A then l.(a := e) else l.(b := e)
  }

  function NewEnd(key: bytes): End {
    End(SessionState(key, 0, 0, 0, 0), false, [], [], [], [], [])
  }

  /** PeerConnection.send: ioFails says that draining the writer raised after the frame was written. */
  function SendAt(aead: Aead, e: End, data: bytes, ioFails: bool): End {
    if e.closed then e
    else
      var (s', frame) := SendFrame(aead, e.session, data);
      if frame.Err? then e.(session := s')
      else
        e.(session := s', closed := ioFails, sealed := e.sealed + [data],
           accepted := if ioFails then e.accepted else e.accepted + [data])
  }

  /** The encrypted body that recv_frame takes off the stream, if a whole frame in bounds is there. */
  function NextBody(stream: bytes): Option<bytes> {
    if |stream| < FRAME_HEADER_SIZE then None
    else
      var length, rest := LengthAt(stream), stream[FRAME_HEADER_SIZE..];
      if length > MAX_FRAME_BODY || |rest| < length then None else Some(rest[..length])
  }

  /** PeerConnection.recv; a read that finds too few bytes stands for the end of the stream. */
  function RecvAt(aead: Aead, e: End): End {
    if e.closed then e
    else
      var r, body := RecvFrame(aead, e.session, e.inbound), NextBody(e.inbound);
      e.(session := r.session, inbound := r.rest, closed := r.result.Err?,
         received := if r.result.Ok? then e.received + [r.result.value] else e.received,
         bodies := if r.result.Ok? && body.Some? then e.bodies + [body.value] else e.bodies)
  }

  /** Any bytes may arrive at an end: frames of either end, whole or in part, any number of times and in any order, and
      whatever else the network makes up. */
  datatype Step =
    | SendStep(side: Side, data: bytes, ioFails: bool) | RecvStep(side: Side) | CloseStep(side: Side)
    | ArriveStep(side: Side, stream: bytes)

  function Next(aead: Aead, l: LinkState, step: Step): LinkState {
    var e := At(l, step.side);
    match step
    case SendStep(side, data, ioFails) => Set(l, side, SendAt(aead, e, data, ioFails))
    case RecvStep(side) => Set(l, side, RecvAt(aead, e))
    case CloseStep(side) => Set(l, side, e.(closed := true))
    case ArriveStep(side, stream) => Set(l, side, e.(inbound := e.inbound + stream))
  }

  /** The body passes authentication under the key. */
  predicate Opens(aead: Aead, key: bytes, body: bytes) {
    |body| >= NONCE_SIZE + GCM_TAG_SIZE && aead.open(key, body[..NONCE_SIZE], body[NONCE_SIZE..]).Some?
  }

  ghost predicate IsSealed(aead: Aead, key: bytes, sealed: seq<bytes>, body: bytes, i: int) {
    0 <= i < |sealed| && i < NONCE_LIMIT && body == Sealed(aead, key, i, sealed[i])
  }

  ghost predicate SealedBy(aead: Aead, e: End, body: bytes) {
    exists i :: IsSealed(aead, e.session.key, e.sealed, body, i)
  }

  /** No forgery: a body that an end is about to read and that opens was sealed by one of the two ends. */
  ghost predicate Unforged(aead: Aead, l: LinkState, step: Step) {
    var e := At(l, step.side);
    step.RecvStep? && !e.closed && NextBody(e.inbound).Some? && Opens(aead, e.session.key, NextBody(e.inbound).value) ==>
      SealedBy(aead, l.a, NextBody(e.inbound).value) || SealedBy(aead, l.b, NextBody(e.inbound).value)
  }

  /** A run: states and the steps between them, from two fresh sessions with one key. */
  ghost predicate Run(aead: Aead, key: bytes, states: seq<LinkState>, steps: seq<Step>) {
    && |states| == |steps| + 1 && states[0] == LinkState(NewEnd(key), NewEnd(key))
    && forall i :: 0 <= i < |steps| ==> Unforged(aead, states[i], steps[i]) && states[i + 1] == Next(aead, states[i], steps[i])
  }

  // --- the invariant -----------------------------------------------------------------

  ghost predicate SenderInv(e: End) {
    && |e.sealed| == e.session.sendNonce <= NONCE_LIMIT
    && (forall i :: 0 <= i < |e.sealed| ==> |e.sealed[i]| <= MAX_MESSAGE_SIZE)
  }

  /** The i-th message received is the i-th one that e sealed, and came in the frame e sealed it in. */
  ghost predicate CameFrom(aead: Aead, receiver: End, e: End, i: nat)
    requires i < |receiver.received| && |receiver.bodies| == |receiver.received|
  {
    IsSealed(aead, e.session.key, e.sealed, receiver.bodies[i], i) && receiver.received[i] == e.sealed[i]
  }

  ghost predicate ReceiverInv(aead: Aead, e: End, peer: End) {
    && |e.bodies| == |e.received|
    && (forall i: nat :: i < |e.received| ==> CameFrom(aead, e, peer, i) || CameFrom(aead, e, e, i))
    && (!e.closed ==> e.session.recvNonce == |e.received|)
  }

  ghost predicate Inv(aead: Aead, l: LinkState) {
    && Correct(aead) && l.a.session.key == l.b.session.key
    && SenderInv(l.a) && SenderInv(l.b) && ReceiverInv(aead, l.a, l.b) && ReceiverInv(aead, l.b, l.a)
  }

  /** e' is e with possibly more sealed messages. */
  ghost predicate Extends(e: End, e': End) {
    e'.session.key == e.session.key && e.sealed <= e'.sealed
  }

  /** What an end has received stays explained when more is sealed. */
  lemma ReceiverStays(aead: Aead, e: End, peer: End, e': End, peer': End)
    requires ReceiverInv(aead, e, peer) && Extends(e, e') && Extends(peer, peer')
    requires e'.received == e.received && e'.bodies == e.bodies
    requires !e'.closed ==> !e.closed && e'.session.recvNonce == e.session.recvNonce
    ensures ReceiverInv(aead, e', peer')
  {
    hide Sealed;
    forall i: nat | i < |e'.received| ensures CameFrom(aead, e', peer', i) || CameFrom(aead, e', e', i) {
      assert CameFrom(aead, e, peer, i) || CameFrom(aead, e, e, i);
    }
  }

  lemma SendKeepsEnd(aead: Aead, e: End, data: bytes, ioFails: bool)
    requires Correct(aead) && SenderInv(e)
    ensures var e' := SendAt(aead, e, data, ioFails);
      && SenderInv(e') && Extends(e, e') && e'.received == e.received && e'.bodies == e.bodies
      && (!e'.closed ==> !e.closed && e'.session.recvNonce == e.session.recvNonce)
  {
    if !e.closed && SendFrame(aead, e.session, data).1.Ok? { SentFrameFits(aead, e.session, data); }
  }

  /** Reading a body sealed by an end either fails or gives that end's message with the expected number. */
  lemma ReadSealed(aead: Aead, s: SessionState, e: End, body: bytes)
    requires Correct(aead) && e.session.key == s.key && SealedBy(aead, e, body) && Decrypt(aead, s, body).1.Ok?
    ensures IsSealed(aead, s.key, e.sealed, body, s.recvNonce)
    ensures Decrypt(aead, s, body).1.value == e.sealed[s.recvNonce]
  {
    var i :| IsSealed(aead, e.session.key, e.sealed, body, i);
    if s.recvNonce < NONCE_LIMIT { DecryptSealed(aead, s, i, e.sealed[i]); }
  }

  /** A read that succeeds decrypts the next body, which then opens. */
  lemma ReadIsDecrypt(aead: Aead, s: SessionState, stream: bytes)
    ensures var r, body := RecvFrame(aead, s, stream), NextBody(stream);
      && r.session.key == s.key && r.session.sendNonce == s.sendNonce
      && (r.result.Ok? ==>
            && body.Some? && Opens(aead, s.key, body.value) && r.result == Decrypt(aead, s, body.value).1
            && r.session.recvNonce == s.recvNonce + 1)
  {
  }

  lemma RecvKeepsEnd(aead: Aead, l: LinkState, side: Side)
    requires Inv(aead, l) && Unforged(aead, l, RecvStep(side))
    ensures var e, peer, e' := At(l, side), At(l, Other(side)), RecvAt(aead, At(l, side));
      SenderInv(e') && Extends(e, e') && ReceiverInv(aead, e', peer)
  {
    var e, peer, e' := At(l, side), At(l, Other(side)), RecvAt(aead, At(l, side));
    ReadIsDecrypt(aead, e.session, e.inbound);
    hide RecvFrame, NextBody, Opens, Decrypt, Sealed, Correct;
    var n := |e.received|;
    if !e.closed && !e'.closed {
      var body := NextBody(e.inbound).value;
      if SealedBy(aead, e, body) { ReadSealed(aead, e.session, e, body); } else { ReadSealed(aead, e.session, peer, body); }
      assert CameFrom(aead, e', peer, n) || CameFrom(aead, e', e', n);
    }
    forall i: nat | i < |e'.received| ensures CameFrom(aead, e', peer, i) || CameFrom(aead, e', e', i) {
      if i < n {
        assert CameFrom(aead, e, peer, i) || CameFrom(aead, e, e, i);
        assert e'.received[i] == e.received[i] && e'.bodies[i] == e.bodies[i];
      }
    }
  }

  lemma NextKeepsInv(aead: Aead, l: LinkState, step: Step)
    requires Inv(aead, l) && Unforged(aead, l, step)
    ensures Inv(aead, Next(aead, l, step))
    ensures Extends(l.a, Next(aead, l, step).a) && Extends(l.b, Next(aead, l, step).b)
  {
    var e, peer, l' := At(l, step.side), At(l, Other(step.side)), Next(aead, l, step);
    var e' := At(l', step.side);
    match step {
      case SendStep(side, data, ioFails) => SendKeepsEnd(aead, e, data, ioFails);
      case RecvStep(side) => RecvKeepsEnd(aead, l, side);
      case _ =>
    }
    hide SendAt, RecvAt, Correct, Unforged, CameFrom;
    if !step.RecvStep? { ReceiverStays(aead, e, peer, e', peer); }
    ReceiverStays(aead, peer, e, peer, e');
  }

  lemma {:induction false} RunKeepsInv(aead: Aead, key: bytes, states: seq<LinkState>, steps: seq<Step>, k: nat)
    requires Correct(aead) && Run(aead, key, states, steps) && k < |states|
    ensures Inv(aead, states[k])
  {
    hide Inv, Next, Correct, Unforged, NewEnd;
    if k > 0 {
      RunKeepsInv(aead, key, states, steps, k - 1);
      NextKeepsInv(aead, states[k - 1], steps[k - 1]);
    } else {
      NewInv(aead, key);
    }
  }

  lemma NewInv(aead: Aead, key: bytes)
    requires Correct(aead)
    ensures Inv(aead, LinkState(NewEnd(key), NewEnd(key)))
  {
  }

  // --- the histories, read off the steps --------------------------------------------------------

  /** A send that gets as far as writing its frame. */
  predicate Writes(l: LinkState, step: Step, side: Side) {
    && step.SendStep? && step.side == side && !At(l, side).closed
    && |step.data| <= MAX_MESSAGE_SIZE && At(l, side).session.sendNonce < NONCE_LIMIT
  }

  datatype Happening = Written | Accepted | Read

  /** What one step adds to the messages an end has written, accepted or read. */
  function Added(aead: Aead, l: LinkState, step: Step, side: Side, what: Happening): seq<bytes> {
    match what
    case Written => if Writes(l, step, side) then [step.data] else []
    case Accepted => if Writes(l, step, side) && !step.ioFails then [step.data] else []
    case Read =>
      if step == RecvStep(side) && !At(l, side).closed
      then
        var r := RecvFrame(aead, At(l, side).session, At(l, side).inbound).result;
        if r.Ok? then [r.value] else []
      else []
  }

  function Log(aead: Aead, states: seq<LinkState>, steps: seq<Step>, k: nat, side: Side, what: Happening): seq<bytes>
    requires k <= |steps| < |states|
  {
    if k == 0 then []
    else Log(aead, states, steps, k - 1, side, what) + Added(aead, states[k - 1], steps[k - 1], side, what)
  }

  function TotalSize(ms: seq<bytes>): nat {
    if |ms| == 0 then 0 else TotalSize(ms[..|ms| - 1]) + |ms[|ms| - 1]|
  }

  lemma TotalOfOneMore(ms: seq<bytes>, more: seq<bytes>)
    requires |more| <= 1
    ensures TotalSize(ms + more) == TotalSize(ms) + if more == [] then 0 else |more[0]|
  {
    if more == [] { assert ms + more == ms; } else { assert (ms + more)[..|ms|] == ms; }
  }

  /** The histories of an end are what the steps of the run say, its send counter is the number of messages written,
      and a send that writes nothing changes nothing. */
  lemma {:induction false} HistoriesAreLogs(aead: Aead, key: bytes, states: seq<LinkState>, steps: seq<Step>, k: nat, side: Side)
    requires Run(aead, key, states, steps) && k < |states|
    ensures At(states[k], side).sealed == Log(aead, states, steps, k, side, Written)
    ensures At(states[k], side).accepted == Log(aead, states, steps, k, side, Accepted)
    ensures At(states[k], side).received == Log(aead, states, steps, k, side, Read)
    ensures At(states[k], side).session.sendNonce == |Log(aead, states, steps, k, side, Written)|
    ensures k > 0 && steps[k - 1].SendStep? ==> (states[k] != states[k - 1] <==> Writes(states[k - 1], steps[k - 1], steps[k - 1].side))
  {
    hide Next, Unforged, Added;
    if k > 0 {
      HistoriesAreLogs(aead, key, states, steps, k - 1, side);
      StepAdds(aead, states[k - 1], steps[k - 1], side);
      if steps[k - 1].SendStep? { SendChanges(aead, states[k - 1], steps[k - 1]); }
    }
  }

  /** Its byte counters are the sizes of the messages written and read. */
  lemma {:induction false} BytesAreSizes(aead: Aead, key: bytes, states: seq<LinkState>, steps: seq<Step>, k: nat, side: Side)
    requires Run(aead, key, states, steps) && k < |states|
    ensures At(states[k], side).session.bytesSent == TotalSize(Log(aead, states, steps, k, side, Written))
    ensures At(states[k], side).session.bytesRecv == TotalSize(Log(aead, states, steps, k, side, Read))
  {
    hide Next, Unforged, Added, TotalSize;
    if k > 0 {
      BytesAreSizes(aead, key, states, steps, k - 1, side);
      StepAdds(aead, states[k - 1], steps[k - 1], side);
      TotalOfOneMore(Log(aead, states, steps, k - 1, side, Written), Added(aead, states[k - 1], steps[k - 1], side, Written));
      TotalOfOneMore(Log(aead, states, steps, k - 1, side, Read), Added(aead, states[k - 1], steps[k - 1], side, Read));
    } else {
      assert TotalSize([]) == 0 by { NothingSent(); }
    }
  }

  lemma NothingSent()
    ensures TotalSize([]) == 0
  {
  }

  lemma StepAdds(aead: Aead, l: LinkState, step: Step, side: Side)
    ensures var e, e' := At(l, side), At(Next(aead, l, step), side);
      && e'.sealed == e.sealed + Added(aead, l, step, side, Written)
      && e'.accepted == e.accepted + Added(aead, l, step, side, Accepted)
      && e'.received == e.received + Added(aead, l, step, side, Read)
      && e'.session.sendNonce == e.session.sendNonce + |Added(aead, l, step, side, Written)|
      && |Added(aead, l, step, side, Written)| <= 1 && |Added(aead, l, step, side, Read)| <= 1
      && e'.session.bytesSent == e.session.bytesSent + SizeOf(Added(aead, l, step, side, Written))
      && e'.session.bytesRecv == e.session.bytesRecv + SizeOf(Added(aead, l, step, side, Read))
  {
    var e := At(l, step.side);
    ReadIsDecrypt(aead, e.session, e.inbound);
    ReadCounts(aead, e.session, e.inbound);
    hide RecvFrame, NextBody, Frame, Sealed;
  }

  function SizeOf(ms: seq<bytes>): nat {
    if ms == [] then 0 else |ms[0]|
  }

  lemma ReadCounts(aead: Aead, s: SessionState, stream: bytes)
    ensures var r := RecvFrame(aead, s, stream);
      r.session.bytesSent == s.bytesSent && r.session.bytesRecv == s.bytesRecv + if r.result.Ok? then |r.result.value| else 0
  {
  }

  lemma SendChanges(aead: Aead, l: LinkState, step: Step)
    requires step.SendStep?
    ensures Next(aead, l, step) != l <==> Writes(l, step, step.side)
  {
    StepAdds(aead, l, step, step.side);
    hide Frame, Sealed;
  }

  // --- what an end receives ------------------------------------------------------------------

  /** The i-th message came in the frame in which this end itself had sealed its own i-th message. */
  ghost predicate Reflected(aead: Aead, e: End, i: nat) {
    i < |e.bodies| && IsSealed(aead, e.session.key, e.sealed, e.bodies[i], i)
  }

  /** In every state of every run, what an end has received is a prefix of what the other sealed exactly if no frame
      that this end sealed itself was accepted, other than one equal to the other's. */
  lemma PrefixIffNotReflected(aead: Aead, key: bytes, states: seq<LinkState>, steps: seq<Step>, k: nat, side: Side)
    requires Correct(aead) && Run(aead, key, states, steps) && k < |states|
    ensures var e, peer := At(states[k], side), At(states[k], Other(side));
      && |e.bodies| == |e.received|
      && (e.received <= peer.sealed <==>
            forall i: nat :: Reflected(aead, e, i) ==> i < |peer.sealed| && peer.sealed[i] == e.sealed[i])
  {
    RunKeepsInv(aead, key, states, steps, k);
    PrefixOrReflected(aead, At(states[k], side), At(states[k], Other(side)));
  }

  lemma PrefixOrReflected(aead: Aead, e: End, peer: End)
    requires Correct(aead) && SenderInv(e) && ReceiverInv(aead, e, peer) && e.session.key == peer.session.key
    ensures e.received <= peer.sealed <==>
      forall i: nat :: Reflected(aead, e, i) ==> i < |peer.sealed| && peer.sealed[i] == e.sealed[i]
  {
    hide SenderInv, Sealed, Correct;
    forall i: nat | i < |e.received|
      ensures CameFrom(aead, e, peer, i) || (Reflected(aead, e, i) && e.received[i] == e.sealed[i])
      ensures CameFrom(aead, e, peer, i) && Reflected(aead, e, i) ==> peer.sealed[i] == e.sealed[i]
    {
      assert CameFrom(aead, e, peer, i) || CameFrom(aead, e, e, i);
      if CameFrom(aead, e, peer, i) && Reflected(aead, e, i) {
        SealedInjective(aead, e.session.key, i, peer.sealed[i], e.sealed[i]);
      }
    }
    if forall i: nat :: Reflected(aead, e, i) ==> i < |peer.sealed| && peer.sealed[i] == e.sealed[i] {
      forall i: nat | i < |e.received| ensures i < |peer.sealed| && e.received[i] == peer.sealed[i] {
        assert CameFrom(aead, e, peer, i) || Reflected(aead, e, i);
      }
      if |e.received| > 0 {
        var last: nat := |e.received| - 1;
        assert e.received[last] == peer.sealed[last];
      }
    }
  }

  lemma SealedInjective(aead: Aead, key: bytes, i: nat, p: bytes, q: bytes)
    requires Correct(aead) && i < NONCE_LIMIT && Sealed(aead, key, i, p) == Sealed(aead, key, i, q)
    ensures p == q
  {
    var n := NonceBytes(i).value;
    assert Sealed(aead, key, i, p)[|n|..] == aead.seal(key, n, p);
    assert Sealed(aead, key, i, q)[|n|..] == aead.seal(key, n, q);
    assert aead.open(key, n, aead.seal(key, n, p)) == Some(p);
  }

  /** The end is about to read a body that it sealed itself and the other end did not. */
  ghost predicate ReadsOwn(aead: Aead, l: LinkState, step: Step, side: Side) {
    && step == RecvStep(side) && NextBody(At(l, side).inbound).Some?
    && SealedBy(aead, At(l, side), NextBody(At(l, side).inbound).value)
    && !SealedBy(aead, At(l, Other(side)), NextBody(At(l, side).inbound).value)
  }

  ghost predicate AllFromPeer(aead: Aead, e: End, peer: End) {
    |e.bodies| == |e.received| && forall i: nat :: i < |e.received| ==> CameFrom(aead, e, peer, i)
  }

  /** While an end is not brought its own frames, what it receives is a prefix of what the other sealed, whatever else
      the network does. */
  lemma DirectIsPrefix(aead: Aead, key: bytes, states: seq<LinkState>, steps: seq<Step>, k: nat, side: Side)
    requires Correct(aead) && Run(aead, key, states, steps) && k < |states|
    requires forall i :: 0 <= i < |steps| ==> !ReadsOwn(aead, states[i], steps[i], side)
    ensures At(states[k], side).received <= At(states[k], Other(side)).sealed
  {
    DirectStays(aead, key, states, steps, k, side);
    hide Run, ReadsOwn, Correct, Sealed;
    var e, peer := At(states[k], side), At(states[k], Other(side));
    if |e.received| > 0 {
      var last: nat := |e.received| - 1;
      assert CameFrom(aead, e, peer, last);
    }
    forall i: nat | i < |e.received| ensures i < |peer.sealed| && e.received[i] == peer.sealed[i] {
      assert CameFrom(aead, e, peer, i);
    }
  }

  lemma {:induction false} DirectStays(aead: Aead, key: bytes, states: seq<LinkState>, steps: seq<Step>, k: nat, side: Side)
    requires Correct(aead) && Run(aead, key, states, steps) && k < |states|
    requires forall i :: 0 <= i < |steps| ==> !ReadsOwn(aead, states[i], steps[i], side)
    ensures AllFromPeer(aead, At(states[k], side), At(states[k], Other(side)))
  {
    hide Next, Inv, Correct, ReadsOwn, Unforged, AllFromPeer;
    if k > 0 {
      DirectStays(aead, key, states, steps, k - 1, side);
      RunKeepsInv(aead, key, states, steps, k - 1);
      DirectStep(aead, states[k - 1], steps[k - 1], side);
    } else {
      NoneYet(aead, key, side);
    }
  }

  lemma NoneYet(aead: Aead, key: bytes, side: Side)
    ensures var l := LinkState(NewEnd(key), NewEnd(key)); AllFromPeer(aead, At(l, side), At(l, Other(side)))
  {
  }

  lemma DirectStep(aead: Aead, l: LinkState, step: Step, side: Side)
    requires Inv(aead, l) && Unforged(aead, l, step) && !ReadsOwn(aead, l, step, side)
    requires AllFromPeer(aead, At(l, side), At(l, Other(side)))
    ensures AllFromPeer(aead, At(Next(aead, l, step), side), At(Next(aead, l, step), Other(side)))
  {
    hide Correct, SenderInv, ReceiverInv, AllFromPeer, SendAt, RecvAt, CameFrom, ReadsOwn, Unforged;
    NextKeepsInv(aead, l, step);
    if step == RecvStep(side) {
      DirectRecv(aead, l, side);
    } else {
      NothingRead(aead, l, step, side);
      DirectKept(aead, At(l, side), At(l, Other(side)), At(Next(aead, l, step), side), At(Next(aead, l, step), Other(side)));
    }
  }

  lemma NothingRead(aead: Aead, l: LinkState, step: Step, side: Side)
    requires step != RecvStep(side)
    ensures var e, e' := At(l, side), At(Next(aead, l, step), side); e'.received == e.received && e'.bodies == e.bodies
  {
    hide SendFrame, RecvFrame, NextBody;
  }

  lemma DirectKept(aead: Aead, e: End, peer: End, e': End, peer': End)
    requires AllFromPeer(aead, e, peer) && Extends(peer, peer') && e'.received == e.received && e'.bodies == e.bodies
    ensures AllFromPeer(aead, e', peer')
  {
    hide Sealed;
    forall i: nat | i < |e'.received| ensures CameFrom(aead, e', peer', i) { assert CameFrom(aead, e, peer, i); }
  }

  lemma DirectRecv(aead: Aead, l: LinkState, side: Side)
    requires Inv(aead, l) && Unforged(aead, l, RecvStep(side)) && !ReadsOwn(aead, l, RecvStep(side), side)
    requires AllFromPeer(aead, At(l, side), At(l, Other(side)))
    ensures AllFromPeer(aead, RecvAt(aead, At(l, side)), At(l, Other(side)))
  {
    var e, peer, e' := At(l, side), At(l, Other(side)), RecvAt(aead, At(l, side));
    ReadIsDecrypt(aead, e.session, e.inbound);
    var n := |e.received|;
    hide RecvFrame, NextBody, Decrypt, Sealed, Opens, Correct, SenderInv;
    if !e.closed && !e'.closed {
      ReadSealed(aead, e.session, peer, NextBody(e.inbound).value);
      assert CameFrom(aead, e', peer, n);
    }
    hide SealedBy;
    forall i: nat | i < |e'.received| ensures |e'.bodies| == |e'.received| && CameFrom(aead, e', peer, i) {
      if i < n {
        assert CameFrom(aead, e, peer, i) && e'.received[i] == e.received[i] && e'.bodies[i] == e.bodies[i];
      }
    }
  }

  // --- what was accepted -----------------------------------------------------------------------

  /** A send that raises although its frame has been written. */
  predicate RaisesAfterWriting(l: LinkState, step: Step, side: Side) {
    Writes(l, step, side) && step.ioFails
  }

  ghost predicate Raised(states: seq<LinkState>, steps: seq<Step>, k: nat, side: Side) {
    exists i :: 0 <= i < k && i < |steps| && i < |states| && RaisesAfterWriting(states[i], steps[i], side)
  }

  /** All that was sealed was accepted, exactly unless a send raised after writing; that was then the last one. */
  lemma {:induction false} AcceptedUnlessRaised(aead: Aead, key: bytes, states: seq<LinkState>, steps: seq<Step>, k: nat, side: Side)
    requires Run(aead, key, states, steps) && k < |states|
    ensures var e := At(states[k], side);
      if Raised(states, steps, k, side) then e.closed && |e.sealed| > 0 && e.accepted == e.sealed[..|e.sealed| - 1]
      else e.accepted == e.sealed
  {
    hide Next, Unforged, RaisesAfterWriting;
    if k > 0 {
      AcceptedUnlessRaised(aead, key, states, steps, k - 1, side);
      AcceptStep(aead, states[k - 1], steps[k - 1], side);
      if RaisesAfterWriting(states[k - 1], steps[k - 1], side) { assert Raised(states, steps, k, side); }
    }
  }

  lemma AcceptStep(aead: Aead, l: LinkState, step: Step, side: Side)
    ensures var e, e' := At(l, side), At(Next(aead, l, step), side);
      if RaisesAfterWriting(l, step, side)
      then !e.closed && e'.closed && e'.accepted == e.accepted && |e'.sealed| == |e.sealed| + 1 && e'.sealed[..|e.sealed|] == e.sealed
      else (e.closed ==> e'.closed && e'.sealed == e.sealed && e'.accepted == e.accepted)
           && (e.accepted == e.sealed ==> e'.accepted == e'.sealed)
  {
    StepAdds(aead, l, step, side);
    hide RecvFrame, NextBody, Frame, Sealed;
  }

  /** When what an end received is a prefix of what the other sealed, it is one of what the other's sends accepted
      exactly unless one of those raised after writing its frame and that message, the last, was received too. */
  lemma AcceptedExceptLast(aead: Aead, key: bytes, states: seq<LinkState>, steps: seq<Step>, k: nat, side: Side)
    requires Correct(aead) && Run(aead, key, states, steps) && k < |states|
    requires At(states[k], side).received <= At(states[k], Other(side)).sealed
    ensures var e, peer := At(states[k], side), At(states[k], Other(side));
      e.received <= peer.accepted <==> !Raised(states, steps, k, Other(side)) || |e.received| < |peer.sealed|
  {
    AcceptedUnlessRaised(aead, key, states, steps, k, Other(side));
    hide Run, Raised;
  }

  /** So while nothing is reflected and no send raises after writing, what recv returns is a prefix of what send
      accepted, in terms of the steps of the run alone. */
  lemma ReadIsPrefixOfAccepted(aead: Aead, key: bytes, states: seq<LinkState>, steps: seq<Step>, k: nat, side: Side)
    requires Correct(aead) && Run(aead, key, states, steps) && k < |states|
    requires forall i :: 0 <= i < |steps| ==> !ReadsOwn(aead, states[i], steps[i], side)
    requires forall i :: 0 <= i < |steps| ==> !RaisesAfterWriting(states[i], steps[i], Other(side))
    ensures Log(aead, states, steps, k, side, Read) <= Log(aead, states, steps, k, Other(side), Accepted)
  {
    hide ReadsOwn, RaisesAfterWriting;
    DirectIsPrefix(aead, key, states, steps, k, side);
    AcceptedExceptLast(aead, key, states, steps, k, side);
    HistoriesAreLogs(aead, key, states, steps, k, side);
    HistoriesAreLogs(aead, key, states, steps, k, Other(side));
  }

  /** After a failed read or write nothing is ever received or sealed again. */
  lemma {:induction false} ClosedStaysClosed(aead: Aead, key: bytes, states: seq<LinkState>, steps: seq<Step>, j: nat, k: nat,
                                             side: Side)
    requires Run(aead, key, states, steps) && j <= k < |states| && At(states[j], side).closed
    ensures At(states[k], side).closed && At(states[k], side).received == At(states[j], side).received
    ensures At(states[k], side).sealed == At(states[j], side).sealed
  {
    hide Next, NewEnd, Unforged;
    if j < k {
      ClosedStaysClosed(aead, key, states, steps, j, k - 1, side);
      ClosedStep(aead, states[k - 1], steps[k - 1], side);
    }
  }

  lemma ClosedStep(aead: Aead, l: LinkState, step: Step, side: Side)
    requires At(l, side).closed
    ensures var e, e' := At(l, side), At(Next(aead, l, step), side);
      e'.closed && e'.received == e.received && e'.sealed == e.sealed
  {
    hide SendFrame, RecvFrame, NextBody;
  }

  // --- runs that show the exceptions ---------------------------------------------------------

  /** Sending, bringing the frame to an end, and reading there. */
  function ThreeSteps(aead: Aead, key: bytes, from: Side, to: Side, data: bytes, ioFails: bool): seq<Step> {
    [SendStep(from, data, ioFails), ArriveStep(to, Frame(Sealed(aead, key, 0, data))), RecvStep(to)]
  }

  function StatesOf(aead: Aead, key: bytes, steps: seq<Step>): seq<LinkState>
    ensures |StatesOf(aead, key, steps)| == |steps| + 1
  {
    if |steps| == 0 then [LinkState(NewEnd(key), NewEnd(key))]
    else
      var front := StatesOf(aead, key, steps[..|steps| - 1]);
      front + [Next(aead, front[|front| - 1], steps[|steps| - 1])]
  }

  lemma {:induction false} StatesFollow(aead: Aead, key: bytes, steps: seq<Step>)
    ensures StatesOf(aead, key, steps)[0] == LinkState(NewEnd(key), NewEnd(key))
    ensures forall i :: 0 <= i < |steps| ==>
      StatesOf(aead, key, steps)[i + 1] == Next(aead, StatesOf(aead, key, steps)[i], steps[i])
  {
    hide Next;
    if |steps| > 0 { StatesFollow(aead, key, steps[..|steps| - 1]); }
  }

  lemma FirstSent(aead: Aead, key: bytes, data: bytes, ioFails: bool)
    requires Correct(aead) && |data| <= MAX_MESSAGE_SIZE
    ensures var e' := SendAt(aead, NewEnd(key), data, ioFails);
      && e'.session.key == key && e'.session.recvNonce == 0 && e'.inbound == [] && e'.closed == ioFails
      && e'.received == [] && e'.sealed == [data] && e'.accepted == (if ioFails then [] else [data])
      && SealedBy(aead, e', Sealed(aead, key, 0, data))
  {
    SentFrameFits(aead, NewEnd(key).session, data);
    assert IsSealed(aead, key, SendAt(aead, NewEnd(key), data, ioFails).sealed, Sealed(aead, key, 0, data), 0);
  }

  lemma FirstRead(aead: Aead, e: End, data: bytes)
    requires Correct(aead) && |data| <= MAX_MESSAGE_SIZE && !e.closed && e.session.recvNonce == 0 && e.received == []
    requires e.inbound == Frame(Sealed(aead, e.session.key, 0, data))
    ensures NextBody(e.inbound) == Some(Sealed(aead, e.session.key, 0, data))
    ensures RecvAt(aead, e).received == [data]
  {
    var body := Sealed(aead, e.session.key, 0, data);
    assert |body| == NONCE_SIZE + |data| + GCM_TAG_SIZE;
    ParseFrame(aead, e.session, body, []);
    HeaderRoundTrip(|body|);
    assert Frame(body) + [] == Frame(body) && Frame(body)[..FRAME_HEADER_SIZE] == Header(|body|);
    assert Frame(body)[FRAME_HEADER_SIZE..] == body && body[..|body|] == body;
    DecryptSealed(aead, e.session, 0, data);
  }

  lemma CarriedIsReceived(aead: Aead, key: bytes, from: Side, to: Side, data: bytes, ioFails: bool)
    requires Correct(aead) && |data| <= MAX_MESSAGE_SIZE && (ioFails ==> from != to)
    ensures var steps := ThreeSteps(aead, key, from, to, data, ioFails);
      var last := StatesOf(aead, key, steps)[3];
      && Run(aead, key, StatesOf(aead, key, steps), steps)
      && At(last, to).received == [data] && At(last, from).sealed == [data]
      && At(last, from).accepted == (if ioFails then [] else [data])
      && (from == to ==> At(last, Other(from)).sealed == [])
  {
    var steps := ThreeSteps(aead, key, from, to, data, ioFails);
    var states := StatesOf(aead, key, steps);
    StatesFollow(aead, key, steps);
    hide StatesOf, Sealed, Correct, NextBody, Opens, SealedBy, Frame, SendAt, RecvAt;
    assert states[1] == Next(aead, states[0], steps[0]) && states[2] == Next(aead, states[1], steps[1])
        && states[3] == Next(aead, states[2], steps[2]);
    FirstSent(aead, key, data, ioFails);
    var body := Sealed(aead, key, 0, data);
    assert At(states[2], to).inbound == Frame(body) by { assert [] + Frame(body) == Frame(body); }
    FirstRead(aead, At(states[2], to), data);
    SealedBefore(aead, At(states[1], from), At(states[2], from), body);
    ReadKeepsSent(aead, At(states[2], to));
  }

  lemma ReadKeepsSent(aead: Aead, e: End)
    ensures RecvAt(aead, e).sealed == e.sealed && RecvAt(aead, e).accepted == e.accepted
  {
    hide RecvFrame, NextBody;
  }

  lemma SealedBefore(aead: Aead, e: End, e': End, body: bytes)
    requires e'.sealed == e.sealed && e'.session == e.session
    ensures SealedBy(aead, e, body) ==> SealedBy(aead, e', body)
  {
  }

  /** An end reads its own first frame as the other's first message when the network carries it back. */
  lemma ReflectedFrameAccepted(aead: Aead, key: bytes, side: Side, data: bytes)
    returns (states: seq<LinkState>, steps: seq<Step>)
    requires Correct(aead) && |data| <= MAX_MESSAGE_SIZE
    ensures Run(aead, key, states, steps) && |states| == 4
    ensures At(states[3], side).received == [data] && At(states[3], Other(side)).sealed == []
  {
    CarriedIsReceived(aead, key, side, side, data, false);
    hide StatesOf;
    steps := ThreeSteps(aead, key, side, side, data, false);
    states := StatesOf(aead, key, steps);
  }

  /** A message whose send raised can arrive all the same. */
  lemma RaisedSendArrives(aead: Aead, key: bytes, side: Side, data: bytes)
    returns (states: seq<LinkState>, steps: seq<Step>)
    requires Correct(aead) && |data| <= MAX_MESSAGE_SIZE
    ensures Run(aead, key, states, steps) && |states| == 4
    ensures At(states[3], side).received == [data] && At(states[3], Other(side)).accepted == []
  {
    CarriedIsReceived(aead, key, Other(side), side, data, true);
    hide StatesOf;
    steps := ThreeSteps(aead, key, Other(side), side, data, true);
    states := StatesOf(aead, key, steps);
  }
}
