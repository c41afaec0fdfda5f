/** Encrypted sessions, length-prefixed frames and the connection built from them. */
module Transport {
  import opened Common
  import opened Digits
  import opened Bits

  const MAX_MESSAGE_SIZE: nat := 4 * 1024 * 1024
  const FRAME_HEADER_SIZE: nat := 4
  const NONCE_SIZE: nat := 12
  const GCM_TAG_SIZE: nat := 16
  /** Number of values of a 12-byte nonce. */
  const NONCE_LIMIT: nat := 0x1_0000_0000_0000_0000_0000_0000
  const MAX_FRAME_BODY: nat := MAX_MESSAGE_SIZE + NONCE_SIZE + GCM_TAG_SIZE

  /** The cipher: key, nonce and plaintext to ciphertext, and back when the tag is right. */
  datatype Aead = Aead(seal: (bytes, bytes, bytes) -> bytes, open: (bytes, bytes, bytes) -> Option<bytes>)

  ghost predicate Correct(aead: Aead) {
    forall k: bytes, n: bytes, p: bytes ::
      |aead.seal(k, n, p)| == |p| + GCM_TAG_SIZE && aead.open(k, n, aead.seal(k, n, p)) == Some(p)
  }

  datatype TransportError =
    | MessageTooLarge | NonceExhausted | CiphertextTooShort | NonceMismatch | DecryptionFailed
    | HeaderEof | FrameTooLarge | BodyEof | Closed | SendFailed

  datatype SessionState = SessionState(
    key: bytes, sendNonce: nat, recvNonce: nat, bytesSent: nat, bytesRecv: nat)

  /** Twelve big-endian bytes; a larger counter does not convert. */
  function NonceBytes(n: nat): (r: Option<bytes>)
    ensures r.Some? <==> n < NONCE_LIMIT
    ensures r.Some? ==> |r.value| == NONCE_SIZE
  {
    ToDigitsBelow(n, 256, NONCE_SIZE);
    if n < NONCE_LIMIT then Some(ToDigits(n, 256, NONCE_SIZE)) else None
  }

  /** The sealed form of the n-th message. */
  function Sealed(aead: Aead, key: bytes, n: nat, plaintext: bytes): bytes
    requires n < NONCE_LIMIT
  {
    NonceBytes(n).value + aead.seal(key, NonceBytes(n).value, plaintext)
  }

  function Encrypt(aead: Aead, s: SessionState, plaintext: bytes): (SessionState, Result<bytes, TransportError>) {
    if s.sendNonce >= NONCE_LIMIT then (s, Err(NonceExhausted))
    else (s.(sendNonce := s.sendNonce + 1, bytesSent := s.bytesSent + |plaintext|),
          Ok(Sealed(aead, s.key, s.sendNonce, plaintext)))
  }

  /** The counter moves as soon as the nonce matches, before the tag is checked. */
  function Decrypt(aead: Aead, s: SessionState, data: bytes): (SessionState, Result<bytes, TransportError>) {
    if |data| < NONCE_SIZE + GCM_TAG_SIZE then (s, Err(CiphertextTooShort))
    else if s.recvNonce >= NONCE_LIMIT then (s, Err(NonceExhausted))
    else if data[..NONCE_SIZE] != NonceBytes(s.recvNonce).value then (s, Err(NonceMismatch))
    else
      var s' := s.(recvNonce := s.recvNonce + 1);
      var pt := aead.open(s.key, data[..NONCE_SIZE], data[NONCE_SIZE..]);
      if pt.None? then (s', Err(DecryptionFailed))
      else (s'.(bytesRecv := s.bytesRecv + |pt.value|), Ok(pt.value))
  }

  /** Four big-endian bytes of a length. */
  function Header(length: nat): (h: bytes)
    ensures |h| == FRAME_HEADER_SIZE
  {
    ToDigitsBelow(length, 256, FRAME_HEADER_SIZE);
    ToDigits(length, 256, FRAME_HEADER_SIZE)
  }

  function Frame(body: bytes): bytes {
    Header(|body|) + body
  }

  function SendFrame(aead: Aead, s: SessionState, data: bytes): (SessionState, Result<bytes, TransportError>) {
    if |data| > MAX_MESSAGE_SIZE then (s, Err(MessageTooLarge))
    else
      var (s', body) := Encrypt(aead, s, data);
      if body.Err? then (s', body) else (s', Ok(Frame(body.value)))
  }

  datatype Received = Received(session: SessionState, rest: bytes, result: Result<bytes, TransportError>)

  /** The length that the header at the front of a stream announces. */
  function LengthAt(stream: bytes): nat
    requires |stream| >= FRAME_HEADER_SIZE
  {
    FromDigitsBound(stream[..FRAME_HEADER_SIZE], 256);
    FromDigits(stream[..FRAME_HEADER_SIZE], 256)
  }

  /** Reads one frame off the stream; a stream that ends early is consumed and fails. */
  function RecvFrame(aead: Aead, s: SessionState, stream: bytes): Received {
    if |stream| < FRAME_HEADER_SIZE then Received(s, [], Err(HeaderEof))
    else
      var length, rest := LengthAt(stream), stream[FRAME_HEADER_SIZE..];
      if length > MAX_FRAME_BODY then Received(s, rest, Err(FrameTooLarge))
      else if |rest| < length then Received(s, [], Err(BodyEof))
      else
        var (s', pt) := Decrypt(aead, s, rest[..length]);
        Received(s', rest[length..], pt)
  }

  // --- the stateful classes -------------------------------------------------------

  class Session {
    const aead: Aead
    const sessionKey: bytes
    var sendNonce: nat
    var recvNonce: nat
    var bytesSent: nat
    var bytesRecv: nat

    constructor (aead: Aead, sessionKey: bytes)
      ensures this.aead == aead && View() == SessionState(sessionKey, 0, 0, 0, 0)
    {
      this.aead, this.sessionKey := aead, sessionKey;
      sendNonce, recvNonce, bytesSent, bytesRecv := 0, 0, 0, 0;
    }

    ghost function View(): SessionState
      reads this
    {
      SessionState(sessionKey, sendNonce, recvNonce, bytesSent, bytesRecv)
    }

    method EncryptMessage(plaintext: bytes) returns (r: Result<bytes, TransportError>)
      modifies this
      ensures (View(), r) == Encrypt(aead, old(View()), plaintext)
    {
      var nonce := NonceBytes(sendNonce);
      if nonce.None? {
        return Err(NonceExhausted);
      }
      sendNonce := sendNonce + 1;
      var ct := aead.seal(sessionKey, nonce.value, plaintext);
      bytesSent := bytesSent + |plaintext|;
      r := Ok(nonce.value + ct);
    }

    method DecryptMessage(data: bytes) returns (r: Result<bytes, TransportError>)
      modifies this
      ensures (View(), r) == Decrypt(aead, old(View()), data)
    {
      if |data| < NONCE_SIZE + GCM_TAG_SIZE {
        return Err(CiphertextTooShort);
      }
      var nonce, ct := data[..NONCE_SIZE], data[NONCE_SIZE..];
      var expected := NonceBytes(recvNonce);
      if expected.None? {
        return Err(NonceExhausted);
      }
      if nonce != expected.value {
        return Err(NonceMismatch);
      }
      recvNonce := recvNonce + 1;
      var pt := aead.open(sessionKey, nonce, ct);
      if pt.None? {
        return Err(DecryptionFailed);
      }
      bytesRecv := bytesRecv + |pt.value|;
      r := Ok(pt.value);
    }
  }

  /** One end of a connection: what the writer was given and what the reader still holds. */
  class PeerConnection {
    const session: Session
    var outbound: bytes
    var inbound: bytes
    var closed: bool

    constructor (session: Session)
      ensures this.session == session && outbound == [] && inbound == [] && !closed
    {
      this.session := session;
      outbound, inbound, closed := [], [], false;
    }

    /** ioFails says whether draining the writer raises; the frame has been written by then. */
    method Send(data: bytes, ioFails: bool) returns (r: Result<(), TransportError>)
      modifies this`closed, this`outbound, session
      ensures old(closed) ==> r == Err(Closed) && closed && outbound == old(outbound) && unchanged(session)
      ensures !old(closed) ==>
        var (s', frame) := SendFrame(session.aead, old(session.View()), data);
        && session.View() == s'
        && outbound == (if frame.Ok? then old(outbound) + frame.value else old(outbound))
        && closed == (frame.Ok? && ioFails)
        && r == (if frame.Err? then Err(frame.error) else if ioFails then Err(SendFailed) else Ok(()))
    {
      if closed {
        return Err(Closed);
      }
      if |data| > MAX_MESSAGE_SIZE {
        return Err(MessageTooLarge);
      }
      var body := session.EncryptMessage(data);
      if body.Err? {
        return Err(body.error);
      }
      outbound := outbound + (Header(|body.value|) + body.value);
      if ioFails {
        closed := true;
        return Err(SendFailed);
      }
      r := Ok(());
    }

    method Recv() returns (r: Result<bytes, TransportError>)
      modifies this`closed, this`inbound, session
      ensures old(closed) ==> r == Err(Closed) && closed && inbound == old(inbound) && unchanged(session)
      ensures !old(closed) ==>
        Received(session.View(), inbound, r) == RecvFrame(session.aead, old(session.View()), old(inbound))
      ensures !old(closed) ==> closed == r.Err?
    {
      if closed {
        return Err(Closed);
      }
      if |inbound| < FRAME_HEADER_SIZE {
        inbound, closed := [], true;
        return Err(HeaderEof);
      }
      var header := inbound[..FRAME_HEADER_SIZE];
      FromDigitsBound(header, 256);
      var length := FromDigits(header, 256);
      inbound := inbound[FRAME_HEADER_SIZE..];
      if length > MAX_FRAME_BODY {
        closed := true;
        return Err(FrameTooLarge);
      }
      if |inbound| < length {
        inbound, closed := [], true;
        return Err(BodyEof);
      }
      var encrypted := inbound[..length];
      inbound := inbound[length..];
      r := session.DecryptMessage(encrypted);
      if r.Err? {
        closed := true;
      }
    }
  }

  /** The equations can be met: a cipher that only appends sixteen bytes does. */
  lemma CorrectCipher() returns (aead: Aead)
    ensures Correct(aead)
  {
    var tag := Zeros(GCM_TAG_SIZE);
    aead := Aead((k: bytes, n: bytes, p: bytes) => p + tag,
                 (k: bytes, n: bytes, c: bytes) => if |c| >= GCM_TAG_SIZE then Some(c[..|c| - GCM_TAG_SIZE]) else None);
    forall k: bytes, n: bytes, p: bytes
      ensures |aead.seal(k, n, p)| == |p| + GCM_TAG_SIZE && aead.open(k, n, aead.seal(k, n, p)) == Some(p)
    {
      assert (p + tag)[..|p|] == p;
    }
  }

  // --- one frame --------------------------------------------------------------------

  lemma NonceLimitIsPower()
    ensures Pow(256, NONCE_SIZE) == NONCE_LIMIT
  {
    assert Pow(256, 4) == 0x1_0000_0000;
    PowAdd(256, 4, 4);
    PowAdd(256, 8, 4);
  }

  lemma NonceInjective(i: nat, j: nat)
    requires i < NONCE_LIMIT && j < NONCE_LIMIT && NonceBytes(i) == NonceBytes(j)
    ensures i == j
  {
    NonceLimitIsPower();
    FromToDigits(i, 256, NONCE_SIZE);
    FromToDigits(j, 256, NONCE_SIZE);
  }

  lemma HeaderRoundTrip(length: nat)
    requires length < 0x1_0000_0000
    ensures FromDigits(Header(length), 256) == length
  {
    assert Pow(256, FRAME_HEADER_SIZE) == 0x1_0000_0000;
    FromToDigits(length, 256, FRAME_HEADER_SIZE);
  }

  /** Whatever follows it, a frame in bounds is parsed into its body; a larger one is refused. */
  lemma ParseFrame(aead: Aead, s: SessionState, body: bytes, rest: bytes)
    requires |body| < 0x1_0000_0000
    ensures var r := RecvFrame(aead, s, Frame(body) + rest);
      if |body| > MAX_FRAME_BODY then r.result == Err(FrameTooLarge) && r.session == s
      else r == Received(Decrypt(aead, s, body).0, rest, Decrypt(aead, s, body).1)
  {
    var stream := Frame(body) + rest;
    HeaderRoundTrip(|body|);
    assert stream[..FRAME_HEADER_SIZE] == Header(|body|);
    assert stream[FRAME_HEADER_SIZE..] == body + rest;
    assert (body + rest)[..|body|] == body && (body + rest)[|body|..] == rest;
  }

  /** The receiver accepts the i-th sealed message exactly when it expects number i. */
  lemma DecryptSealed(aead: Aead, s: SessionState, i: nat, plaintext: bytes)
    requires Correct(aead) && i < NONCE_LIMIT && s.recvNonce < NONCE_LIMIT
    ensures var r := Decrypt(aead, s, Sealed(aead, s.key, i, plaintext));
      if i == s.recvNonce
      then r == (s.(recvNonce := i + 1, bytesRecv := s.bytesRecv + |plaintext|), Ok(plaintext))
      else r == (s, Err(NonceMismatch))
  {
    var n := NonceBytes(i).value;
    var data := Sealed(aead, s.key, i, plaintext);
    assert data[..NONCE_SIZE] == n && data[NONCE_SIZE..] == aead.seal(s.key, n, plaintext);
    if i != s.recvNonce && NonceBytes(i) == NonceBytes(s.recvNonce) {
      NonceInjective(i, s.recvNonce);
      assert false;
    }
  }

  /** A message send_frame accepts makes a frame whose length fits its header and passes the receiver's check. */
  lemma SentFrameFits(aead: Aead, s: SessionState, data: bytes)
    requires Correct(aead) && SendFrame(aead, s, data).1.Ok?
    ensures s.sendNonce < NONCE_LIMIT && |data| <= MAX_MESSAGE_SIZE
    ensures var body := Sealed(aead, s.key, s.sendNonce, data);
      && SendFrame(aead, s, data).1.value == Frame(body)
      && |body| <= MAX_FRAME_BODY < 0x1_0000_0000 && FromDigits(Header(|body|), 256) == |body|
  {
    var body := Sealed(aead, s.key, s.sendNonce, data);
    assert |body| == NONCE_SIZE + |data| + GCM_TAG_SIZE;
    HeaderRoundTrip(|body|);
  }

  /** A frame that is cut off anywhere is refused and leaves the session as it was. */
  lemma TruncatedFrame(aead: Aead, s: SessionState, body: bytes, k: nat)
    requires |body| <= MAX_FRAME_BODY && k < |Frame(body)|
    ensures RecvFrame(aead, s, Frame(body)[..k]) == Received(s, [], Err(if k < FRAME_HEADER_SIZE then HeaderEof else BodyEof))
  {
    if k >= FRAME_HEADER_SIZE {
      assert Frame(body)[..k][..FRAME_HEADER_SIZE] == Header(|body|);
      HeaderRoundTrip(|body|);
    }
  }

  /** The receive counter moves exactly for a body long enough that carries the expected number, whether it opens or not;
      it is then accepted exactly if it opens. */
  lemma NonceSpent(aead: Aead, s: SessionState, data: bytes)
    requires s.recvNonce < NONCE_LIMIT
    ensures var (s', result) := Decrypt(aead, s, data);
      var expected := |data| >= 28 && data[..12] == NonceBytes(s.recvNonce).value;
      && s'.recvNonce == s.recvNonce + (if expected then 1 else 0) && s'.sendNonce == s.sendNonce && s'.key == s.key
      && (result.Ok? <==> expected && aead.open(s.key, data[..12], data[12..]).Some?)
      && s'.bytesRecv == s.bytesRecv + (if result.Ok? then |result.value| else 0) && s'.bytesSent == s.bytesSent
  {
  }

  // --- a list of messages over a faithful stream ----------------------------------------

  /** The stream after sending every message in turn; None if one is refused. */
  function SendAll(aead: Aead, s: SessionState, ms: seq<bytes>): Option<bytes>
    decreases |ms|
  {
    if |ms| == 0 then Some([])
    else
      var (s', frame) := SendFrame(aead, s, ms[0]);
      var rest := SendAll(aead, s', ms[1..]);
      if frame.Err? || rest.None? then None else Some(frame.value + rest.value)
  }

  /** The plaintexts and the remaining stream after n successful reads; None if one fails. */
  function RecvAll(aead: Aead, s: SessionState, n: nat, stream: bytes): Option<(seq<bytes>, bytes)>
    decreases n
  {
    if n == 0 then Some(([], stream))
    else
      var r := RecvFrame(aead, s, stream);
      if r.result.Err? then None
      else
        var more := RecvAll(aead, r.session, n - 1, r.rest);
        if more.None? then None else Some(([r.result.value] + more.value.0, more.value.1))
  }

  /** Sending succeeds exactly for messages in bounds while nonces last. */
  lemma {:induction false} SendAllSucceeds(aead: Aead, s: SessionState, ms: seq<bytes>)
    ensures SendAll(aead, s, ms).Some? <==>
      && (forall i :: 0 <= i < |ms| ==> |ms[i]| <= 4 * 1024 * 1024)
      && (|ms| == 0 || s.sendNonce + |ms| <= NONCE_LIMIT)
    decreases |ms|
  {
    if |ms| > 0 {
      var s' := SendFrame(aead, s, ms[0]).0;
      SendAllSucceeds(aead, s', ms[1..]);
      assert forall i :: 1 <= i < |ms| ==> ms[i] == ms[1..][i - 1];
      if forall i :: 0 <= i < |ms[1..]| ==> |ms[1..][i]| <= MAX_MESSAGE_SIZE {
        assert forall i :: 1 <= i < |ms| ==> |ms[i]| <= MAX_MESSAGE_SIZE;
      }
    }
  }

  /** Repeated recv_frame parses the concatenated frames into the same messages and nothing is left over. */
  lemma {:induction false} StreamRoundTrip(aead: Aead, s: SessionState, r: SessionState, ms: seq<bytes>, suffix: bytes)
    requires Correct(aead) && s.key == r.key && s.sendNonce == r.recvNonce
    requires SendAll(aead, s, ms).Some?
    ensures RecvAll(aead, r, |ms|, SendAll(aead, s, ms).value + suffix) == Some((ms, suffix))
    decreases |ms|
  {
    hide SendFrame, RecvFrame, Correct;
    var stream := SendAll(aead, s, ms).value + suffix;
    if |ms| == 0 {
      assert stream == suffix;
    } else {
      var (s', frame) := SendFrame(aead, s, ms[0]);
      var tail := SendAll(aead, s', ms[1..]).value + suffix;
      assert stream == frame.value + tail;
      FrameRoundTrip(aead, s, r, ms[0], tail);
      StreamRoundTrip(aead, s', RecvFrame(aead, r, stream).session, ms[1..], suffix);
      assert [ms[0]] + ms[1..] == ms;
    }
  }

  /** Reading one frame gives its message back, leaves the rest of the stream, and keeps the two ends in step. */
  lemma FrameRoundTrip(aead: Aead, s: SessionState, r: SessionState, data: bytes, tail: bytes)
    requires Correct(aead) && s.key == r.key && s.sendNonce == r.recvNonce && SendFrame(aead, s, data).1.Ok?
    ensures var (s', frame) := SendFrame(aead, s, data);
      var got := RecvFrame(aead, r, frame.value + tail);
      && got.result == Ok(data) && got.rest == tail
      && s'.key == got.session.key && s'.sendNonce == got.session.recvNonce
  {
    SentFrameFits(aead, s, data);
    ParseFrame(aead, r, Sealed(aead, s.key, s.sendNonce, data), tail);
    DecryptSealed(aead, r, s.sendNonce, data);
    hide RecvFrame, Decrypt, Frame, Correct;
  }

  // --- session keys ---------------------------------------------------------------------

  function XorByte(a: byte, b: byte): byte {
    assert Pow(2, 8) == 256;
    XorBelow(a, b, 8);
    Xor(a, b)
  }

  function XorBytes(a: bytes, b: bytes): bytes {
    seq(Min(|a|, |b|), i requires 0 <= i < |a| && i < |b| => XorByte(a[i], b[i]))
  }

  /** Lexicographic order, as sorting byte strings uses it. */
  predicate LexLeq(a: bytes, b: bytes) {
    |a| == 0 || (|b| > 0 && (a[0] < b[0] || (a[0] == b[0] && LexLeq(a[1..], b[1..]))))
  }

  function Salt(a: bytes, b: bytes): bytes {
    if LexLeq(a, b) then XorBytes(a, b) else XorBytes(b, a)
  }

  /** kdf stands for HKDF-SHA256 of a secret and a salt. */
  function DeriveSessionKey(kdf: (bytes, bytes) -> bytes, secret: bytes, a: bytes, b: bytes): bytes {
    kdf(secret, Salt(a, b))
  }

  lemma XorCommutes(a: bytes, b: bytes)
    ensures XorBytes(a, b) == XorBytes(b, a)
  {
    forall i | 0 <= i < |a| && i < |b| ensures XorByte(a[i], b[i]) == XorByte(b[i], a[i]) {
      XorSwaps(a[i], b[i]);
    }
  }

  /** Both sides derive one key, in whichever order they name the two static keys. */
  lemma SessionKeySymmetric(kdf: (bytes, bytes) -> bytes, secret: bytes, a: bytes, b: bytes)
    ensures DeriveSessionKey(kdf, secret, a, b) == DeriveSessionKey(kdf, secret, b, a)
  {
    XorCommutes(a, b);
  }

  /** Keys of one length have the same salt with a third exactly if they are the same. */
  lemma SaltSeparates(a: bytes, b: bytes, c: bytes)
    requires |a| == |b| == |c|
    ensures Salt(a, b) == Salt(a, c) <==> b == c
  {
    XorCommutes(a, b);
    XorCommutes(a, c);
    if Salt(a, b) == Salt(a, c) {
      forall i | 0 <= i < |a| ensures b[i] == c[i] {
        assert XorBytes(a, b)[i] == XorByte(a[i], b[i]) && XorBytes(a, c)[i] == XorByte(a[i], c[i]);
        XorCancels(a[i], b[i], c[i]);
      }
    }
  }

  /** With a derivation that never maps two inputs to one key, two sessions of one party share a key exactly if they have
      the same secret and the same other party. */
  lemma SessionKeySeparates(kdf: (bytes, bytes) -> bytes, s: bytes, t: bytes, a: bytes, b: bytes, c: bytes)
    requires |a| == |b| == |c| && forall p, q, x, y :: kdf(p, q) == kdf(x, y) ==> p == x && q == y
    ensures DeriveSessionKey(kdf, s, a, b) == DeriveSessionKey(kdf, t, a, c) <==> s == t && b == c
  {
    SaltSeparates(a, b, c);
    hide Salt;
  }
}
