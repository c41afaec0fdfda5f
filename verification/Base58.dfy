/** The two base-58 encoders of node ids, a decoder for the identity form, and when they agree. */
module Base58 {
  import opened Common
  import opened Digits

  const ALPHABET: string := "123456789ABCDEFGHJKLMN" + "PQRSTUVWXYZ" + "abcdefghijk" + "mnopqrstuvwxyz"

  function CharOf(d: int): char
    requires 0 <= d < 58
  {
    ALPHABET[d]
  }

  /** The base-58 digits of n without leading zeros; none for zero. */
  function Numeral(n: nat): string {
    if n == 0 then "" else Numeral(n / 58) + [CharOf(n % 58)]
  }

  function LeadingZeros(data: bytes): (n: nat)
    ensures n <= |data|
  {
    if |data| > 0 && data[0] == 0 then 1 + LeadingZeros(data[1..]) else 0
  }

  function ZeroBytes(data: bytes): nat {
    if |data| == 0 then 0 else (if data[0] == 0 then 1 else 0) + ZeroBytes(data[1..])
  }

  function Ones(n: nat): string {
    seq(n, _ => '1')
  }

  function Number(data: bytes): nat {
    FromDigitsBound(data, 256);
    FromDigits(data, 256)
  }

  /** What the encoder of identity.py returns. */
  function IdentityForm(data: bytes): string {
    Ones(LeadingZeros(data)) + Numeral(Number(data))
  }

  /** What the encoder of transport.py returns. */
  function TransportForm(data: bytes): string {
    Ones(ZeroBytes(data)) + Numeral(Number(data))
  }

  function Reversed(s: string): (r: string)
    ensures |r| == |s|
  {
    if |s| == 0 then "" else [s[|s| - 1]] + Reversed(s[..|s| - 1])
  }

  /** The digit loop both encoders share, and its final reversal. */
  method EncodeNumber(n: nat) returns (s: string)
    ensures s == Numeral(n)
  {
    var num := n;
    var result: string := "";
    while num > 0
      invariant Numeral(n) == Numeral(num) + Reversed(result)
    {
      ghost var before, sofar := num, result;
      var r := num % 58;
      num := num / 58;
      result := result + [CharOf(r)];
      assert result[..|result| - 1] == sofar;
      assert Numeral(before) + Reversed(sofar) == Numeral(num) + ([CharOf(r)] + Reversed(sofar));
    }
    s := Reversed(result);
  }

  method IdentityEncode(data: bytes) returns (s: string)
    ensures s == IdentityForm(data)
  {
    var count := 0;
    for i := 0 to |data|
      invariant count == i && LeadingZeros(data) == count + LeadingZeros(data[i..])
    {
      assert data[i..][1..] == data[i + 1..];
      if data[i] == 0 {
        count := count + 1;
      } else {
        break;
      }
    }
    var digits := EncodeNumber(Number(data));
    s := Ones(count) + digits;
  }

  method TransportEncode(data: bytes) returns (s: string)
    ensures s == TransportForm(data)
  {
    var count := 0;
    for i := 0 to |data|
      invariant count + ZeroBytes(data[i..]) == ZeroBytes(data)
    {
      assert data[i..][1..] == data[i + 1..];
      if data[i] == 0 {
        count := count + 1;
      }
    }
    var digits := EncodeNumber(Number(data));
    s := Ones(count) + digits;
  }

  // --- a decoder for the identity form ------------------------------------------

  function ValueOf(c: char): Option<int> {
    ValueFrom(c, 0)
  }

  /** The first position of c in the alphabet at or after k. */
  function ValueFrom(c: char, k: nat): (d: Option<int>)
    requires k <= |ALPHABET|
    ensures d.Some? ==> k <= d.value < 58 && ALPHABET[d.value] == c
    decreases |ALPHABET| - k
  {
    if k == |ALPHABET| then None else if ALPHABET[k] == c then Some(k) else ValueFrom(c, k + 1)
  }

  function NumeralValue(s: string): Option<nat> {
    if |s| == 0 then Some(0)
    else
      var front, last := NumeralValue(s[..|s| - 1]), ValueOf(s[|s| - 1]);
      if front.None? || last.None? then None else Some(58 * front.value + last.value)
  }

  function LeadingOnes(s: string): (n: nat)
    ensures n <= |s|
  {
    if |s| > 0 && s[0] == '1' then 1 + LeadingOnes(s[1..]) else 0
  }

  /** The bytes of n without leading zeros. */
  function ShortestBytes(n: nat): bytes {
    if n == 0 then [] else ShortestBytes(n / 256) + [n % 256]
  }

  function Decode(s: string): Option<bytes> {
    var ones := LeadingOnes(s);
    var n := NumeralValue(s[ones..]);
    if n.None? then None else Some(Zeros(ones) + ShortestBytes(n.value))
  }

  lemma AlphabetDistinct(i: nat, j: nat)
    requires i < 58 && j < 58 && ALPHABET[i] == ALPHABET[j]
    ensures i == j
  {
    Alphabetical(i);
    Alphabetical(j);
  }

  /** Where each character stands in the alphabet. */
  function Place(c: char): int {
    if c <= '9' then c as int - '1' as int
    else if c <= 'H' then 9 + (c as int - 'A' as int)
    else if c <= 'N' then 17 + (c as int - 'J' as int)
    else if c <= 'Z' then 22 + (c as int - 'P' as int)
    else if c <= 'k' then 33 + (c as int - 'a' as int)
    else 44 + (c as int - 'm' as int)
  }

  lemma Alphabetical(i: nat)
    requires i < 58
    ensures Place(ALPHABET[i]) == i
  {
    if i < 9 {
      assert ALPHABET[i] == ('1' as int + i) as char;
    } else if i < 17 {
      assert ALPHABET[i] == ('A' as int + i - 9) as char;
    } else if i < 22 {
      assert ALPHABET[i] == ('J' as int + i - 17) as char;
    } else if i < 33 {
      assert ALPHABET[i] == ('P' as int + i - 22) as char;
    } else if i < 44 {
      assert ALPHABET[i] == ('a' as int + i - 33) as char;
    } else {
      assert ALPHABET[i] == ('m' as int + i - 44) as char;
    }
  }

  lemma {:induction false} ValueFromFinds(d: nat, k: nat)
    requires k <= d < 58
    ensures ValueFrom(ALPHABET[d], k) == Some(d)
    decreases d - k
  {
    if ALPHABET[k] == ALPHABET[d] { AlphabetDistinct(k, d); } else { ValueFromFinds(d, k + 1); }
  }

  lemma {:induction false} NumeralRoundTrip(n: nat)
    ensures NumeralValue(Numeral(n)) == Some(n)
    ensures n > 0 ==> |Numeral(n)| > 0 && Numeral(n)[0] != '1'
  {
    hide ValueOf, CharOf, Numeral, NumeralValue;
    NumeralStep(n);
    if n > 0 {
      NumeralRoundTrip(n / 58);
      CharRoundTrip(n % 58);
      NumeralValueStep(Numeral(n / 58), CharOf(n % 58));
    }
  }

  lemma NumeralStep(n: nat)
    ensures Numeral(0) == "" && NumeralValue("") == Some(0)
    ensures n > 0 ==> Numeral(n) == Numeral(n / 58) + [CharOf(n % 58)]
  {
    hide CharOf;
  }

  lemma NumeralValueStep(front: string, c: char)
    requires NumeralValue(front).Some? && ValueOf(c).Some?
    ensures NumeralValue(front + [c]) == Some(58 * NumeralValue(front).value + ValueOf(c).value)
  {
    hide ValueOf;
    assert (front + [c])[..|front|] == front;
  }

  lemma CharRoundTrip(d: nat)
    requires d < 58
    ensures ValueOf(CharOf(d)) == Some(d) && (d > 0 ==> CharOf(d) != '1')
  {
    ValueFromFinds(d, 0);
    if d > 0 { AlphabetDistinctFromOne(d); }
  }

  lemma AlphabetDistinctFromOne(d: nat)
    requires 0 < d < 58
    ensures ALPHABET[d] != '1'
  {
    Alphabetical(d);
  }

  lemma MoreZeros(z: nat)
    ensures Zeros(z + 1) == [0] + Zeros(z)
  {
  }

  lemma {:induction false} SplitZeros(data: bytes)
    ensures var z := LeadingZeros(data);
      && data == Zeros(z) + data[z..] && (z < |data| ==> data[z] != 0)
  {
    if |data| > 0 && data[0] == 0 {
      SplitZeros(data[1..]);
      var z := LeadingZeros(data[1..]);
      MoreZeros(z);
      assert data[1..][z..] == data[z + 1..];
      calc {
        data;
        [0] + data[1..];
        [0] + (Zeros(z) + data[z + 1..]);
        [0] + Zeros(z) + data[z + 1..];
        Zeros(z + 1) + data[z + 1..];
      }
    }
  }

  lemma {:induction false} FromZeros(n: nat)
    ensures FromDigits(Zeros(n), 256) == 0
  {
    if n > 0 { assert Zeros(n)[..n - 1] == Zeros(n - 1); FromZeros(n - 1); }
  }

  lemma NumberIgnoresZeros(z: nat, body: bytes)
    ensures Number(Zeros(z) + body) == Number(body)
  {
    FromDigitsConcat(Zeros(z), body, 256);
    FromZeros(z);
    assert 0 * Pow(256, |body|) == 0;
  }

  lemma {:induction false} ShortestRoundTrip(body: bytes)
    requires |body| > 0 ==> body[0] != 0
    ensures ShortestBytes(Number(body)) == body
    ensures |body| > 0 ==> Number(body) > 0
  {
    if |body| > 0 {
      var front := body[..|body| - 1];
      assert body == front + [body[|body| - 1]];
      FromDigitsBound(front, 256);
      ShortestRoundTrip(front);
    }
  }

  lemma {:induction false} LeadingOnesOf(n: nat, tail: string)
    requires |tail| > 0 ==> tail[0] != '1'
    ensures LeadingOnes(Ones(n) + tail) == n && (Ones(n) + tail)[n..] == tail
  {
    if n > 0 {
      assert (Ones(n) + tail)[1..] == Ones(n - 1) + tail;
      LeadingOnesOf(n - 1, tail);
    } else {
      assert Ones(0) + tail == tail;
    }
  }

  /** The decoder inverts the identity form on every byte string. */
  lemma DecodeIdentity(data: bytes)
    ensures Decode(IdentityForm(data)) == Some(data)
  {
    var z := LeadingZeros(data);
    SplitZeros(data);
    NumberIgnoresZeros(z, data[z..]);
    ShortestRoundTrip(data[z..]);
    NumeralRoundTrip(Number(data));
    LeadingOnesOf(z, Numeral(Number(data)));
  }

  lemma IdentityInjective(a: bytes, b: bytes)
    requires IdentityForm(a) == IdentityForm(b)
    ensures a == b
  {
    DecodeIdentity(a);
    DecodeIdentity(b);
  }

  // --- length -------------------------------------------------------------------

  lemma {:induction false} NumeralLength(n: nat, k: nat)
    requires n < Pow(58, k)
    ensures |Numeral(n)| <= k
  {
    if n > 0 { NumeralLength(n / 58, k - 1); }
  }

  /** 58^11 exceeds 2^64, so 44 digits hold 32 bytes. */
  lemma ElevenDigits()
    ensures Pow(256, 8) <= Pow(58, 11)
  {
    assert Pow(256, 4) == 0x1_0000_0000;
    PowAdd(256, 4, 4);
    assert Pow(58, 5) == 656356768;
    PowAdd(58, 5, 5);
    PowAdd(58, 10, 1);
    assert Pow(58, 1) == 58;
  }

  lemma SquareMono(a: nat, b: nat)
    requires a <= b
    ensures a * a <= b * b
  {
    MulMono(a, b, a);
    MulMono(a, b, b);
  }

  lemma FullLength()
    ensures Pow(256, 32) <= Pow(58, 44)
  {
    ElevenDigits();
    PowAdd(256, 8, 8);
    PowAdd(58, 11, 11);
    SquareMono(Pow(256, 8), Pow(58, 11));
    PowAdd(256, 16, 16);
    PowAdd(58, 22, 22);
    SquareMono(Pow(256, 16), Pow(58, 22));
  }

  /** Dropping a byte frees more than one digit, so shorter inputs fit with room for their ones. */
  lemma {:induction false} ShorterLength(m: nat)
    requires m <= 32
    ensures Pow(256, m) <= Pow(58, m + 12)
    decreases 32 - m
  {
    if m == 32 {
      FullLength();
    } else {
      ShorterLength(m + 1);
      var a, b := Pow(256, m), Pow(58, m + 12);
      assert 256 * a <= 58 * b;
      assert a >= 0 && b >= 0;
    }
  }

  /** A 32-byte digest takes at most 44 characters. */
  lemma DigestLength(data: bytes)
    requires |data| == 32
    ensures |IdentityForm(data)| <= 44
  {
    var z := LeadingZeros(data);
    SplitZeros(data);
    NumberIgnoresZeros(z, data[z..]);
    FromDigitsBound(data[z..], 256);
    ShorterLength(32 - z);
    NumeralLength(Number(data), 44 - z);
  }

  // --- the two encoders compared ---------------------------------------------------

  ghost predicate ZerosOnlyLead(data: bytes) {
    forall i, j :: 0 <= i < j < |data| && data[j] == 0 ==> data[i] == 0
  }

  lemma ZerosOnlyLeadTail(data: bytes)
    requires |data| > 0 && data[0] == 0
    ensures ZerosOnlyLead(data) <==> ZerosOnlyLead(data[1..])
  {
    var tail := data[1..];
    if ZerosOnlyLead(tail) {
      forall i, j | 0 <= i < j < |data| && data[j] == 0 ensures data[i] == 0 {
        if i > 0 { assert tail[j - 1] == 0 && tail[i - 1] == data[i]; }
      }
    }
    if ZerosOnlyLead(data) {
      forall i, j | 0 <= i < j < |tail| && tail[j] == 0 ensures tail[i] == 0 {
        assert data[j + 1] == 0 && data[i + 1] == tail[i];
      }
    }
  }

  lemma {:induction false} CountsAgree(data: bytes)
    ensures LeadingZeros(data) <= ZeroBytes(data)
    ensures LeadingZeros(data) == ZeroBytes(data) <==> ZerosOnlyLead(data)
  {
    if |data| > 0 {
      var tail := data[1..];
      CountsAgree(tail);
      if data[0] == 0 {
        ZerosOnlyLeadTail(data);
      } else {
        NoZeroBytes(tail);
      }
    }
  }

  lemma {:induction false} NoZeroBytes(data: bytes)
    ensures ZeroBytes(data) == 0 <==> forall j :: 0 <= j < |data| ==> data[j] != 0
  {
    if |data| > 0 {
      NoZeroBytes(data[1..]);
      if ZeroBytes(data[1..]) != 0 {
        var j :| 0 <= j < |data[1..]| && data[1..][j] == 0;
        assert data[j + 1] == 0;
      }
    }
  }

  /** The two encoders agree exactly on the inputs whose zero bytes all lead. */
  lemma EncodersAgree(data: bytes)
    ensures IdentityForm(data) == TransportForm(data) <==> ZerosOnlyLead(data)
  {
    CountsAgree(data);
    assert |IdentityForm(data)| == LeadingZeros(data) + |Numeral(Number(data))|;
    assert |TransportForm(data)| == ZeroBytes(data) + |Numeral(Number(data))|;
  }

  lemma {:induction false} ZeroBytesConcat(z: nat, body: bytes)
    ensures ZeroBytes(Zeros(z) + body) == z + ZeroBytes(body)
  {
    if z > 0 {
      assert (Zeros(z) + body)[1..] == Zeros(z - 1) + body;
      ZeroBytesConcat(z - 1, body);
    } else {
      assert Zeros(0) + body == body;
    }
  }

  /** The transport form, though not decodable in the same way, never maps two inputs to one string. */
  lemma TransportInjective(a: bytes, b: bytes)
    requires TransportForm(a) == TransportForm(b)
    ensures a == b
  {
    NumeralRoundTrip(Number(a));
    NumeralRoundTrip(Number(b));
    LeadingOnesOf(ZeroBytes(a), Numeral(Number(a)));
    LeadingOnesOf(ZeroBytes(b), Numeral(Number(b)));
    var y, z := LeadingZeros(a), LeadingZeros(b);
    SplitZeros(a);
    SplitZeros(b);
    NumberIgnoresZeros(y, a[y..]);
    NumberIgnoresZeros(z, b[z..]);
    ShortestRoundTrip(a[y..]);
    ShortestRoundTrip(b[z..]);
    ZeroBytesConcat(y, a[y..]);
    ZeroBytesConcat(z, b[z..]);
  }

  // --- node ids -------------------------------------------------------------------

  const NODE_ID_PREFIX: string := "NRL1"

  /** The id a node gives itself, from the digest of its public key. */
  function IdentityNodeId(digest: bytes): string {
    NODE_ID_PREFIX + IdentityForm(digest)
  }

  /** The id the handshake derives for the remote node from the same digest. */
  function TransportNodeId(digest: bytes): string {
    NODE_ID_PREFIX + TransportForm(digest)
  }

  /** The handshake names a peer by its own id exactly when its digest has no zero byte after a non-zero one. */
  lemma NodeIdsAgree(digest: bytes)
    requires |digest| == 32
    ensures IdentityNodeId(digest) == TransportNodeId(digest) <==> ZerosOnlyLead(digest)
    ensures |IdentityNodeId(digest)| <= 48
  {
    EncodersAgree(digest);
    DigestLength(digest);
    assert IdentityNodeId(digest)[4..] == IdentityForm(digest);
    assert TransportNodeId(digest)[4..] == TransportForm(digest);
  }

  /** A digest on which the two ids differ: a non-zero byte followed by a zero byte. */
  lemma NodeIdsDiffer()
    ensures var digest := [1] + Zeros(31); IdentityNodeId(digest) != TransportNodeId(digest)
  {
    var digest: bytes := [1] + Zeros(31);
    NodeIdsAgree(digest);
    assert digest[1] == 0 && digest[0] != 0;
  }

  lemma OneByte(a: byte)
    ensures Number([a]) == a && LeadingZeros([a]) == ZeroBytes([a]) == (if a == 0 then 1 else 0)
  {
    assert [a][..0] == [] && [a][1..] == [];
    assert FromDigits([], 256) == 0 && LeadingZeros([]) == 0 && ZeroBytes([]) == 0;
  }

  lemma OneMoreByte(data: bytes, a: byte, all: bytes)
    requires all == data + [a]
    ensures Number(all) == Number(data) * 256 + a
  {
    assert all[..|data|] == data;
  }

  lemma SmallNumerals()
    ensures Numeral(1) == "2" && Numeral(97) == "2g" && Numeral(256) == "5R"
  {
    assert Numeral(0) == "" && Numeral(1) == "" + [CharOf(1)] && Numeral(4) == "" + [CharOf(4)];
    assert Numeral(97) == Numeral(1) + [CharOf(39)] && Numeral(256) == Numeral(4) + [CharOf(24)];
  }

  /** Small examples: a letter, leading zeros, and a zero that does not lead. */
  lemma Examples()
    ensures IdentityForm([97]) == TransportForm([97]) == "2g"
    ensures IdentityForm([0, 0, 1]) == TransportForm([0, 0, 1]) == "112"
    ensures IdentityForm([1, 0]) == "5R" && TransportForm([1, 0]) == "15R"
  {
    SmallNumerals();
    OneByte(97);
    OneByte(1);
    OneByte(0);
    OneMoreByte([1], 0, [1, 0]);
    OneMoreByte([0], 0, [0, 0]);
    OneMoreByte([0, 0], 1, [0, 0, 1]);
    assert [0, 0, 1][1..] == [0, 1] && [0, 1][1..] == [1] && [1, 0][1..] == [0];
    assert LeadingZeros([0, 0, 1]) == 2 && ZeroBytes([0, 0, 1]) == 2 && LeadingZeros([1, 0]) == 0 && ZeroBytes([1, 0]) == 1;
    assert Ones(0) == "" && Ones(1) == "1" && Ones(2) == "11";
    hide Numeral, Number, LeadingZeros, ZeroBytes, Ones;
    assert "11" + "2" == "112" && "1" + "5R" == "15R" && "" + "5R" == "5R" && "" + "2g" == "2g";
  }
}
