/** Content identifiers: binary form, string form, and parsing both. */
module Cid {
  import opened Common
  import opened Varint
  import Base32

  type Digest = d: bytes | |d| == 32 witness Zeros(32)

  datatype Codec = Raw | DagPb | DagCbor | Json {
    function Code(): nat {
      match this
      case Raw => 0x55
      case DagPb => 0x70
      case DagCbor => 0x71
      case Json => 0x0200
    }
  }

  function CodecOf(code: nat): Option<Codec> {
    if code == 0x55 then Some(Raw)
    else if code == 0x70 then Some(DagPb)
    else if code == 0x71 then Some(DagCbor)
    else if code == 0x0200 then Some(Json)
    else None
  }

  datatype CID = CID(digest: Digest, codec: Codec)

  /** Why a CID does not parse; Python raises ValueError for each. */
  datatype CidError =
    | NotBase32Prefix
    | InvalidBase32
    | UnsupportedVersion(version: nat)
    | UnknownCodec(code: nat)
    | UnsupportedHash(hashFn: nat)
    | WrongDigestLength(length: nat)
    | Truncated

  const HASH_SHA2_256: nat := 0x12
  const HASH_SHA2_256_LEN: nat := 32

  /** version, codec, hash function and digest length as varints, then the digest. */
  function ToBinary(cid: CID): bytes {
    VarintBytes(1) + VarintBytes(cid.codec.Code())
    + VarintBytes(HASH_SHA2_256) + VarintBytes(HASH_SHA2_256_LEN) + cid.digest
  }

  function FromBinary(data: bytes): Result<CID, CidError> {
    var (version, afterVersion) := DecodeAt(data, 0);
    if version != 1 then Err(UnsupportedVersion(version)) else
    var (code, afterCodec) := DecodeAt(data, afterVersion);
    if CodecOf(code).None? then Err(UnknownCodec(code)) else
    var (hashFn, afterHash) := DecodeAt(data, afterCodec);
    if hashFn != HASH_SHA2_256 then Err(UnsupportedHash(hashFn)) else
    var (length, offset) := DecodeAt(data, afterHash);
    if length != HASH_SHA2_256_LEN then Err(WrongDigestLength(length)) else
    if offset + length > |data| then Err(Truncated)
    else Ok(CID(data[offset..offset + length], CodecOf(code).value))
  }

  function LowerChar(c: char): char {
    if 'A' <= c <= 'Z' then (c as int + 32) as char else c
  }

  function UpperChar(c: char): char {
    if 'a' <= c <= 'z' then (c as int - 32) as char else c
  }

  function Lower(s: string): (t: string)
    ensures |t| == |s|
  {
    seq(|s|, i requires 0 <= i < |s| => LowerChar(s[i]))
  }

  function Upper(s: string): (t: string)
    ensures |t| == |s|
  {
    seq(|s|, i requires 0 <= i < |s| => UpperChar(s[i]))
  }

  predicate IsSpace(c: char) {
    var n := c as int;
    9 <= n <= 13 || 28 <= n <= 32 || n == 0x85 || n == 0xA0 || n == 0x1680 || 0x2000 <= n <= 0x200A
    || n == 0x2028 || n == 0x2029 || n == 0x202F || n == 0x205F || n == 0x3000
  }

  /** The string without white space at either end. */
  function Strip(s: string): string
    decreases |s|
  {
    if |s| > 0 && IsSpace(s[0]) then Strip(s[1..])
    else if |s| > 0 && IsSpace(s[|s| - 1]) then Strip(s[..|s| - 1])
    else s
  }

  /** Multibase prefix 'b', then the lower-case base 32 of the binary form without padding. */
  function ToStr(cid: CID): string {
    "b" + Lower(Base32.Unpadded(Base32.Encode(ToBinary(cid))))
  }

  function FromStr(text: string): Result<CID, CidError> {
    var s := Strip(text);
    if |s| == 0 || s[0] != 'b' then Err(NotBase32Prefix)
    else
      var b32 := Upper(s[1..]);
      var binary := Base32.Decode(b32 + Base32.Equals(Base32.PadFor(b32)));
      if binary.None? then Err(InvalidBase32) else FromBinary(binary.value)
  }

  /** The byte-building code: four runs of the varint encoder and the digest. */
  method EncodeBinary(cid: CID) returns (data: bytes)
    ensures data == ToBinary(cid)
  {
    var version := EncodeVarint(1);
    var codec := EncodeVarint(cid.codec.Code());
    var hashFn := EncodeVarint(HASH_SHA2_256);
    var length := EncodeVarint(HASH_SHA2_256_LEN);
    data := version + codec + hashFn + length + cid.digest;
  }

  // --- round trips ------------------------------------------------------------

  /** Parsing the binary form returns the CID, whatever follows it. */
  lemma BinaryRoundTrip(cid: CID, suffix: bytes)
    ensures FromBinary(ToBinary(cid) + suffix) == Ok(cid)
  {
    var v, c := VarintBytes(1), VarintBytes(cid.codec.Code());
    var h, l := VarintBytes(HASH_SHA2_256), VarintBytes(HASH_SHA2_256_LEN);
    var data := ToBinary(cid) + suffix;
    assert data == [] + v + (c + h + l + cid.digest + suffix);
    DecodeEncode([], 1, c + h + l + cid.digest + suffix);
    assert data == v + c + (h + l + cid.digest + suffix);
    DecodeEncode(v, cid.codec.Code(), h + l + cid.digest + suffix);
    assert data == (v + c) + h + (l + cid.digest + suffix);
    DecodeEncode(v + c, HASH_SHA2_256, l + cid.digest + suffix);
    assert data == (v + c + h) + l + (cid.digest + suffix);
    DecodeEncode(v + c + h, HASH_SHA2_256_LEN, cid.digest + suffix);
    assert data[|v + c + h + l|..|v + c + h + l| + 32] == cid.digest;
  }

  /** The bytes of the binary form, for each codec. */
  lemma BinaryLayout(cid: CID)
    ensures var code: bytes := match cid.codec case Raw => [0x55] case DagPb => [0x70] case DagCbor => [0x71] case Json => [0x80, 0x04];
      ToBinary(cid) == [1] + code + [0x12, 0x20] + cid.digest
  {
    assert VarintBytes(0x0200) == [0x80] + VarintBytes(4) && VarintBytes(4) == [4];
    assert VarintBytes(1) == [1] && VarintBytes(0x12) == [0x12] && VarintBytes(32) == [0x20];
  }

  lemma VarintIn(data: bytes, p: bytes, e: bytes, s: bytes, at: nat)
    requires IsVarint(e) && data == p + (e + s) && at == |p|
    ensures DecodeAt(data, at) == (GroupSum(e), at + |e|)
  {
    hide IsVarint, GroupSum, DecodeAt;
    Regroup(p, e, s);
    DecodeIsSum(p, e, s);
  }

  lemma FourVarints(v: bytes, c: bytes, h: bytes, l: bytes, rest: bytes, data: bytes)
    requires IsVarint(v) && IsVarint(c) && IsVarint(h) && IsVarint(l) && data == v + c + h + l + rest
    ensures DecodeAt(data, 0) == (GroupSum(v), |v|) && DecodeAt(data, |v|) == (GroupSum(c), |v| + |c|)
    ensures DecodeAt(data, |v| + |c|) == (GroupSum(h), |v| + |c| + |h|)
    ensures DecodeAt(data, |v| + |c| + |h|) == (GroupSum(l), |v| + |c| + |h| + |l|)
  {
    hide IsVarint, GroupSum, DecodeAt;
    FirstTwo(v, c, h, l, rest, data);
    SecondTwo(v, c, h, l, rest, data);
  }

  lemma FirstTwo(v: bytes, c: bytes, h: bytes, l: bytes, rest: bytes, data: bytes)
    requires IsVarint(v) && IsVarint(c) && data == v + c + h + l + rest
    ensures DecodeAt(data, 0) == (GroupSum(v), |v|) && DecodeAt(data, |v|) == (GroupSum(c), |v| + |c|)
  {
    hide IsVarint, GroupSum, DecodeAt;
    var s := Tail(v + c, h, l, rest, data);
    Regroup(v, c, s);
    VarintIn(data, v, c, s, |v|);
    assert data == [] + (v + (c + s));
    VarintIn(data, [], v, c + s, 0);
  }

  lemma SecondTwo(v: bytes, c: bytes, h: bytes, l: bytes, rest: bytes, data: bytes)
    requires IsVarint(h) && IsVarint(l) && data == v + c + h + l + rest
    ensures DecodeAt(data, |v| + |c|) == (GroupSum(h), |v| + |c| + |h|)
    ensures DecodeAt(data, |v| + |c| + |h|) == (GroupSum(l), |v| + |c| + |h| + |l|)
  {
    hide IsVarint, GroupSum, DecodeAt;
    var p := v + c;
    assert |p| == |v| + |c|;
    SplitAt(p, h, l, rest, data);
  }

  lemma SplitAt(p: bytes, h: bytes, l: bytes, rest: bytes, data: bytes)
    requires IsVarint(h) && IsVarint(l) && data == p + h + l + rest
    ensures DecodeAt(data, |p|) == (GroupSum(h), |p| + |h|)
    ensures DecodeAt(data, |p| + |h|) == (GroupSum(l), |p| + |h| + |l|)
  {
    hide IsVarint, GroupSum, DecodeAt;
    Regroup(p + h, l, rest);
    VarintIn(data, p + h, l, rest, |p| + |h|);
    Regroup(p, h, l + rest);
    VarintIn(data, p, h, l + rest, |p|);
  }

  lemma Tail(p: bytes, h: bytes, l: bytes, rest: bytes, data: bytes) returns (s: bytes)
    requires data == p + h + l + rest
    ensures data == p + s
  {
    Regroup(p + h, l, rest);
    Regroup(p, h, l + rest);
    s := h + (l + rest);
  }

  lemma Regroup(a: bytes, b: bytes, c: bytes)
    ensures a + (b + c) == (a + b) + c
  {
  }

  /** What any four varints and the bytes after them are parsed as, and why they are refused. */
  lemma BinaryMeaning(v: bytes, c: bytes, h: bytes, l: bytes, rest: bytes)
    requires IsVarint(v) && IsVarint(c) && IsVarint(h) && IsVarint(l)
    ensures GroupSum(v) >= 0 && GroupSum(c) >= 0 && GroupSum(h) >= 0 && GroupSum(l) >= 0
    ensures FromBinary(v + c + h + l + rest) ==
      if GroupSum(v) != 1 then Err(UnsupportedVersion(GroupSum(v)))
      else if GroupSum(c) !in {0x55, 0x70, 0x71, 0x0200} then Err(UnknownCodec(GroupSum(c)))
      else if GroupSum(h) != 0x12 then Err(UnsupportedHash(GroupSum(h)))
      else if GroupSum(l) != 32 then Err(WrongDigestLength(GroupSum(l)))
      else if |rest| < 32 then Err(Truncated)
      else Ok(CID(rest[..32], if GroupSum(c) == 0x55 then Raw else if GroupSum(c) == 0x70 then DagPb
                              else if GroupSum(c) == 0x71 then DagCbor else Json))
  {
    hide GroupSum, IsVarint, DecodeAt;
    FourVarints(v, c, h, l, rest, v + c + h + l + rest);
    var data, n := v + c + h + l + rest, |v| + |c| + |h| + |l|;
    assert |data| == n + |rest|;
    if |rest| >= 32 { assert data[n..n + 32] == rest[..32]; }
  }

  /** A string is refused for its first character exactly if, without the white space around it, it does not begin with
      the multibase prefix of base 32. */
  lemma PrefixRequired(text: string)
    ensures FromStr(text) == Err(NotBase32Prefix) <==> Strip(text) == "" || Strip(text)[0] != 'b'
  {
    hide Strip, FromBinary, Upper;
    var s := Strip(text);
    if |s| > 0 && s[0] == 'b' {
      var binary := Base32.Decode(Upper(s[1..]) + Base32.Equals(Base32.PadFor(Upper(s[1..]))));
      if binary.Some? { NeverPrefix(binary.value); }
    }
  }

  lemma NeverPrefix(data: bytes)
    ensures FromBinary(data) != Err(NotBase32Prefix) && FromBinary(data) != Err(InvalidBase32)
  {
  }

  /** A letter of either case or a digit from 2 to 7. */
  predicate Readable(c: char) {
    'a' <= c <= 'z' || 'A' <= c <= 'Z' || '2' <= c <= '7'
  }

  lemma UpperReadable(s: string)
    ensures Base32.InAlphabet(Upper(s)) <==> forall i :: 0 <= i < |s| ==> Readable(s[i])
  {
    forall i | 0 <= i < |s| ensures Base32.ValueOf(Upper(s)[i]).Some? <==> Readable(s[i]) {
      assert Upper(s)[i] == UpperChar(s[i]);
    }
    if Base32.InAlphabet(Upper(s)) {
      forall i | 0 <= i < |s| ensures Readable(s[i]) { assert Base32.ValueOf(Upper(s)[i]).Some?; }
    }
  }

  lemma UpperEquals(c: string, k: nat)
    ensures Upper(c + Base32.Equals(k)) == Upper(c) + Base32.Equals(k)
  {
  }

  lemma {:induction false} TrailingPadding(c: string, n: nat)
    requires c == "" || c[|c| - 1] != '='
    ensures Base32.Padding(c + Base32.Equals(n)) == n && Base32.Unpadded(c + Base32.Equals(n)) == c
  {
    var s := c + Base32.Equals(n);
    if n == 0 {
      assert s == c;
    } else {
      assert s[..|s| - 1] == c + Base32.Equals(n - 1);
      TrailingPadding(c, n - 1);
    }
  }

  lemma DecodeRefuses(c: string, k: nat)
    requires c == "" || c[|c| - 1] != '='
    ensures var b32 := Upper(c + Base32.Equals(k));
      Base32.Decode(b32 + Base32.Equals(Base32.PadFor(b32))).Some?
      <==> k + Base32.PadCount(|c| + k) in {0, 1, 3, 4, 6} && forall i :: 0 <= i < |c| ==> Readable(c[i])
  {
    hide Base32.Padding, Base32.Unpadded, Base32.InAlphabet, Base32.PadCount, Base32.Decode, Readable;
    var pad := Base32.PadCount(|c| + k);
    UpperEquals(c, k);
    EqualsConcat(Upper(c), k, pad);
    LastOfUpper(c);
    hide Upper, Base32.Equals;
    TrailingPadding(Upper(c), k + pad);
    Base32.PadCompletes(|c| + k);
    UpperReadable(c);
    Base32.DecodeAccepts(Upper(c) + Base32.Equals(k + pad));
    assert |Upper(c) + Base32.Equals(k + pad)| == |c| + k + pad by { EqualsLength(k + pad); }
    assert |Upper(c + Base32.Equals(k))| == |c| + k by { EqualsLength(k); }
  }

  lemma EqualsLength(n: nat)
    ensures |Base32.Equals(n)| == n
  {
  }

  lemma EqualsConcat(c: string, j: nat, k: nat)
    ensures c + Base32.Equals(j) + Base32.Equals(k) == c + Base32.Equals(j + k)
  {
  }

  lemma LastOfUpper(c: string)
    ensures c == "" || c[|c| - 1] != '=' ==> Upper(c) == "" || Upper(c)[|c| - 1] != '='
  {
  }

  /** A string with the prefix is refused by the base 32 decoder exactly if a character before the trailing equal signs is
      neither a letter of either case nor a digit from 2 to 7, or padding it to a multiple of eight takes an amount
      that no encoding has. */
  lemma BodyRefused(text: string, c: string, k: nat)
    requires Strip(text) == "b" + c + Base32.Equals(k) && (c == "" || c[|c| - 1] != '=')
    ensures FromStr(text) == Err(InvalidBase32) <==>
      k + Base32.PadCount(|c| + k) !in {0, 1, 3, 4, 6} || exists i :: 0 <= i < |c| && !Readable(c[i])
  {
    hide Strip, FromBinary, Upper, Readable, Base32.Decode, Base32.PadCount;
    DecodeRefuses(c, k);
    assert Strip(text)[1..] == c + Base32.Equals(k);
    var b32 := Upper(c + Base32.Equals(k));
    var binary := Base32.Decode(b32 + Base32.Equals(Base32.PadFor(b32)));
    if binary.Some? { NeverPrefix(binary.value); }
  }

  /** The characters of a printed CID after the multibase prefix start with the base 32 of its first five bytes. */
  lemma FirstChars(cid: CID)
    ensures |ToBinary(cid)| >= 5 && |ToStr(cid)| >= 3
    ensures ToStr(cid)[1..3] == Lower(Base32.Quantum(ToBinary(cid)[..5])[..2])
  {
    BinaryLayout(cid);
    hide ToBinary, Base32.Encode, Base32.Unpadded, Base32.Quantum, Lower;
    var tail := Base32.UnpaddedStart(ToBinary(cid));
    LowerStart(Base32.Quantum(ToBinary(cid)[..5]), tail);
  }

  lemma LowerStart(q: string, tail: string)
    requires |q| >= 2
    ensures Lower(q + tail)[..2] == Lower(q[..2])
  {
  }

  /** Every printed CID begins with the same three characters for all codecs but JSON: what follows the prefix encodes
      the version and the first bits of the codec. */
  lemma FirstThree(cid: CID)
    ensures |ToStr(cid)| >= 3 && ToStr(cid)[..3] == if cid.codec == Json then "bag" else "baf"
  {
    FirstChars(cid);
    BinaryLayout(cid);
    var g := ToBinary(cid)[..5];
    Base32.QuantumFront(g);
    assert g[0] == 1;
    assert ToStr(cid)[0] == 'b';
    assert ToStr(cid)[..3] == ['b'] + ToStr(cid)[1..3];
    hide ToStr, ToBinary, Base32.Quantum, Base32.Unpadded, Base32.Encode;
  }

  lemma UpperLower(c: string)
    requires Base32.InAlphabet(c)
    ensures Upper(Lower(c)) == c
  {
    forall i | 0 <= i < |c| ensures UpperChar(LowerChar(c[i])) == c[i] {
      assert Base32.ValueOf(c[i]).Some?;
    }
  }

  lemma ToStrEnds(cid: CID)
    ensures var s := ToStr(cid); |s| > 1 && !IsSpace(s[0]) && !IsSpace(s[|s| - 1])
    ensures Strip(ToStr(cid)) == ToStr(cid)
  {
    var c := Base32.Unpadded(Base32.Encode(ToBinary(cid)));
    Base32.UnpaddedRecovers(ToBinary(cid));
    VarintLength(1);
    assert |ToBinary(cid)| > 0;
    assert Base32.ValueOf(c[|c| - 1]).Some?;
    var s := ToStr(cid);
    assert s[|s| - 1] == LowerChar(c[|c| - 1]);
  }

  /** Printing a CID and parsing the string gives the CID back, for every digest and codec. */
  lemma StrRoundTrip(cid: CID)
    ensures FromStr(ToStr(cid)) == Ok(cid)
  {
    var binary := ToBinary(cid);
    var c := Base32.Unpadded(Base32.Encode(binary));
    Base32.UnpaddedRecovers(binary);
    UpperLower(c);
    ToStrEnds(cid);
    assert ToStr(cid)[1..] == Lower(c);
    Base32.DecodeEncode(binary);
    BinaryRoundTrip(cid, []);
    assert binary + [] == binary;
  }

  lemma {:induction false} StripPadded(s: string, before: string, after: string)
    requires |s| > 0 && !IsSpace(s[0]) && !IsSpace(s[|s| - 1])
    requires forall i :: 0 <= i < |before| ==> IsSpace(before[i])
    requires forall i :: 0 <= i < |after| ==> IsSpace(after[i])
    ensures Strip(before + s + after) == s
    decreases |before| + |after|
  {
    var t := before + s + after;
    if |before| > 0 {
      assert t[1..] == before[1..] + s + after;
      StripPadded(s, before[1..], after);
    } else if |after| > 0 {
      assert t[..|t| - 1] == before + s + after[..|after| - 1];
      StripPadded(s, before, after[..|after| - 1]);
    } else {
      assert t == s;
    }
  }

  /** White space around the string does not matter. */
  lemma PaddedStrRoundTrip(cid: CID, before: string, after: string)
    requires forall i :: 0 <= i < |before| ==> IsSpace(before[i])
    requires forall i :: 0 <= i < |after| ==> IsSpace(after[i])
    ensures FromStr(before + ToStr(cid) + after) == Ok(cid)
  {
    ToStrEnds(cid);
    StripPadded(ToStr(cid), before, after);
    StripPadded(ToStr(cid), "", "");
    assert "" + ToStr(cid) + "" == ToStr(cid);
    StrRoundTrip(cid);
  }

  /** Different CIDs have different strings. */
  lemma ToStrInjective(a: CID, b: CID)
    requires ToStr(a) == ToStr(b)
    ensures a == b
  {
    StrRoundTrip(a);
    StrRoundTrip(b);
  }
}
