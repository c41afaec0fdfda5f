/** Base 32 with padding, as section 6 of RFC 4648 defines it. */
module Base32 {
  import opened Common
  import opened Digits

  const ALPHABET: string := "ABCDEFGHIJKLMNOPQRSTUVWXYZ234567"

  function CharOf(d: int): (c: char)
    requires 0 <= d < 32
  {
    ALPHABET[d]
  }

  /** The value of an alphabet character; None for any other character. */
  function ValueOf(c: char): (d: Option<int>)
    ensures d.Some? ==> 0 <= d.value < 32
  {
    if 'A' <= c <= 'Z' then Some(c as int - 'A' as int)
    else if '2' <= c <= '7' then Some(26 + (c as int - '2' as int))
    else None
  }

  lemma ValueOfCharOf(d: int)
    requires 0 <= d < 32
    ensures ValueOf(CharOf(d)) == Some(d)
  {
    if d < 26 {
      assert ALPHABET[d] == ('A' as int + d) as char;
    } else {
      assert ALPHABET[d] == ('2' as int + (d - 26)) as char;
    }
  }

  predicate InAlphabet(s: string) {
    forall i :: 0 <= i < |s| ==> ValueOf(s[i]).Some?
  }

  function Chars(ds: seq<int>): (s: string)
    requires AllBelow(ds, 32)
    ensures |s| == |ds|
  {
    seq(|ds|, i requires 0 <= i < |ds| => CharOf(ds[i]))
  }

  function Values(s: string): (ds: seq<int>)
    requires InAlphabet(s)
    ensures |ds| == |s| && AllBelow(ds, 32)
  {
    seq(|s|, i requires 0 <= i < |s| => ValueOf(s[i]).value)
  }

  lemma ValuesOfChars(ds: seq<int>)
    requires AllBelow(ds, 32)
    ensures InAlphabet(Chars(ds)) && Values(Chars(ds)) == ds
  {
    forall i | 0 <= i < |ds| ensures ValueOf(Chars(ds)[i]) == Some(ds[i]) { ValueOfCharOf(ds[i]); }
  }

  /** Eight characters for a group of five bytes. */
  function Quantum(group: bytes): (s: string)
    requires |group| == 5
    ensures |s| == 8
  {
    FromDigitsBound(group, 256);
    ToDigitsBelow(FromDigits(group, 256), 32, 8);
    Chars(ToDigits(FromDigits(group, 256), 32, 8))
  }

  /** Characters that carry data when the last group has n bytes. */
  function DataChars(n: nat): nat {
    (8 * n + 4) / 5
  }

  function Equals(n: nat): string {
    seq(n, _ => '=')
  }

  function Encode(s: bytes): string {
    if |s| == 0 then ""
    else if |s| >= 5 then Quantum(s[..5]) + Encode(s[5..])
    else Quantum(s + Zeros(5 - |s|))[..DataChars(|s|)] + Equals(8 - DataChars(|s|))
  }

  /** Number of padding characters at the end of a string. */
  function Padding(s: string): (n: nat)
    ensures n <= |s|
  {
    if |s| > 0 && s[|s| - 1] == '=' then 1 + Padding(s[..|s| - 1]) else 0
  }

  /** The string without its trailing padding. */
  function Unpadded(s: string): string {
    s[..|s| - Padding(s)]
  }

  /** Five bytes for up to eight characters; missing characters count as zero digits. */
  function Group(s: string): (g: bytes)
    requires InAlphabet(s) && |s| <= 8
    ensures |g| == 5
  {
    FromDigitsBound(Values(s), 32);
    PowPositive(32, 8 - |s|);
    MulMono(0, FromDigits(Values(s), 32), Pow(32, 8 - |s|));
    ToDigitsBelow(FromDigits(Values(s), 32) * Pow(32, 8 - |s|), 256, 5);
    ToDigits(FromDigits(Values(s), 32) * Pow(32, 8 - |s|), 256, 5)
  }

  /** The bytes of an unpadded string; its last group keeps the whole bytes it holds. */
  function DecodeChars(s: string): bytes
    requires InAlphabet(s)
  {
    if |s| == 0 then []
    else if |s| >= 8 then Group(s[..8]) + DecodeChars(s[8..])
    else Group(s)[..(43 - 5 * (8 - |s|)) / 8]
  }

  /** Decoding rejects a wrong length, a foreign character and an impossible amount of padding. */
  function Decode(s: string): Option<bytes> {
    var pad := Padding(s);
    if |s| % 8 != 0 || pad !in {0, 1, 3, 4, 6} || !InAlphabet(Unpadded(s)) then None
    else Some(DecodeChars(Unpadded(s)))
  }

  lemma DecodeAccepts(s: string)
    ensures Decode(s).Some? <==> |s| % 8 == 0 && Padding(s) in {0, 1, 3, 4, 6} && InAlphabet(Unpadded(s))
  {
  }

  // --- the round trip -------------------------------------------------------

  lemma PowersAgree()
    ensures Pow(256, 5) == Pow(32, 8) == 0x100_0000_0000
  {
    assert Pow(256, 3) == 0x100_0000;
    assert Pow(32, 5) == 0x200_0000;
    PowAdd(256, 3, 2);
    PowAdd(32, 5, 3);
  }

  lemma GroupOfQuantum(g: bytes)
    requires |g| == 5
    ensures InAlphabet(Quantum(g)) && Group(Quantum(g)) == g
  {
    var v := FromDigits(g, 256);
    FromDigitsBound(g, 256);
    PowersAgree();
    ToDigitsBelow(v, 32, 8);
    ValuesOfChars(ToDigits(v, 32, 8));
    FromToDigits(v, 32, 8);
    ToFromDigits(g, 256);
    assert v * 1 == v;
  }

  lemma {:induction false} FromZeros(n: nat, b: nat)
    ensures FromDigits(Zeros(n), b) == 0
  {
    if n > 0 {
      assert Zeros(n)[..n - 1] == Zeros(n - 1);
      FromZeros(n - 1, b);
    }
  }

  lemma ZerosLength(n: nat)
    ensures |Zeros(n)| == n && forall i :: 0 <= i < n ==> Zeros(n)[i] == 0
  {
  }

  /** The value of a last group ends in as many zero digits as characters are dropped. */
  lemma ShortValue(s: bytes) returns (u: nat)
    requires 1 <= |s| <= 4
    ensures var k := DataChars(|s|);
      u < Pow(32, k) && FromDigits(s + Zeros(5 - |s|), 256) == u * Pow(32, 8 - k)
  {
    hide FromDigits, Pow, Zeros;
    var z := Zeros(5 - |s|);
    assert |z| == 5 - |s| by { ZerosLength(5 - |s|); }
    var j := 8 - DataChars(|s|);
    FromDigitsConcat(s, z, 256);
    FromZeros(5 - |s|, 256);
    FromDigitsBound(s, 256);
    var top := FromDigits(s, 256);
    ByteShift(5 - |s|, j);
    MulMono(0, top, Spare(|s|));
    u := top * Spare(|s|);
    assert top * (Spare(|s|) * Pow(32, j)) == u * Pow(32, j);
    FromDigitsBound(s + z, 256);
    PowersAgree();
    SmallShift(u, 8 - j, j);
  }

  /** A padded last group: the characters dropped stand for zero digits, so nothing is lost. */
  lemma ShortQuantum(s: bytes)
    requires 1 <= |s| <= 4
    ensures var c := Quantum(s + Zeros(5 - |s|))[..DataChars(|s|)];
      && InAlphabet(c) && Group(c) == s + Zeros(5 - |s|)
      && (43 - 5 * (8 - |c|)) / 8 == |s|
  {
    var g := s + Zeros(5 - |s|);
    var k := DataChars(|s|);
    var u := ShortValue(s);
    FromDigitsBound(g, 256);
    var all := ToDigits(FromDigits(g, 256), 32, 8);
    ToDigitsBelow(FromDigits(g, 256), 32, 8);
    ToDigitsShifted(u, 32, k, 8 - k);
    assert all[..k] == ToDigits(u, 32, k);
    var c := Quantum(g)[..k];
    PrefixOfChars(all, k);
    FromToDigits(u, 32, k);
    ToFromDigits(g, 256);
    assert Group(c) == g;
  }

  lemma PrefixOfChars(ds: seq<int>, k: nat)
    requires AllBelow(ds, 32) && k <= |ds|
    ensures InAlphabet(Chars(ds)[..k]) && Values(Chars(ds)[..k]) == ds[..k]
  {
    ValuesOfChars(ds[..k]);
    assert Chars(ds)[..k] == Chars(ds[..k]);
  }

  /** Bits that the zero bytes have beyond the dropped characters, as a factor. */
  function Spare(n: nat): nat
    requires 1 <= n <= 4
  {
    if n == 1 then 4 else if n == 2 then 16 else if n == 3 then 2 else 8
  }

  lemma ByteShift(m: nat, j: nat)
    requires 1 <= m <= 4 && j == 8 - DataChars(5 - m)
    ensures Pow(256, m) == Spare(5 - m) * Pow(32, j)
  {
    assert Pow(256, 1) == 256 && Pow(256, 2) == 0x1_0000;
    PowAdd(256, 2, 1);
    PowAdd(256, 2, 2);
    assert Pow(32, 1) == 32 && Pow(32, 2) == 0x400 && Pow(32, 3) == 0x8000;
    PowAdd(32, 2, 2);
    PowAdd(32, 3, 3);
  }

  lemma SmallShift(u: nat, k: nat, j: nat)
    requires k + j == 8 && u * Pow(32, j) < Pow(32, 8)
    ensures u < Pow(32, k)
  {
    PowAdd(32, k, j);
    PowPositive(32, j);
    MulMono(Pow(32, k), u, Pow(32, j));
  }

  lemma {:induction false} PaddingOfPadded(c: string, n: nat)
    requires InAlphabet(c)
    ensures Padding(c + Equals(n)) == n && Unpadded(c + Equals(n)) == c
  {
    var s := c + Equals(n);
    if n == 0 {
      assert s == c;
    } else {
      assert s[..|s| - 1] == c + Equals(n - 1);
      PaddingOfPadded(c, n - 1);
    }
  }

  /** The padding that completes a string to a multiple of eight, as from_str recomputes it. */
  function PadFor(c: string): nat {
    PadCount(|c|)
  }

  function PadCount(n: nat): nat {
    (8 - n % 8) % 8
  }

  lemma PadCountPeriod(n: nat)
    ensures PadCount(8 + n) == PadCount(n)
  {
    assert (8 + n) % 8 == n % 8;
  }

  lemma PadCompletes(n: nat)
    ensures (n + PadCount(n)) % 8 == 0
  {
    var r := n % 8;
    assert n == 8 * (n / 8) + r;
    if r != 0 { assert n + PadCount(n) == 8 * (n / 8 + 1); }
  }

  lemma PadCountShort(n: nat)
    requires 1 <= n <= 4
    ensures DataChars(n) + PadCount(DataChars(n)) == 8 && PadCount(DataChars(n)) in {1, 3, 4, 6}
  {
    if n == 1 {
      assert DataChars(1) == 2;
    } else if n == 2 {
      assert DataChars(2) == 4;
    } else if n == 3 {
      assert DataChars(3) == 5;
    } else {
      assert DataChars(4) == 7;
    }
  }

  lemma DecodeCharsStep(q: string, rest: string)
    requires |q| == 8 && InAlphabet(q) && InAlphabet(rest)
    ensures InAlphabet(q + rest) && DecodeChars(q + rest) == Group(q) + DecodeChars(rest)
  {
    assert (q + rest)[..8] == q && (q + rest)[8..] == rest;
  }

  lemma ConcatAssociates(a: string, b: string, c: string)
    ensures a + (b + c) == (a + b) + c
  {
  }

  /** c holds the characters of the encoding of s, whose padding follows from the length of c. */
  ghost predicate Shape(s: bytes, c: string) {
    && InAlphabet(c) && Encode(s) == c + Equals(PadFor(c))
    && DecodeChars(c) == s && PadFor(c) in {0, 1, 3, 4, 6}
    && (|s| > 0 ==> |c| > 0)
  }

  lemma ShapeOfShort(s: bytes)
    requires 1 <= |s| <= 4
    ensures Shape(s, Quantum(s + Zeros(5 - |s|))[..DataChars(|s|)])
  {
    ShortQuantum(s);
    PadCountShort(|s|);
    assert (s + Zeros(5 - |s|))[..|s|] == s;
  }

  lemma ShapeOfLong(s: bytes, tail: string)
    requires |s| >= 5 && Shape(s[5..], tail)
    ensures Shape(s, Quantum(s[..5]) + tail)
  {
    var q := Quantum(s[..5]);
    GroupOfQuantum(s[..5]);
    DecodeCharsStep(q, tail);
    PadCountPeriod(|tail|);
    ConcatAssociates(q, tail, Equals(PadFor(tail)));
  }

  lemma {:induction false} EncodeShape(s: bytes) returns (c: string)
    ensures Shape(s, c)
  {
    if |s| == 0 {
      c := "";
      assert Encode(s) == c + Equals(0);
    } else if |s| >= 5 {
      var tail := EncodeShape(s[5..]);
      ShapeOfLong(s, tail);
      c := Quantum(s[..5]) + tail;
    } else {
      ShapeOfShort(s);
      c := Quantum(s + Zeros(5 - |s|))[..DataChars(|s|)];
    }
  }

  /** The encoding of five bytes or more starts with the quantum of the first five. */
  lemma UnpaddedStart(s: bytes) returns (tail: string)
    requires |s| >= 5
    ensures Unpadded(Encode(s)) == Quantum(s[..5]) + tail
  {
    hide Unpadded, Quantum, Group, DecodeChars;
    tail := EncodeShape(s[5..]);
    GroupOfQuantum(s[..5]);
    DecodeCharsStep(Quantum(s[..5]), tail);
    ConcatAssociates(Quantum(s[..5]), tail, Equals(PadFor(tail)));
    PaddingOfPadded(Quantum(s[..5]) + tail, PadFor(tail));
  }

  lemma DigitsAppend(ds: seq<int>, d: int, b: nat, all: seq<int>)
    requires all == ds + [d]
    ensures FromDigits(all, b) == FromDigits(ds, b) * b + d
  {
    assert all[..|ds|] == ds;
  }

  lemma FiveDigits(a: int, b: int, c: int, d: int, e: int)
    ensures FromDigits([a, b, c, d, e], 256) == (((a * 256 + b) * 256 + c) * 256 + d) * 256 + e
  {
    DigitsAppend([], a, 256, [a]);
    DigitsAppend([a], b, 256, [a, b]);
    DigitsAppend([a, b], c, 256, [a, b, c]);
    DigitsAppend([a, b, c], d, 256, [a, b, c, d]);
    DigitsAppend([a, b, c, d], e, 256, [a, b, c, d, e]);
  }

  lemma EightDigits(a: int, b: int, c: int, d: int, e: int, f: int, g: int, h: int)
    ensures FromDigits([a, b, c, d, e, f, g, h], 32)
      == (((((((a * 32 + b) * 32 + c) * 32 + d) * 32 + e) * 32 + f) * 32 + g) * 32) + h
  {
    DigitsAppend([], a, 32, [a]);
    DigitsAppend([a], b, 32, [a, b]);
    DigitsAppend([a, b], c, 32, [a, b, c]);
    DigitsAppend([a, b, c], d, 32, [a, b, c, d]);
    DigitsAppend([a, b, c, d], e, 32, [a, b, c, d, e]);
    DigitsAppend([a, b, c, d, e], f, 32, [a, b, c, d, e, f]);
    DigitsAppend([a, b, c, d, e, f], g, 32, [a, b, c, d, e, f, g]);
    DigitsAppend([a, b, c, d, e, f, g], h, 32, [a, b, c, d, e, f, g, h]);
  }

  lemma Letters()
    ensures CharOf(0) == 'A' && CharOf(1) == 'B' && CharOf(12) == 'M' && CharOf(19) == 'T' && CharOf(22) == 'W'
    ensures CharOf(23) == 'X' && CharOf(24) == 'Y' && CharOf(25) == 'Z' && CharOf(30) == '6'
  {
  }

  lemma FoobaQuantum()
    ensures Quantum([102, 111, 111, 98, 97]) == "MZXW6YTB"
  {
    FiveDigits(102, 111, 111, 98, 97);
    EightDigits(12, 25, 23, 22, 30, 24, 19, 1);
    ToFromDigits([12, 25, 23, 22, 30, 24, 19, 1], 32);
    Letters();
    hide FromDigits, ToDigits, CharOf;
    assert Chars([12, 25, 23, 22, 30, 24, 19, 1]) == "MZXW6YTB";
  }

  lemma FQuantum()
    ensures Quantum([102, 0, 0, 0, 0]) == "MYAAAAAA"
  {
    FiveDigits(102, 0, 0, 0, 0);
    EightDigits(12, 24, 0, 0, 0, 0, 0, 0);
    ToFromDigits([12, 24, 0, 0, 0, 0, 0, 0], 32);
    Letters();
    hide FromDigits, ToDigits, CharOf;
    assert Chars([12, 24, 0, 0, 0, 0, 0, 0]) == "MYAAAAAA";
  }

  /** The first two characters of a quantum depend on the top ten bits alone. */
  lemma QuantumFront(g: bytes)
    requires |g| == 5 && g[0] == 1
    ensures Quantum(g)[0] == 'A' && Quantum(g)[1] == CharOf(4 + g[1] / 64)
  {
    FiveDigits(g[0], g[1], g[2], g[3], g[4]);
    assert g == [g[0], g[1], g[2], g[3], g[4]];
    var v := FromDigits(g, 256);
    FromDigitsBound(g, 256);
    PowersAgree();
    var q := ToDigits(v, 32, 8);
    ToDigitsBelow(v, 32, 8);
    FromToDigits(v, 32, 8);
    assert q == [q[0], q[1], q[2], q[3], q[4], q[5], q[6], q[7]];
    EightDigits(q[0], q[1], q[2], q[3], q[4], q[5], q[6], q[7]);
    hide FromDigits, ToDigits, CharOf;
    assert q[0] == 0 && q[1] == 4 + g[1] / 64;
    Letters();
    assert Quantum(g) == Chars(q);
  }

  /** Test vectors of section 10 of RFC 4648: "f" and "fooba". */
  lemma Vectors()
    ensures Encode([102]) == "MY======"
    ensures Encode([102, 111, 111, 98, 97]) == "MZXW6YTB"
  {
    FoobaQuantum();
    FQuantum();
    assert Encode([]) == "";
    assert [102, 111, 111, 98, 97][..5] == [102, 111, 111, 98, 97];
    assert Quantum([102, 111, 111, 98, 97]) + "" == "MZXW6YTB";
    assert [102] + Zeros(4) == [102, 0, 0, 0, 0];
    assert "MYAAAAAA"[..2] + Equals(6) == "MY======";
  }

  /** Decoding inverts encoding on every byte string. */
  lemma DecodeEncode(s: bytes)
    ensures Decode(Encode(s)) == Some(s)
  {
    var c := EncodeShape(s);
    DecodePadded(c);
  }

  lemma DecodePadded(c: string)
    requires InAlphabet(c) && PadFor(c) in {0, 1, 3, 4, 6}
    ensures Decode(c + Equals(PadFor(c))) == Some(DecodeChars(c))
  {
    hide Padding, Unpadded, DecodeChars, InAlphabet, PadCount;
    PaddingOfPadded(c, PadFor(c));
    PadCompletes(|c|);
  }

  /** The padding may be stripped: recomputing it from the length gives the encoding back. */
  lemma UnpaddedRecovers(s: bytes)
    ensures var c := Unpadded(Encode(s));
      InAlphabet(c) && c + Equals(PadFor(c)) == Encode(s) && (|s| > 0 ==> |c| > 0)
  {
    var c := EncodeShape(s);
    PaddingOfPadded(c, PadFor(c));
  }
}
