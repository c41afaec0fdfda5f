/** Bitwise operators on Python's unbounded non-negative integers. */
module Bits {
  import opened Digits

  function And(a: nat, b: nat): nat {
    if a == 0 || b == 0 then 0
    else 2 * And(a / 2, b / 2) + (if a % 2 == 1 && b % 2 == 1 then 1 else 0)
  }

  function Or(a: nat, b: nat): nat {
    if a == 0 then b else if b == 0 then a
    else 2 * Or(a / 2, b / 2) + (if a % 2 == 1 || b % 2 == 1 then 1 else 0)
  }

  function Xor(a: nat, b: nat): nat
    decreases a + b
  {
    if a == 0 && b == 0 then 0 else 2 * Xor(a / 2, b / 2) + (if a % 2 == b % 2 then 0 else 1)
  }

  lemma {:induction false} XorBelow(a: nat, b: nat, k: nat)
    requires a < Pow(2, k) && b < Pow(2, k)
    ensures Xor(a, b) < Pow(2, k)
    decreases k
  {
    if k > 0 && !(a == 0 && b == 0) { XorBelow(a / 2, b / 2, k - 1); }
  }

  lemma {:induction false} XorSwaps(a: nat, b: nat)
    ensures Xor(a, b) == Xor(b, a)
    decreases a + b
  {
    if !(a == 0 && b == 0) { XorSwaps(a / 2, b / 2); }
  }

  lemma {:induction false} XorCancels(a: nat, b: nat, c: nat)
    requires Xor(a, b) == Xor(a, c)
    ensures b == c
    decreases a + b + c
  {
    if !(a == 0 && b == 0 && c == 0) { XorCancels(a / 2, b / 2, c / 2); }
  }

  function Shl(a: nat, k: nat): nat {
    if k == 0 then a else 2 * Shl(a, k - 1)
  }

  function Shr(a: nat, k: nat): nat
    decreases k
  {
    if k == 0 then a else Shr(a / 2, k - 1)
  }

  /** The number with k low bits set. */
  function Mask(k: nat): nat {
    if k == 0 then 0 else 2 * Mask(k - 1) + 1
  }

  /** n = 2 * (q * p + r) + n % 2, so halving n and dividing by p is dividing n by 2p. */
  lemma HalveThenDivide(n: nat, p: nat)
    requires p > 0
    ensures Quot(n, 2 * p) == Quot(n / 2, p)
    ensures Rem(n, 2 * p) == 2 * Rem(n / 2, p) + n % 2
  {
    var q, r := Quot(n / 2, p), Rem(n / 2, p);
    DivModFacts(n / 2, p);
    assert q * (2 * p) == 2 * (q * p);
    DivModUnique(q, 2 * r + n % 2, 2 * p);
  }

  lemma {:induction false} AndMask(n: nat, k: nat)
    ensures Pow(2, k) > 0 && And(n, Mask(k)) == Rem(n, Pow(2, k))
    decreases k
  {
    PowPositive(2, k);
    if k > 0 {
      PowPositive(2, k - 1);
      AndMask(n / 2, k - 1);
      HalveThenDivide(n, Pow(2, k - 1));
    }
  }

  lemma {:induction false} ShrDivides(n: nat, k: nat)
    ensures Pow(2, k) > 0 && Shr(n, k) == Quot(n, Pow(2, k))
    decreases k
  {
    PowPositive(2, k);
    if k > 0 {
      PowPositive(2, k - 1);
      ShrDivides(n / 2, k - 1);
      HalveThenDivide(n, Pow(2, k - 1));
    }
  }

  lemma {:induction false} ShlMultiplies(a: nat, k: nat)
    ensures Shl(a, k) == a * Pow(2, k)
  {
    if k > 0 { ShlMultiplies(a, k - 1); }
  }

  /** Or of numbers without a common bit is their sum. */
  lemma {:induction false} OrDisjoint(a: nat, b: nat, k: nat)
    requires a < Pow(2, k)
    ensures Or(a, Shl(b, k)) == a + Shl(b, k)
    decreases k
  {
    if k > 0 { OrDisjoint(a / 2, b, k - 1); }
  }

  lemma {:induction false} AndTopBit(a: nat, k: nat)
    requires a < Pow(2, k + 1)
    ensures And(a, Shl(1, k)) == if a < Pow(2, k) then 0 else Shl(1, k)
    decreases k
  {
    if k > 0 { AndTopBit(a / 2, k - 1); }
  }

  /** The masks and shifts the varint code uses, as arithmetic. */
  lemma SevenBits(n: nat)
    ensures And(n, 0x7F) == n % 128 && Shr(n, 7) == n / 128
  {
    AndMask(n, 7);
    ShrDivides(n, 7);
    assert Mask(7) == 0x7F;
    assert Pow(2, 7) == 128;
  }

  lemma EighthBit(b: nat)
    requires b < 256
    ensures b < 128 ==> Or(b, 0x80) == b + 128
    ensures And(b, 0x80) == if b < 128 then 0 else 0x80
  {
    assert Pow(2, 7) == 128;
    assert Shl(1, 7) == 0x80;
    AndTopBit(b, 7);
    if b < 128 { OrDisjoint(b, 1, 7); }
  }
}

/** Variable-length integers of the binary CID form. */
module Varint {
  import opened Common
  import opened Digits
  import opened Bits

  /** Seven bits a byte, least significant group first, the high bit set on all but the last. */
  function VarintBytes(n: nat): bytes {
    if n < 128 then [n] else [n % 128 + 128] + VarintBytes(n / 128)
  }

  /** Value and end offset of the varint at an offset; the value is the base-128 sum of its groups. */
  function DecodeAt(data: bytes, offset: nat): (nat, nat)
    decreases |data| - offset
  {
    if offset >= |data| then (0, offset)
    else if data[offset] < 128 then (data[offset], offset + 1)
    else
      var rest := DecodeAt(data, offset + 1);
      (data[offset] - 128 + 128 * rest.0, rest.1)
  }

  method EncodeVarint(n: nat) returns (buf: bytes)
    ensures buf == VarintBytes(n)
  {
    buf := [];
    var m := n;
    while true
      invariant buf + VarintBytes(m) == VarintBytes(n)
      decreases m
    {
      var b := And(m, 0x7F);
      SevenBits(m);
      EighthBit(m % 128);
      ghost var before := m;
      m := Shr(m, 7);
      if m != 0 {
        ghost var prefix := buf;
        buf := buf + [Or(b, 0x80)];
        assert buf + VarintBytes(m) == prefix + VarintBytes(before);
      } else {
        buf := buf + [b];
        break;
      }
    }
  }

  /** What the decoding loop still has to return: the groups read so far and the rest of the sum. */
  ghost function Pending(data: bytes, offset: nat, result: nat, shift: nat): int {
    result + Pow(2, shift) * DecodeAt(data, offset).0
  }

  method DecodeVarint(data: bytes, start: nat) returns (result: nat, offset: nat)
    ensures (result, offset) == DecodeAt(data, start)
  {
    result, offset := 0, start;
    var shift := 0;
    while offset < |data|
      invariant result < Pow(2, shift)
      invariant Pending(data, offset, result, shift) == DecodeAt(data, start).0
      invariant DecodeAt(data, start).1 == DecodeAt(data, offset).1
      decreases |data| - offset
    {
      var b := data[offset];
      LoopStep(data, offset, result, shift);
      offset := offset + 1;
      result := Or(result, Shl(And(b, 0x7F), shift));
      if And(b, 0x80) == 0 {
        return;
      }
      shift := shift + 7;
    }
    assert Pow(2, shift) * 0 == 0;
  }

  lemma LoopStep(data: bytes, offset: nat, result: nat, shift: nat)
    requires offset < |data| && result < Pow(2, shift)
    ensures var b := data[offset]; var next := Or(result, Shl(And(b, 0x7F), shift));
      && (And(b, 0x80) == 0 <==> b < 128)
      && next < Pow(2, shift + 7)
      && Pending(data, offset, result, shift)
      == if b < 128 then next else Pending(data, offset + 1, next, shift + 7)
  {
    var b := data[offset];
    SevenBits(b);
    EighthBit(b);
    OrDisjoint(result, b % 128, shift);
    ShlMultiplies(b % 128, shift);
    StepArithmetic(result, shift, b % 128, if b < 128 then 0 else DecodeAt(data, offset + 1).0);
  }

  lemma StepArithmetic(result: nat, shift: nat, group: nat, rest: nat)
    requires result < Pow(2, shift) && group < 128
    ensures result + group * Pow(2, shift) < Pow(2, shift + 7)
    ensures result + Pow(2, shift) * (group + 128 * rest)
         == result + group * Pow(2, shift) + Pow(2, shift + 7) * rest
  {
    var p := Pow(2, shift);
    PowAdd(2, shift, 7);
    assert Pow(2, 7) == 128;
    MulMono(group + 1, 128, p);
    MulDistributes(group, 1, p);
    assert p * (group + 128 * rest) == group * p + (p * 128) * rest;
  }

  /** Decoding finds exactly the encoded number wherever the encoding stands. */
  lemma {:induction false} DecodeEncode(p: bytes, n: nat, s: bytes)
    ensures DecodeAt(p + VarintBytes(n) + s, |p|) == (n, |p| + |VarintBytes(n)|)
    decreases n
  {
    var data := p + VarintBytes(n) + s;
    if n < 128 {
      assert data[|p|] == n;
    } else {
      var head := n % 128 + 128;
      assert data[|p|] == head;
      DecodeEncode(p + [head], n / 128, s);
      assert data == (p + [head]) + VarintBytes(n / 128) + s;
    }
  }

  /** A run of bytes with the high bit set on all but the last. */
  predicate IsVarint(e: bytes) {
    |e| > 0 && e[|e| - 1] < 128 && forall i :: 0 <= i < |e| - 1 ==> e[i] >= 128
  }

  /** The seven-bit groups, most significant first. */
  function Groups(e: bytes): seq<int> {
    seq(|e|, i requires 0 <= i < |e| => e[|e| - 1 - i] % 128)
  }

  /** The number that the groups stand for in base 128. */
  function GroupSum(e: bytes): int {
    FromDigits(Groups(e), 128)
  }

  lemma {:induction false} VarintIsVarint(n: nat)
    ensures IsVarint(VarintBytes(n))
  {
    if n >= 128 { VarintIsVarint(n / 128); }
  }

  /** Decoding any such run, wherever it stands, gives the base-128 sum of its groups and the offset past it. */
  lemma {:induction false} DecodeIsSum(p: bytes, e: bytes, s: bytes)
    requires IsVarint(e)
    ensures DecodeAt(p + e + s, |p|) == (GroupSum(e), |p| + |e|)
    decreases |e|
  {
    var data := p + e + s;
    assert data[|p|] == e[0];
    SumStep(e);
    if |e| > 1 {
      assert data == (p + [e[0]]) + e[1..] + s;
      assert IsVarint(e[1..]);
      DecodeIsSum(p + [e[0]], e[1..], s);
    }
  }

  lemma SumStep(e: bytes)
    requires |e| > 0
    ensures GroupSum(e) == e[0] % 128 + (if |e| == 1 then 0 else 128 * GroupSum(e[1..]))
  {
    var g := Groups(e);
    assert g[..|g| - 1] == Groups(e[1..]) && g[|g| - 1] == e[0] % 128;
    assert FromDigits(g, 128) == FromDigits(g[..|g| - 1], 128) * 128 + g[|g| - 1];
    if |e| == 1 { assert g[..0] == [] && FromDigits(g[..0], 128) == 0; }
  }

  /** The encoding of n has the number of base-128 digits of n. */
  lemma {:induction false} VarintLength(n: nat)
    ensures |VarintBytes(n)| >= 1 && n < Pow(128, |VarintBytes(n)|)
    ensures n > 0 ==> Pow(128, |VarintBytes(n)| - 1) <= n
  {
    if n >= 128 { VarintLength(n / 128); }
  }

  lemma {:induction false} DecodedBound(data: bytes, offset: nat)
    requires offset <= |data|
    ensures offset <= DecodeAt(data, offset).1 <= |data|
    ensures DecodeAt(data, offset).0 < Pow(128, DecodeAt(data, offset).1 - offset)
    decreases |data| - offset
  {
    if offset < |data| {
      DecodedBound(data, offset + 1);
      assert Pow(128, 1) == 128;
    }
  }

  lemma {:induction false} PowMonotone(b: nat, j: nat, k: nat)
    requires b > 0 && j <= k
    ensures Pow(b, j) <= Pow(b, k)
  {
    if j < k {
      PowMonotone(b, j, k - 1);
      PowPositive(b, k - 1);
      MulMono(1, b, Pow(b, k - 1));
    }
  }

  /** No non-empty byte string that decodes to n is shorter than the encoding of n. */
  lemma VarintMinimal(n: nat, e: bytes)
    requires |e| >= 1 && DecodeAt(e, 0) == (n, |e|)
    ensures |VarintBytes(n)| <= |e|
  {
    VarintLength(n);
    DecodedBound(e, 0);
    if n > 0 && |VarintBytes(n)| > |e| {
      PowMonotone(128, |e|, |VarintBytes(n)| - 1);
      assert false;
    }
  }
}
