/** Positional notation: big-endian digit strings of a fixed width and their values. */
module Digits {

  function Pow(b: nat, k: nat): nat {
    if k == 0 then 1 else b * Pow(b, k - 1)
  }

  ghost predicate AllBelow(ds: seq<int>, b: nat) {
    forall i :: 0 <= i < |ds| ==> 0 <= ds[i] < b
  }

  /** The number a big-endian digit string stands for. */
  function FromDigits(ds: seq<int>, b: nat): int {
    if |ds| == 0 then 0 else FromDigits(ds[..|ds| - 1], b) * b + ds[|ds| - 1]
  }

  /** Quotient and remainder of Python's divmod on naturals. */
  function Quot(v: nat, b: nat): (q: nat)
    requires b > 0
  {
    DivModFacts(v, b);
    v / b
  }

  function Rem(v: nat, b: nat): (r: nat)
    requires b > 0
    ensures r < b
  {
    v % b
  }

  lemma DivModFacts(v: nat, b: nat)
    requires b > 0
    ensures v == (v / b) * b + v % b && v / b >= 0 && 0 <= v % b < b
  {
  }

  /** The last k digits of v, most significant first. */
  function ToDigits(v: nat, b: nat, k: nat): (ds: seq<int>)
    requires b > 0
    ensures |ds| == k
    decreases k
  {
    if k == 0 then [] else ToDigits(Quot(v, b), b, k - 1) + [Rem(v, b)]
  }

  lemma {:induction false} ToDigitsBelow(v: nat, b: nat, k: nat)
    requires b > 0
    ensures AllBelow(ToDigits(v, b, k), b)
    decreases k
  {
    if k > 0 { ToDigitsBelow(Quot(v, b), b, k - 1); }
  }

  lemma MulFacts(d: int, b: int)
    requires b >= 0
    ensures d >= 1 ==> d * b >= b
    ensures d <= -1 ==> d * b <= -b
  {
    if d >= 1 {
      assert d * b == b + (d - 1) * b;
    } else if d <= -1 {
      assert d * b == -b + (d + 1) * b;
      assert (d + 1) * b == -((-d - 1) * b);
    }
  }

  lemma MulDistributes(x: int, y: int, z: int)
    ensures (x - y) * z == x * z - y * z && (x + y) * z == x * z + y * z
  {
  }

  lemma DivModUnique(q: nat, r: nat, b: nat)
    requires r < b
    ensures Quot(q * b + r, b) == q && Rem(q * b + r, b) == r
  {
    var v := q * b + r;
    DivModFacts(v, b);
    MulDistributes(v / b, q, b);
    MulFacts(v / b - q, b);
  }

  lemma MulMono(x: int, y: int, z: nat)
    ensures x <= y ==> x * z <= y * z
  {
    if x <= y { assert (y - x) * z >= 0; MulDistributes(y, x, z); }
  }

  lemma {:induction false} PowPositive(b: nat, k: nat)
    requires b > 0
    ensures Pow(b, k) > 0
  {
    if k > 0 { PowPositive(b, k - 1); MulFacts(b, Pow(b, k - 1)); }
  }

  lemma {:induction false} PowAdd(b: nat, j: nat, k: nat)
    ensures Pow(b, j + k) == Pow(b, j) * Pow(b, k)
  {
    if j > 0 {
      PowAdd(b, j - 1, k);
      assert b * (Pow(b, j - 1) * Pow(b, k)) == (b * Pow(b, j - 1)) * Pow(b, k);
    }
  }

  lemma {:induction false} FromDigitsBound(ds: seq<int>, b: nat)
    requires AllBelow(ds, b)
    ensures 0 <= FromDigits(ds, b) < Pow(b, |ds|)
  {
    if |ds| > 0 {
      var front := ds[..|ds| - 1];
      FromDigitsBound(front, b);
      HornerBound(FromDigits(front, b), ds[|ds| - 1], b, Pow(b, |front|));
    }
  }

  lemma HornerBound(f: nat, r: nat, b: nat, p: nat)
    requires f < p && r < b
    ensures 0 <= f * b + r < b * p
  {
    MulMono(f + 1, p, b);
    MulMono(0, f, b);
    MulDistributes(f, 1, b);
  }

  lemma QuotBound(v: nat, b: nat, p: nat)
    requires b > 0 && v < b * p
    ensures Quot(v, b) < p
  {
    DivModFacts(v, b);
    MulMono(p, v / b, b);
  }

  /** Writing a number that fits and reading it back gives the number. */
  lemma {:induction false} FromToDigits(v: nat, b: nat, k: nat)
    requires b > 0 && v < Pow(b, k)
    ensures FromDigits(ToDigits(v, b, k), b) == v
    decreases k
  {
    if k > 0 {
      var front := ToDigits(Quot(v, b), b, k - 1);
      assert (front + [Rem(v, b)])[..k - 1] == front;
      QuotBound(v, b, Pow(b, k - 1));
      FromToDigits(Quot(v, b), b, k - 1);
      DivModFacts(v, b);
    }
  }

  /** Reading a digit string and writing it in the same width gives the same string. */
  lemma {:induction false} ToFromDigits(ds: seq<int>, b: nat)
    requires b > 0 && AllBelow(ds, b)
    ensures FromDigits(ds, b) >= 0 && ToDigits(FromDigits(ds, b), b, |ds|) == ds
  {
    if |ds| > 0 {
      var front := ds[..|ds| - 1];
      ToFromDigits(front, b);
      var f, r := FromDigits(front, b), ds[|ds| - 1];
      MulMono(0, f, b);
      DivModUnique(f, r, b);
      assert ds == front + [r];
    }
  }

  /** The value of a concatenation. */
  lemma {:induction false} FromDigitsConcat(xs: seq<int>, ys: seq<int>, b: nat)
    ensures FromDigits(xs + ys, b) == FromDigits(xs, b) * Pow(b, |ys|) + FromDigits(ys, b)
  {
    if |ys| == 0 {
      assert xs + ys == xs;
    } else {
      var front := ys[..|ys| - 1];
      assert (xs + ys)[..|xs + ys| - 1] == xs + front;
      FromDigitsConcat(xs, front, b);
      ShiftSum(FromDigits(xs, b), Pow(b, |front|), FromDigits(front, b), b);
    }
  }

  lemma ShiftSum(x: int, p: int, f: int, b: int)
    ensures (x * p + f) * b == x * (b * p) + f * b
  {
    MulDistributes(x * p, f, b);
    assert (x * p) * b == x * (b * p);
  }

  /** Digits of a number whose low j digits are zero. */
  lemma {:induction false} ToDigitsShifted(v: nat, b: nat, k: nat, j: nat)
    requires b > 0 && v * Pow(b, j) >= 0
    ensures ToDigits(v * Pow(b, j), b, k + j) == ToDigits(v, b, k) + seq(j, _ => 0)
  {
    if j == 0 {
      assert ToDigits(v, b, k) + seq(j, _ => 0) == ToDigits(v, b, k);
    } else {
      var p := Pow(b, j - 1);
      var w: nat := v * p by { PowPositive(b, j - 1); MulMono(0, v, p); }
      ShiftSum(v, p, 0, b);
      DivModUnique(w, 0, b);
      ToDigitsShifted(v, b, k, j - 1);
      assert ToDigits(v, b, k) + seq(j - 1, _ => 0) + [0] == ToDigits(v, b, k) + seq(j, _ => 0);
    }
  }
}
