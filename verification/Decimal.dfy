/**
 Exact value of a base-10^9 limb sequence with a radix point, and the two
 carry passes that the decimal scanner runs over it.

 A limb sequence is most significant first; `rp` decimal digits stand before
 the radix point, so limb i weighs 10^(rp - 9(i+1)).  A limb may be as large as
 10^9 itself: the scanner's multiplication pass only reduces a product that is
 strictly greater than 10^9.
 */
module Decimal {

  const BASE: int := 1000000000
  const MULTIPLIER: int := 536870912 // 2^29

  // ---- powers ------------------------------------------------------------------------

  /** 10^e and 2^e for any integer e. */
  ghost function Pow10(e: int): (p: real)
    ensures p > 0.0
    decreases if e < 0 then -e else e
  {
    if e == 0 then 1.0 else if e > 0 then 10.0 * Pow10(e - 1) else Pow10(e + 1) / 10.0
  }

  ghost function Pow2(e: int): (p: real)
    ensures p > 0.0
    decreases if e < 0 then -e else e
  {
    if e == 0 then 1.0 else if e > 0 then 2.0 * Pow2(e - 1) else Pow2(e + 1) / 2.0
  }

  lemma Pow10Step(e: int)
    ensures Pow10(e + 1) == 10.0 * Pow10(e)
  {
  }

  /** Three decimal places, and the nine that make a limb. */
  lemma Pow10Three(e: int)
    ensures Pow10(e + 3) == 1000.0 * Pow10(e)
  {
    Pow10Step(e);
    Pow10Step(e + 1);
    Pow10Step(e + 2);
  }

  lemma Pow10Limb(e: int)
    ensures Pow10(e + 9) == BASE as real * Pow10(e)
  {
    Pow10Three(e);
    Pow10Three(e + 3);
    Pow10Three(e + 6);
  }

  lemma Pow2Step(e: int)
    ensures Pow2(e + 1) == 2.0 * Pow2(e)
  {
  }

  lemma Pow2Nine(e: int)
    ensures Pow2(e + 9) == 512.0 * Pow2(e)
  {
    Pow2Step(e);
    Pow2Step(e + 1);
    Pow2Step(e + 2);
    Pow2Step(e + 3);
    Pow2Step(e + 4);
    Pow2Step(e + 5);
    Pow2Step(e + 6);
    Pow2Step(e + 7);
    Pow2Step(e + 8);
  }

  lemma Pow2Multiplier(e: int)
    ensures Pow2(e + 29) == MULTIPLIER as real * Pow2(e)
  {
    Pow2Nine(e);
    Pow2Nine(e + 9);
    Pow2Nine(e + 18);
    Pow2Step(e + 27);
    Pow2Step(e + 28);
  }

  // ---- the number a limb sequence denotes ---------------------------------------------

  /** The limbs read as one integer. */
  function Int(s: seq<int>): int
  {
    if s == [] then 0 else Int(s[..|s| - 1]) * BASE + s[|s| - 1]
  }

  /** The number denoted by limbs with `rp` decimal digits before the radix point. */
  ghost function Value(s: seq<int>, rp: int): real
  {
    Int(s) as real * Pow10(rp - 9 * |s|)
  }

  /** Every limb lies between 0 and `top`.  The passes keep `top` = 10^9; a limb that absorbed a dropped
      neighbour with a bitwise or is only known to lie below 2^30. */
  ghost predicate Bounded(s: seq<int>, top: int) {
    forall i :: 0 <= i < |s| ==> 0 <= s[i] <= top
  }

  const LOOSE: int := 1073741823 // 2^30 - 1

  lemma IntAppend(s: seq<int>, x: int)
    ensures Int(s + [x]) == Int(s) * BASE + x
  {
    assert (s + [x])[..|s|] == s;
  }

  lemma {:induction false} IntLeadingZero(s: seq<int>)
    ensures Int([0] + s) == Int(s)
  {
    if s == [] {
      assert [0] + s == [] + [0];
      IntAppend([], 0);
    } else {
      var t := s[..|s| - 1];
      IntLeadingZero(t);
      assert [0] + s == ([0] + t) + [s[|s| - 1]];
      IntAppend([0] + t, s[|s| - 1]);
    }
  }

  /** A further limb adds its own weight. */
  lemma ValueAppend(s: seq<int>, x: int, rp: int)
    ensures Value(s + [x], rp) == Value(s, rp) + x as real * Pow10(rp - 9 * |s| - 9)
  {
    var e := rp - 9 * |s| - 9;
    IntAppend(s, x);
    Pow10Limb(e);
    assert rp - 9 * |s + [x]| == e && rp - 9 * |s| == e + 9;
    SplitWeight(Int(s), x, Int(s + [x]), Pow10(e), Pow10(e + 9));
  }

  lemma SplitWeight(n: int, x: int, m: int, p: real, q: real)
    requires m == n * BASE + x && q == BASE as real * p
    ensures m as real * p == n as real * q + x as real * p
  {
  }

  lemma ValueLeadingZero(s: seq<int>, rp: int)
    ensures Value([0] + s, rp) == Value(s, rp - 9)
  {
    IntLeadingZero(s);
  }

  /** Keeping only leading limbs keeps a lower bound. */
  lemma {:induction false} ValuePrefix(s: seq<int>, n: nat, rp: int)
    requires Bounded(s, LOOSE) && n <= |s|
    ensures Value(s[..n], rp) <= Value(s, rp)
    decreases |s|
  {
    if n == |s| {
      assert s[..n] == s;
    } else {
      var t := s[..|s| - 1];
      ValuePrefix(t, n, rp);
      assert t[..n] == s[..n];
      ValueAppend(t, s[|s| - 1], rp);
      assert t + [s[|s| - 1]] == s;
    }
  }

  // ---- multiplication by 2^29, right to left ---------------------------------------

  /** One limb of the multiplication: the limb kept and the carry handed left. */
  function MulLimb(limb: int, carry: int): (r: (int, int))
  {
    var tmp := limb * MULTIPLIER + carry;
    if tmp > BASE then (tmp % BASE, tmp / BASE) else (tmp, 0)
  }

  /** All limbs of the multiplication and the carry out of the leading limb. */
  function MulPass(s: seq<int>, carry: int): (r: (seq<int>, int))
    ensures |r.0| == |s|
  {
    if s == [] then ([], carry)
    else
      var (limb, c) := MulLimb(s[|s| - 1], carry);
      var (t, out) := MulPass(s[..|s| - 1], c);
      (t + [limb], out)
  }

  /** Limbs of at most 10^9 hand on carries of at most 2^29; looser limbs stay loose. */
  ghost predicate MulBounds(top: int, carry: int) {
    || (top == BASE && 0 <= carry <= MULTIPLIER)
    || (top == LOOSE && 0 <= carry <= LOOSE)
  }

  lemma MulLimbBounds(limb: int, carry: int, top: int)
    requires 0 <= limb <= top && MulBounds(top, carry)
    ensures 0 <= MulLimb(limb, carry).0 <= BASE && MulBounds(top, MulLimb(limb, carry).1)
    ensures MulLimb(limb, carry).1 == 0 ==> MulLimb(limb, carry).0 >= limb * MULTIPLIER
    ensures 0 <= limb * MULTIPLIER + carry < 0x1_0000_0000_0000_0000
  {
  }

  lemma {:induction false} MulPassBounds(s: seq<int>, carry: int, top: int)
    requires Bounded(s, top) && MulBounds(top, carry)
    ensures Bounded(MulPass(s, carry).0, BASE) && MulBounds(top, MulPass(s, carry).1)
    ensures s != [] && s[0] > 0 && MulPass(s, carry).1 == 0 ==> MulPass(s, carry).0[0] >= MULTIPLIER > s[0]
  {
    if s != [] {
      MulLimbBounds(s[|s| - 1], carry, top);
      MulPassBounds(s[..|s| - 1], MulLimb(s[|s| - 1], carry).1, top);
    }
  }

  /** The pass multiplies the integer by exactly 2^29, its carry out being a new leading limb. */
  lemma {:induction false} MulPassInt(s: seq<int>, carry: int)
    ensures Int([MulPass(s, carry).1] + MulPass(s, carry).0) == MULTIPLIER * Int(s) + carry
  {
    if s == [] {
      assert [carry] + [] == [] + [carry];
      IntAppend([], carry);
    } else {
      var (limb, c) := MulLimb(s[|s| - 1], carry);
      var (t, out) := MulPass(s[..|s| - 1], c);
      assert limb + BASE * c == s[|s| - 1] * MULTIPLIER + carry;
      MulPassInt(s[..|s| - 1], c);
      IntAppend([out] + t, limb);
      assert [out] + (t + [limb]) == ([out] + t) + [limb];
    }
  }

  // ---- division by a divisor of 10^9, left to right --------------------------------

  /** The remainder that limb `i` receives from its left neighbour. */
  function CarryInto(s: seq<int>, d: int, i: nat): int
    requires d > 0 && i <= |s|
  {
    if i == 0 then 0 else BASE / d * (s[i - 1] % d)
  }

  /** Divide every limb by `d`, handing remainders right; the last entry is the carry out. */
  function DivPass(s: seq<int>, d: int): (r: seq<int>)
    requires d > 0
    ensures |r| == |s| + 1
  {
    seq(|s| + 1, i requires 0 <= i <= |s| => (if i < |s| then s[i] / d else 0) + CarryInto(s, d, i))
  }

  ghost predicate DividesBase(d: int) {
    d > 1 && BASE % d == 0
  }

  lemma DivLimbBounds(limb: int, d: int, top: int)
    requires DividesBase(d) && 0 <= limb <= top && (top == BASE || top == LOOSE)
    ensures 0 <= limb / d <= top - (BASE - BASE / d)
    ensures 0 <= BASE / d * (limb % d) <= BASE - BASE / d
    ensures d * (BASE / d * (limb % d)) + BASE * (d * (limb / d)) == BASE * limb
    ensures limb % d > 0 ==> BASE / d * (limb % d) > 0
  {
    var q := BASE / d;
    var u, v := limb / d, limb % d;
    assert d * q == BASE && limb == d * u + v;
    DivLimbArith(limb, d, q, u, v, top);
  }

  lemma DivLimbArith(limb: int, d: int, q: int, u: int, v: int, top: int)
    requires d > 1 && d * q == BASE && BASE <= top && 0 <= limb <= top && limb == d * u + v && 0 <= v < d
    ensures 0 <= u <= q + (top - BASE) && 0 <= q * v <= BASE - q && (v > 0 ==> q * v > 0)
    ensures d * (q * v) + BASE * (d * u) == BASE * limb
  {
    QuotientBounds(limb, d, q, u, v, top - BASE);
    MulMonotone(q, v, d - 1);
    MulMonotone(q, 0, v);
    assert q * (d - 1) == BASE - q;
    assert v > 0 ==> q * v > 0;
    assert d * (q * v) == BASE * v by { assert d * (q * v) == (d * q) * v; }
  }

  lemma QuotientBounds(limb: int, d: int, q: int, u: int, v: int, slack: int)
    requires d > 1 && d * q == BASE && 0 <= slack && 0 <= limb <= BASE + slack && limb == d * u + v && 0 <= v < d
    ensures 0 <= u <= q + slack && q > 0
  {
    if u > q + slack {
      MulMonotone(d, q + slack + 1, u);
      MulMonotone(slack, 1, d);
    } else if u < 0 {
      MulMonotone(d, u, -1);
    }
    if q <= 0 {
      MulMonotone(d, q, 0);
    }
  }

  lemma MulMonotone(k: int, m: int, n: int)
    requires 0 <= k && m <= n
    ensures k * m <= k * n
  {
  }

  /** The pass keeps the limb bound, and its carry out stays below 10^9. */
  lemma DivPassBounds(s: seq<int>, d: int, top: int)
    requires DividesBase(d) && Bounded(s, top) && (top == BASE || top == LOOSE)
    ensures Bounded(DivPass(s, d), top) && 0 <= DivPass(s, d)[|s|] < BASE
  {
    var room := BASE - BASE / d;
    assert 0 <= room < BASE by { QuotientBounds(BASE, d, BASE / d, BASE / d, 0, 0); }
    forall i | 0 <= i <= |s|
      ensures 0 <= CarryInto(s, d, i) <= room && (i < |s| ==> 0 <= s[i] / d <= top - room)
    {
      if i < |s| {
        DivLimbBounds(s[i], d, top);
      }
      if i > 0 {
        DivLimbBounds(s[i - 1], d, top);
      }
    }
  }

  /** The pass divides by exactly `d`. */
  lemma {:induction false} DivPassInt(s: seq<int>, d: int)
    requires DividesBase(d) && Bounded(s, LOOSE)
    ensures d * Int(DivPass(s, d)) == Int(s) * BASE
  {
    if s == [] {
      assert DivPass(s, d) == [] + [0];
      IntAppend([], 0);
    } else {
      var s0, x := s[..|s| - 1], s[|s| - 1];
      var t := DivPass(s0, d)[..|s| - 1];
      var carry, c := CarryInto(s, d, |s| - 1), CarryInto(s, d, |s|);
      DivPassShape(s, d);
      IntAppend(t, carry);
      IntAppend(t, x / d + carry);
      IntAppend(t + [x / d + carry], c);
      DivPassInt(s0, d);
      DivLimbBounds(x, d, LOOSE);
      DivPassArith(d, Int(t), carry, x, x / d, c, Int(s0), Int(s));
    }
  }

  lemma DivPassShape(s: seq<int>, d: int)
    requires d > 0 && s != []
    ensures var n := |s| - 1;
            var t := DivPass(s[..n], d)[..n];
            && DivPass(s[..n], d) == t + [CarryInto(s, d, n)]
            && DivPass(s, d) == t + [s[n] / d + CarryInto(s, d, n)] + [CarryInto(s, d, n + 1)]
  {
  }

  lemma DivPassArith(d: int, it: int, carry: int, x: int, quot: int, c: int, is0: int, is1: int)
    requires d * (it * BASE + carry) == is0 * BASE
    requires d * c + BASE * (d * quot) == BASE * x
    requires is1 == is0 * BASE + x
    ensures d * ((it * BASE + (quot + carry)) * BASE + c) == is1 * BASE
  {
    assert d * ((it * BASE + (quot + carry)) * BASE + c)
        == (d * (it * BASE + carry)) * BASE + BASE * (d * quot) + d * c;
  }

  /** A leading limb that is divided away hands a positive carry to its right neighbour. */
  lemma DivPassLead(s: seq<int>, d: int)
    requires DividesBase(d) && Bounded(s, LOOSE) && s != [] && s[0] > 0
    ensures DivPass(s, d)[0] == s[0] / d < s[0]
    ensures s[0] / d == 0 ==> DivPass(s, d)[1] > 0
  {
    SmallQuotient(s[0], d);
    if s[0] / d == 0 {
      DivLimbBounds(s[0], d, LOOSE);
      assert CarryInto(s, d, 1) > 0;
      if |s| > 1 {
        DivLimbBounds(s[1], d, LOOSE);
      }
    }
  }

  lemma SmallQuotient(x: int, d: int)
    requires x > 0 && d > 1
    ensures x / d < x && (x / d == 0 ==> x % d > 0)
  {
    var q := x / d;
    assert x == d * q + x % d;
    if q > 0 {
      MulMonotone(q, 2, d);
    }
  }

  // ---- trailing zeros ---------------------------------------------------------------

  /** Drop trailing zero limbs but keep the leading limb. */
  function TrimZeros(s: seq<int>): (r: seq<int>)
    ensures r <= s && (s != [] ==> r != [])
    ensures forall i :: |r| <= i < |s| ==> s[i] == 0
    ensures |r| > 1 ==> r[|r| - 1] != 0
  {
    if |s| > 1 && s[|s| - 1] == 0 then TrimZeros(s[..|s| - 1]) else s
  }

  lemma {:induction false} TrimUnique(s: seq<int>, n: nat)
    requires 1 <= n <= |s|
    requires forall i :: n <= i < |s| ==> s[i] == 0
    requires n == 1 || s[n - 1] != 0
    ensures TrimZeros(s) == s[..n]
  {
    assert |TrimZeros(s)| == n;
  }

  /** Trailing zero limbs carry no value. */
  lemma {:induction false} ValueDropZeros(s: seq<int>, n: nat, rp: int)
    requires n <= |s| && forall i :: n <= i < |s| ==> s[i] == 0
    ensures Value(s[..n], rp) == Value(s, rp)
    decreases |s|
  {
    if n == |s| {
      assert s[..n] == s;
    } else {
      var t := s[..|s| - 1];
      ValueDropZeros(t, n, rp);
      assert t[..n] == s[..n];
      ValueAppend(t, 0, rp);
      assert t + [0] == s;
    }
  }
}
