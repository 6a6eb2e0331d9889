/**
 The scaling steps of decfloat as functions on limb sequences: what one
 multiplication by 2^29 and one right shift leave in the ring, and what they do
 to the number the ring denotes.
 */
module Normalise {
  import opened Decimal
  import opened Words

  /** The three long double formats the scanner is configured for. */
  datatype Format = Double | Extended | Quad {

    /** KMAX: cells of the ring. */
    function Kmax(): nat {
      if Double? then 128 else 2048
    }

    /** Most limbs the ring can hold: one cell always separates the two ends. */
    function Capacity(): nat {
      Kmax() - 1
    }

    /** LDBL_MANT_DIG. */
    function MantDig(): nat {
      match this case Double => 53 case Extended => 64 case Quad => 113
    }

    /** LD_B1B_MAX: the limbs of the largest mantissa. */
    function Threshold(): seq<int> {
      match this
      case Double => [9007199, 254740991]
      case Extended => [18, 446744073, 709551615]
      case Quad => [10384593, 717069655, 257060992, 658440191]
    }

    /** LD_B1B_DIG. */
    function Dig(): nat {
      |Threshold()|
    }
  }

  lemma BitOrLoose(p: nat, q: nat)
    requires p <= LOOSE && q <= LOOSE
    ensures BitOr(p, q) <= LOOSE
  {
    assert TwoTo(10) == 1024;
    TwoToAdd(10, 10);
    TwoToAdd(20, 10);
    BitOrBound(p, q, 30);
  }

  /** The number the scanner holds: limbs, radix point and binary exponent. */
  ghost function Number(s: seq<int>, rp: int, e2: int): real
  {
    Value(s, rp) * Pow2(e2)
  }

  // ---- multiplication by 2^29 ---------------------------------------------------------

  /** The carry out of the leading limb. */
  function MulCarry(s: seq<int>): int
  {
    MulPass(s, 0).1
  }

  /** The product's limbs, trailing zeros dropped. */
  function MulRest(s: seq<int>): (r: seq<int>)
    ensures |r| <= |s| && (s != [] ==> r != [])
  {
    TrimZeros(MulPass(s, 0).0)
  }

  /** Is there a free cell for the carry? */
  predicate MulFits(s: seq<int>, cap: nat) {
    MulCarry(s) == 0 || |MulRest(s)| < cap
  }

  /** A new leading limb.  If it finds no free cell, the last limb folds into its neighbour. */
  function FrontPushed(u: seq<int>, carry: int, cap: nat): (r: seq<int>)
    requires Bounded(u, LOOSE) && 2 <= cap
    ensures |r| == if |u| == cap then cap else |u| + 1
  {
    if |u| == cap then [carry] + u[..cap - 2] + [BitOr(u[cap - 2], u[cap - 1])] else [carry] + u
  }

  /** Limbs after one multiplication. */
  function MulStep(s: seq<int>, cap: nat): (r: seq<int>)
    requires Bounded(s, LOOSE) && 2 <= cap
    ensures s != [] ==> r != []
  {
    MulPassBounds(s, 0, LOOSE);
    if MulCarry(s) == 0 then MulRest(s) else FrontPushed(MulRest(s), MulCarry(s), cap)
  }

  /** The radix point moves nine places when a limb is gained. */
  function MulPoint(s: seq<int>, rp: int): int
  {
    if MulCarry(s) == 0 then rp else rp + 9
  }

  lemma MulStepBounds(s: seq<int>, cap: nat)
    requires Bounded(s, LOOSE) && 2 <= cap && s != [] && s[0] > 0 && |s| <= cap
    ensures Bounded(MulStep(s, cap), LOOSE) && |MulStep(s, cap)| <= cap
    ensures Bounded(s, BASE) && MulFits(s, cap) ==> Bounded(MulStep(s, cap), BASE)
    ensures MulStep(s, cap)[0] > 0
    ensures MulCarry(s) == 0 ==> MulStep(s, cap)[0] >= MULTIPLIER > s[0]
  {
    MulPassBounds(s, 0, LOOSE);
    var t, u := MulPass(s, 0).0, MulRest(s);
    assert u == t[..|u|] && Bounded(u, BASE);
    if MulCarry(s) == 0 {
      assert u[0] == t[0];
    } else if |u| == cap {
      BitOrLoose(u[cap - 2], u[cap - 1]);
    } else if Bounded(s, BASE) {
      MulPassBounds(s, 0, BASE);
    }
  }

  lemma MulPassValue(s: seq<int>, rp: int)
    ensures Value([MulCarry(s)] + MulPass(s, 0).0, rp + 9) == MULTIPLIER as real * Value(s, rp)
  {
    hide Pow10, Int, MulPass;
    var r := [MulCarry(s)] + MulPass(s, 0).0;
    MulPassInt(s, 0);
    assert rp + 9 - 9 * |r| == rp - 9 * |s|;
    ScaleInt(Int(s), Int(r), Pow10(rp - 9 * |s|));
  }

  lemma ScaleInt(n: int, m: int, p: real)
    requires m == MULTIPLIER * n
    ensures m as real * p == MULTIPLIER as real * (n as real * p)
  {
  }

  /** One multiplication scales the number by exactly 2^29 unless a limb had to be folded away. */
  lemma MulStepValue(s: seq<int>, rp: int, cap: nat)
    requires Bounded(s, LOOSE) && 2 <= cap && s != [] && MulFits(s, cap)
    ensures Value(MulStep(s, cap), MulPoint(s, rp)) == MULTIPLIER as real * Value(s, rp)
  {
    hide Value;
    var t, carry, n := MulPass(s, 0).0, MulCarry(s), |MulRest(s)|;
    var r := [carry] + t;
    MulPassValue(s, rp);
    assert MulRest(s) == t[..n];
    if carry == 0 {
      assert MulStep(s, cap) == t[..n];
      ValueLeadingZero(t, rp + 9);
      ValueDropZeros(t, n, rp);
    } else {
      assert MulStep(s, cap) == r[..n + 1];
      ValueDropZeros(r, n + 1, rp + 9);
    }
  }

  /** ... and with the exponent lowered by 29 the number is unchanged. */
  lemma MulStepNumber(s: seq<int>, rp: int, e2: int, cap: nat)
    requires Bounded(s, LOOSE) && 2 <= cap && s != [] && MulFits(s, cap)
    ensures Number(MulStep(s, cap), MulPoint(s, rp), e2 - 29) == Number(s, rp, e2)
  {
    hide Value, Pow2;
    MulStepValue(s, rp, cap);
    Pow2Multiplier(e2 - 29);
    Rescale(MULTIPLIER, Value(s, rp), Value(MulStep(s, cap), MulPoint(s, rp)), Pow2(e2 - 29), Pow2(e2));
  }

  lemma Rescale(k: int, v: real, kv: real, p: real, kp: real)
    requires kv == k as real * v && kp == k as real * p
    ensures kv * p == v * kp
  {
  }

  // ---- division by a divisor of 10^9 ----------------------------------------------------

  /** The quotient's limbs without a leading zero and without the carry out. */
  function DivRest(s: seq<int>, d: int): (r: seq<int>)
    requires d > 0 && s != []
    ensures |s| - 1 <= |r| <= |s|
  {
    var t := DivPass(s, d);
    if t[0] == 0 then t[1..|s|] else t[..|s|]
  }

  /** Is there a free cell for the carry out? */
  predicate DivFits(s: seq<int>, d: int, cap: nat)
    requires d > 0 && s != []
  {
    DivPass(s, d)[|s|] == 0 || |DivRest(s, d)| < cap
  }

  /** A new trailing limb.  If it finds no free cell, the last limb's low bit is set instead. */
  function BackPushed(u: seq<int>, carry: int, cap: nat): (r: seq<int>)
    requires Bounded(u, LOOSE) && 1 <= cap
    ensures |r| == if |u| == cap then cap else |u| + 1
  {
    if |u| == cap then u[..cap - 1] + [BitOr(u[cap - 1], 1)] else u + [carry]
  }

  /** Limbs after one division. */
  function DivStep(s: seq<int>, d: int, cap: nat): (r: seq<int>)
    requires DividesBase(d) && s != [] && Bounded(s, LOOSE) && 1 <= cap
  {
    DivPassBounds(s, d, LOOSE);
    var carry := DivPass(s, d)[|s|];
    if carry == 0 then DivRest(s, d) else BackPushed(DivRest(s, d), carry, cap)
  }

  function DivPoint(s: seq<int>, d: int, rp: int): int
    requires d > 0 && s != []
  {
    if DivPass(s, d)[0] == 0 then rp - 9 else rp
  }

  lemma DivStepBounds(s: seq<int>, d: int, cap: nat)
    requires DividesBase(d) && Bounded(s, LOOSE) && s != [] && s[0] > 0 && 2 <= cap && |s| <= cap
    ensures Bounded(DivStep(s, d, cap), LOOSE)
    ensures Bounded(s, BASE) && DivFits(s, d, cap) ==> Bounded(DivStep(s, d, cap), BASE)
    ensures 1 <= |DivStep(s, d, cap)| <= cap
    ensures DivStep(s, d, cap)[0] > 0
    ensures s[0] / d > 0 ==> DivStep(s, d, cap)[0] == s[0] / d < s[0]
  {
    DivPassBounds(s, d, LOOSE);
    DivPassLead(s, d);
    if Bounded(s, BASE) {
      DivPassBounds(s, d, BASE);
    }
    var u := DivRest(s, d);
    if |u| == cap {
      BitOrLoose(u[cap - 1], 1);
    }
  }

  lemma DivPassValue(s: seq<int>, d: int, rp: int)
    requires DividesBase(d) && Bounded(s, LOOSE)
    ensures d as real * Value(DivPass(s, d), rp) == Value(s, rp)
  {
    hide Pow10, Int, DivPass;
    var t, e := DivPass(s, d), rp - 9 * |s| - 9;
    DivPassInt(s, d);
    Pow10Limb(e);
    assert rp - 9 * |t| == e && rp - 9 * |s| == e + 9;
    DivideInt(d, Int(t), Int(s), Pow10(e), Pow10(e + 9));
  }

  /** One division scales the number by exactly 1/d unless its carry out was dropped. */
  lemma DivStepValue(s: seq<int>, d: int, rp: int, cap: nat)
    requires DividesBase(d) && Bounded(s, LOOSE) && s != [] && 1 <= cap && DivFits(s, d, cap)
    ensures d as real * Value(DivStep(s, d, cap), DivPoint(s, d, rp)) == Value(s, rp)
  {
    hide Value;
    var t, n := DivPass(s, d), |s|;
    DivPassValue(s, d, rp);
    var u := if t[0] == 0 then t[1..] else t;
    assert Value(u, DivPoint(s, d, rp)) == Value(t, rp) by {
      if t[0] == 0 {
        assert t == [0] + u;
        ValueLeadingZero(u, rp);
      }
    }
    assert Value(DivStep(s, d, cap), DivPoint(s, d, rp)) == Value(u, DivPoint(s, d, rp)) by {
      if t[n] == 0 {
        assert u[..|u| - 1] == DivRest(s, d);
        ValueDropZeros(u, |u| - 1, DivPoint(s, d, rp));
      } else {
        assert u == DivRest(s, d) + [t[n]];
      }
    }
  }

  /** ... and with the exponent raised by the shift the number is unchanged. */
  lemma DivStepNumber(s: seq<int>, sh: int, rp: int, e2: int, cap: nat)
    requires sh == 1 || sh == 9
    requires Bounded(s, LOOSE) && s != [] && 1 <= cap && DivFits(s, TwoTo(sh), cap) && DividesBase(TwoTo(sh))
    ensures Number(DivStep(s, TwoTo(sh), cap), DivPoint(s, TwoTo(sh), rp), e2 + sh) == Number(s, rp, e2)
  {
    hide Value, Pow2, DivStep, DivPoint, DivFits;
    var d := TwoTo(sh);
    DivStepValue(s, d, rp, cap);
    assert Pow2(e2 + sh) == d as real * Pow2(e2) by {
      Pow2Step(e2);
      Pow2Nine(e2);
      assert TwoTo(1) == 2 && TwoTo(9) == 512;
    }
    Rescale(d, Value(DivStep(s, d, cap), DivPoint(s, d, rp)), Value(s, rp), Pow2(e2), Pow2(e2 + sh));
  }

  lemma DivideInt(d: int, m: int, n: int, p: real, q: real)
    requires d * m == n * BASE && q == BASE as real * p
    ensures d as real * (m as real * p) == n as real * q
  {
    assert d as real * (m as real * p) == (d * m) as real * p;
  }

  // ---- the top limbs ----------------------------------------------------------------------

  /** The first `n` limbs, zero where there are none. */
  function Head(s: seq<int>, n: nat): (r: seq<int>)
    ensures |r| == n
  {
    seq(n, i requires 0 <= i < n => if i < |s| then s[i] else 0)
  }

  /** The integer assembled from the first `n` limbs. */
  function Top(s: seq<int>, n: nat): int
  {
    Int(Head(s, n))
  }

  /** Limb by limb from index `i`, do the limbs exceed the threshold's? */
  predicate Exceeds(s: seq<int>, th: seq<int>, i: nat)
    requires i <= |th|
    decreases |th| - i
  {
    i < |th| && i < |s| && (s[i] > th[i] || (s[i] == th[i] && Exceeds(s, th, i + 1)))
  }

  lemma IntUnrolled(s: seq<int>)
    ensures |s| == 2 ==> Int(s) == s[0] * BASE + s[1]
    ensures |s| == 3 ==> Int(s) == (s[0] * BASE + s[1]) * BASE + s[2]
    ensures |s| == 4 ==> Int(s) == ((s[0] * BASE + s[1]) * BASE + s[2]) * BASE + s[3]
  {
    if 2 <= |s| <= 4 {
      assert Int(s[..1]) == s[0] by { assert s[..1] == [] + [s[0]]; IntAppend([], s[0]); }
      assert s[..2] == s[..1] + [s[1]];
      IntAppend(s[..1], s[1]);
      if |s| == 2 {
        assert s == s[..2];
      } else {
        assert s[..3] == s[..2] + [s[2]];
        IntAppend(s[..2], s[2]);
        if |s| == 3 {
          assert s == s[..3];
        } else {
          assert s == s[..3] + [s[3]];
          IntAppend(s[..3], s[3]);
        }
      }
    }
  }

  /** LD_B1B_MAX is the largest integer of LDBL_MANT_DIG bits. */
  lemma ThresholdIsLargestMantissa(fmt: Format)
    ensures Int(fmt.Threshold()) == TwoTo(fmt.MantDig()) - 1
  {
    IntUnrolled(fmt.Threshold());
    MantissaPowers();
  }

  lemma MantissaPowers()
    ensures TwoTo(53) == 9007199254740992
    ensures TwoTo(64) == 18446744073709551616
    ensures TwoTo(113) == 10384593717069655257060992658440192
  {
    hide TwoTo;
    TwoToTen(0);
    TwoToTen(3);
    TwoToTen(13);
    TwoToTen(23);
    TwoToTen(33);
    TwoToTen(43);
    TwoToTen(53);
    TwoToTen(63);
    TwoToTen(73);
    TwoToTen(83);
    TwoToTen(93);
    TwoToTen(103);
  }

  lemma TwoToTen(n: nat)
    ensures TwoTo(n + 10) == 1024 * TwoTo(n) && TwoTo(n + 1) == 2 * TwoTo(n) && TwoTo(3) == 8
  {
    assert TwoTo(10) == 1024;
    TwoToAdd(n, 10);
  }

  /** The limb-by-limb comparison decides whether the assembled integer has too many bits, even though
      a limb may be 10^9 or, after a fold, a little more. */
  lemma ExceedsIffTooLarge(fmt: Format, s: seq<int>)
    requires Bounded(s, LOOSE)
    ensures Exceeds(s, fmt.Threshold(), 0) <==> Top(s, fmt.Dig()) > TwoTo(fmt.MantDig()) - 1
  {
    var th, h := fmt.Threshold(), Head(s, fmt.Dig());
    ThresholdIsLargestMantissa(fmt);
    IntUnrolled(th);
    IntUnrolled(h);
    ExceedsUnrolled(s, th);
  }

  lemma ExceedsUnrolled(s: seq<int>, th: seq<int>)
    requires 2 <= |th| <= 4 && Bounded(s, LOOSE) && forall i :: 0 <= i < |th| ==> th[i] > 0
    ensures var h := Head(s, |th|);
            Exceeds(s, th, 0) <==>
            || h[0] > th[0]
            || (h[0] == th[0] && h[1] > th[1])
            || (h[..2] == th[..2] && |th| > 2 && h[2] > th[2])
            || (|th| > 3 && h[..3] == th[..3] && h[3] > th[3])
  {
    ExceedsStep(s, th, 0);
    ExceedsStep(s, th, 1);
    if |th| > 2 {
      ExceedsStep(s, th, 2);
    }
    if |th| > 3 {
      ExceedsStep(s, th, 3);
    }
    assert !Exceeds(s, th, |th|);
  }

  lemma ExceedsStep(s: seq<int>, th: seq<int>, i: nat)
    requires i < |th| && Bounded(s, LOOSE) && th[i] > 0
    ensures var h := Head(s, |th|);
            Exceeds(s, th, i) == (h[i] > th[i] || (h[i] == th[i] && Exceeds(s, th, i + 1)))
  {
  }

  /** A leading limb of at least th[0] already fills all mantissa bits but at most one. */
  lemma TopFromLead(fmt: Format, s: seq<int>)
    requires Bounded(s, LOOSE) && s != [] && s[0] >= fmt.Threshold()[0]
    ensures Top(s, fmt.Dig()) >= TwoTo(fmt.MantDig() - 1)
  {
    var h := Head(s, fmt.Dig());
    IntUnrolled(h);
    MantissaPowers();
    assert TwoTo(fmt.MantDig()) == 2 * TwoTo(fmt.MantDig() - 1);
  }

  lemma HeadOfDivPass(s: seq<int>, d: int, n: nat)
    requires d > 0
    ensures DivPass(Head(s, n), d)[..n] == Head(DivPass(s, d), n)
  {
    var h := Head(s, n);
    forall i | 0 <= i < n
      ensures DivPass(h, d)[i] == Head(DivPass(s, d), n)[i]
    {
      ZeroDivision(d);
    }
  }

  lemma ZeroDivision(d: int)
    requires d > 0
    ensures 0 / d == 0 && 0 % d == 0 && BASE / d * 0 == 0
  {
  }

  /** Halving keeps the top integer above half of what it was. */
  lemma TopHalves(s: seq<int>, n: nat)
    requires Bounded(s, LOOSE)
    ensures 2 * Top(DivPass(s, 2), n) > Top(s, n) - 2
  {
    var h := Head(s, n);
    var t := DivPass(h, 2);
    HeadOfDivPass(s, 2, n);
    DivPassInt(h, 2);
    DivPassBounds(h, 2, LOOSE);
    assert t == t[..n] + [t[n]];
    IntAppend(t[..n], t[n]);
  }

  lemma HeadOfDivStep(s: seq<int>, n: nat, cap: nat)
    requires Bounded(s, LOOSE) && 1 <= |s| <= cap && n < cap && DivPass(s, 2)[0] > 0
    ensures Head(DivStep(s, 2, cap), n) == Head(DivPass(s, 2), n)
  {
    DivPassBounds(s, 2, LOOSE);
  }

  /** A one-bit shift of a ring that exceeds the largest mantissa leaves a full mantissa. */
  lemma ShiftKeepsMantissa(fmt: Format, s: seq<int>)
    requires Bounded(s, LOOSE) && 1 <= |s| <= fmt.Capacity() && Exceeds(s, fmt.Threshold(), 0)
    ensures DivPass(s, 2)[0] > 0
    ensures Top(DivStep(s, 2, fmt.Capacity()), fmt.Dig()) >= TwoTo(fmt.MantDig() - 1)
  {
    hide Int, Head, DivStep;
    ExceedsIffTooLarge(fmt, s);
    TopHalves(s, fmt.Dig());
    assert s[0] >= fmt.Threshold()[0] >= 18;
    assert DivPass(s, 2)[0] == s[0] / 2;
    HeadOfDivStep(s, fmt.Dig(), fmt.Capacity());
    assert TwoTo(fmt.MantDig()) == 2 * TwoTo(fmt.MantDig() - 1);
  }

  /** So does the shift that empties the leading limb. */
  lemma ShiftAcrossLimb(fmt: Format, s: seq<int>)
    requires Bounded(s, LOOSE) && 1 <= |s| <= fmt.Capacity() && s[0] > 0 && DivPass(s, 2)[0] == 0
    ensures DivStep(s, 2, fmt.Capacity()) != []
    ensures Top(DivStep(s, 2, fmt.Capacity()), fmt.Dig()) >= TwoTo(fmt.MantDig() - 1)
  {
    var t, r := DivPass(s, 2), DivStep(s, 2, fmt.Capacity());
    DivPassBounds(s, 2, LOOSE);
    assert t[0] == s[0] / 2;
    assert s[0] == 1;
    assert t[1] >= 500000000;
    assert r[0] == t[1];
    DivStepBounds(s, 2, fmt.Capacity());
    TopFromLead(fmt, r);
  }

  /** At the final point position the number is at least the assembled integer. */
  lemma ValueAtLeastTop(s: seq<int>, n: nat)
    requires Bounded(s, LOOSE)
    ensures Value(s, 9 * n) >= Top(s, n) as real
  {
    hide Int;
    var padded := s + Head([], if n > |s| then n - |s| else 0);
    assert padded[..|s|] == s;
    ValueDropZeros(padded, |s|, 9 * n);
    ValuePrefix(padded, n, 9 * n);
    assert padded[..n] == Head(s, n);
    assert Pow10(0) == 1.0;
  }

  /** Are the limbs from index `i` on worth one unit or more of the limb before them?  Only a limb of 10^9 or more behind
      limbs of 10^9 - 1 makes them so. */
  predicate Carries(s: seq<int>, i: nat)
    decreases |s| - i
  {
    i < |s| && (s[i] >= BASE || (s[i] == BASE - 1 && Carries(s, i + 1)))
  }

  lemma NoneCarry(s: seq<int>, i: nat)
    requires forall k :: i <= k < |s| ==> s[k] < BASE
    ensures !Carries(s, i)
    decreases |s| - i
  {
    if i < |s| {
      NoneCarry(s, i + 1);
    }
  }

  lemma ValueSnoc(s: seq<int>, i: nat, rp: int)
    requires i < |s|
    ensures Value(s[..i + 1], rp) == Value(s[..i], rp) + s[i] as real * Pow10(rp - 9 * (i + 1))
    ensures Pow10(rp - 9 * i) == BASE as real * Pow10(rp - 9 * (i + 1))
  {
    hide Int, Pow10;
    var u := Pow10(rp - 9 * (i + 1));
    assert s[..i + 1] == s[..i] + [s[i]];
    IntAppend(s[..i], s[i]);
    Pow10Limb(rp - 9 * (i + 1));
    assert rp - 9 * (i + 1) + 9 == rp - 9 * i;
    Unfold(Int(s[..i]), s[i], u);
  }

  lemma Unfold(n: int, x: int, u: real)
    ensures (n * BASE + x) as real * u == n as real * (BASE as real * u) + x as real * u
  {
  }

  /** What the limbs from index `i` on are worth: less than two units, and one or more exactly if they carry. */
  lemma {:induction false} Fraction(s: seq<int>, rp: int, i: nat)
    requires Bounded(s, LOOSE) && i <= |s|
    ensures var r, u := Value(s, rp) - Value(s[..i], rp), Pow10(rp - 9 * i);
            0.0 <= r < 2.0 * u && (r >= u <==> Carries(s, i))
    decreases |s| - i
  {
    hide Value, Pow10;
    if i == |s| {
      assert s[..i] == s;
    } else {
      Fraction(s, rp, i + 1);
      ValueSnoc(s, i, rp);
      FractionStep(s[i], Pow10(rp - 9 * (i + 1)), Value(s, rp) - Value(s[..i + 1], rp));
    }
  }

  lemma FractionStep(x: int, u: real, r: real)
    requires 0 <= x <= LOOSE && u > 0.0 && 0.0 <= r < 2.0 * u
    ensures var w, b := x as real * u + r, BASE as real * u;
            0.0 <= w < 2.0 * b && (w >= b <==> x >= BASE || (x == BASE - 1 && r >= u))
  {
    var y, b := x as real, BASE as real;
    NotNegative(y, u);
    NotNegative(2.0 * b - 2.0 - y, u);
    if x >= BASE {
      NotNegative(y - b, u);
    } else if x < BASE - 1 {
      NotNegative(b - 2.0 - y, u);
    }
  }

  lemma NotNegative(a: real, u: real)
    requires a >= 0.0 && u > 0.0
    ensures a * u >= 0.0
  {
  }

  /** The assembled integer falls short of the number by less than one unit if and only if the limbs behind it do not
      carry, and by less than two in any case. */
  lemma TruncatedIff(s: seq<int>, n: nat)
    requires Bounded(s, LOOSE)
    ensures Top(s, n) as real <= Value(s, 9 * n) < Top(s, n) as real + 2.0
    ensures Value(s, 9 * n) < Top(s, n) as real + 1.0 <==> !Carries(s, n)
  {
    hide Int, Value, Carries;
    ValueAtLeastTop(s, n);
    TopIsPrefix(s, n);
    if n <= |s| {
      Fraction(s, 9 * n, n);
    } else {
      assert !Carries(s, n) by { NoneCarry(s, n); }
    }
    assert Pow10(0) == 1.0;
  }

  lemma TopIsPrefix(s: seq<int>, n: nat)
    ensures n <= |s| ==> Value(s[..n], 9 * n) == Top(s, n) as real
    ensures n > |s| ==> Value(s, 9 * n) == Top(s, n) as real
  {
    hide Int;
    assert Pow10(0) == 1.0;
    if n <= |s| {
      assert s[..n] == Head(s, n);
    } else {
      var padded := Head(s, n);
      assert padded[..|s|] == s;
      ValueDropZeros(padded, |s|, 9 * n);
    }
  }
}
