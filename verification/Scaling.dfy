/**
 The normalisation of decfloat as functions on limb sequences: alignment of the
 radix point, multiplication until the number is large enough, shifting until the
 top limbs hold one mantissa.  The ring computes exactly these; they say when no
 limb is ever folded away, and give a bound on digits and radix point that a
 caller can check and that implies it.
 */
module Scaling {
  import opened Decimal
  import opened Normalise
  import opened Words

  /** Limbs, radix point, binary exponent, and whether everything has fitted so far. */
  datatype Held = Held(limbs: seq<int>, rp: int, e2: int, exact: bool)

  /** What the ring can hold. */
  ghost predicate Good(fmt: Format, s: seq<int>) {
    Bounded(s, LOOSE) && 1 <= |s| <= fmt.Capacity() && s[0] > 0
  }

  // ---- the two loops ---------------------------------------------------------------------------

  /** Is the number still too small? */
  ghost predicate TooSmall(fmt: Format, h: Held)
    requires h.limbs != []
  {
    h.rp < 9 * fmt.Dig() || (h.rp == 9 * fmt.Dig() && h.limbs[0] < fmt.Threshold()[0])
  }

  ghost function Multiplied(fmt: Format, h: Held): (r: Held)
    requires Good(fmt, h.limbs)
    ensures Good(fmt, r.limbs) && (h.exact && Bounded(h.limbs, BASE) && r.exact ==> Bounded(r.limbs, BASE))
  {
    MulStepBounds(h.limbs, fmt.Capacity());
    Held(MulStep(h.limbs, fmt.Capacity()), MulPoint(h.limbs, h.rp), h.e2 - 29, h.exact && MulFits(h.limbs, fmt.Capacity()))
  }

  lemma MulFalls(fmt: Format, h: Held)
    requires Good(fmt, h.limbs)
    ensures var r := Multiplied(fmt, h);
            r.rp == h.rp + 9 || (r.rp == h.rp && r.limbs[0] >= MULTIPLIER > h.limbs[0])
  {
    hide MulStep, MulFits, MulCarry;
    MulStepBounds(h.limbs, fmt.Capacity());
  }

  ghost function Up(fmt: Format, h: Held): (r: Held)
    requires Good(fmt, h.limbs)
    ensures Good(fmt, r.limbs) && !TooSmall(fmt, r)
    decreases 9 * fmt.Dig() + 9 - h.rp, if h.limbs[0] < MULTIPLIER then 1 else 0
  {
    if !TooSmall(fmt, h) then h
    else
      MulFalls(fmt, h);
      Up(fmt, Multiplied(fmt, h))
  }

  /** Do the top limbs hold one mantissa, and the radix point stand behind them? */
  ghost predicate Fitting(fmt: Format, h: Held) {
    h.rp == 9 * fmt.Dig() && !Exceeds(h.limbs, fmt.Threshold(), 0)
  }

  /** Nine bits at a time while there is more than a limb to go. */
  function ShiftBy(fmt: Format, rp: int): int {
    if rp > 9 + 9 * fmt.Dig() then 9 else 1
  }

  function Divisor(sh: int): int {
    if sh == 9 then 512 else 2
  }

  ghost function Shifted(fmt: Format, h: Held): (r: Held)
    requires Good(fmt, h.limbs)
    ensures Good(fmt, r.limbs) && (h.exact && Bounded(h.limbs, BASE) && r.exact ==> Bounded(r.limbs, BASE))
  {
    var sh := ShiftBy(fmt, h.rp);
    var d := Divisor(sh);
    DivStepBounds(h.limbs, d, fmt.Capacity());
    Held(DivStep(h.limbs, d, fmt.Capacity()), DivPoint(h.limbs, d, h.rp), h.e2 + sh,
         h.exact && DivFits(h.limbs, d, fmt.Capacity()))
  }

  /** The radix point stands at or behind its final place, on a limb boundary. */
  ghost predicate High(fmt: Format, h: Held) {
    h.rp % 9 == 0 && h.rp >= 9 * fmt.Dig()
  }

  lemma ShiftFalls(fmt: Format, h: Held)
    requires Good(fmt, h.limbs) && High(fmt, h) && !Fitting(fmt, h)
    ensures var r := Shifted(fmt, h);
            && High(fmt, r) && (r.rp < h.rp || (r.rp == h.rp && r.limbs[0] < h.limbs[0]))
            && r.rp >= h.rp - 9
  {
    hide DivStep, DivPass, Exceeds, DivFits;
    var d := Divisor(ShiftBy(fmt, h.rp));
    DivStepBounds(h.limbs, d, fmt.Capacity());
    DivPassLead(h.limbs, d);
    if h.rp == 9 * fmt.Dig() {
      ShiftKeepsMantissa(fmt, h.limbs);
    }
  }

  ghost function Down(fmt: Format, h: Held): (r: Held)
    requires Good(fmt, h.limbs) && High(fmt, h)
    ensures Good(fmt, r.limbs) && Fitting(fmt, r)
    decreases h.rp, h.limbs[0]
  {
    if Fitting(fmt, h) then h
    else
      ShiftFalls(fmt, h);
      Down(fmt, Shifted(fmt, h))
  }

  // ---- what they conserve -----------------------------------------------------------------------

  ghost function Worth(h: Held): real {
    Number(h.limbs, h.rp, h.e2)
  }

  /** While nothing is folded away the multiplication loop keeps the number. */
  lemma {:induction false} UpConserves(fmt: Format, h: Held)
    requires Good(fmt, h.limbs)
    ensures Up(fmt, h).exact ==> h.exact && Worth(Up(fmt, h)) == Worth(h)
    decreases 9 * fmt.Dig() + 9 - h.rp, if h.limbs[0] < MULTIPLIER then 1 else 0
  {
    hide Number, MulStep, MulPoint, MulFits;
    if TooSmall(fmt, h) {
      MulFalls(fmt, h);
      UpConserves(fmt, Multiplied(fmt, h));
      if MulFits(h.limbs, fmt.Capacity()) {
        MulStepNumber(h.limbs, h.rp, h.e2, fmt.Capacity());
      }
    }
  }

  /** So does the shifting loop. */
  lemma {:induction false} DownConserves(fmt: Format, h: Held)
    requires Good(fmt, h.limbs) && High(fmt, h)
    ensures Down(fmt, h).exact ==> h.exact && Worth(Down(fmt, h)) == Worth(h)
    decreases h.rp, h.limbs[0]
  {
    hide Number, DivStep, DivPoint, DivFits, Exceeds;
    if !Fitting(fmt, h) {
      ShiftFalls(fmt, h);
      DownConserves(fmt, Shifted(fmt, h));
      ShiftedWorth(fmt, h);
    }
  }

  lemma ShiftedWorth(fmt: Format, h: Held)
    requires Good(fmt, h.limbs)
    ensures Shifted(fmt, h).exact ==> h.exact && Worth(Shifted(fmt, h)) == Worth(h)
  {
    hide Number, DivStep, DivPoint, DivFits;
    var sh := ShiftBy(fmt, h.rp);
    assert TwoTo(1) == 2 && TwoTo(9) == 512;
    if DivFits(h.limbs, Divisor(sh), fmt.Capacity()) {
      DivStepNumber(h.limbs, sh, h.rp, h.e2, fmt.Capacity());
    }
  }

  /** From a number that is large enough on, the shifting loop stops with exactly one mantissa in the top limbs. */
  lemma {:induction false} DownMantissa(fmt: Format, h: Held)
    requires Good(fmt, h.limbs) && High(fmt, h)
    requires h.rp == 9 * fmt.Dig() ==> Top(h.limbs, fmt.Dig()) >= TwoTo(fmt.MantDig() - 1)
    ensures TwoTo(fmt.MantDig() - 1) <= Top(Down(fmt, h).limbs, fmt.Dig()) <= TwoTo(fmt.MantDig()) - 1
    decreases h.rp, h.limbs[0]
  {
    hide Shifted, Exceeds, Top, TwoTo;
    ExceedsIffTooLarge(fmt, h.limbs);
    if !Fitting(fmt, h) {
      ShiftFalls(fmt, h);
      ShiftMantissa(fmt, h);
      DownMantissa(fmt, Shifted(fmt, h));
    }
  }

  lemma ShiftMantissa(fmt: Format, h: Held)
    requires Good(fmt, h.limbs) && High(fmt, h) && !Fitting(fmt, h)
    ensures Shifted(fmt, h).rp == 9 * fmt.Dig() ==> Top(Shifted(fmt, h).limbs, fmt.Dig()) >= TwoTo(fmt.MantDig() - 1)
  {
    hide DivStep, DivPass, DivFits, Exceeds, Top, TwoTo;
    if h.rp == 9 * fmt.Dig() {
      ShiftKeepsMantissa(fmt, h.limbs);
    } else if ShiftBy(fmt, h.rp) == 1 && DivPass(h.limbs, 2)[0] == 0 {
      ShiftAcrossLimb(fmt, h.limbs);
    }
  }

  // ---- when everything fits -----------------------------------------------------------------------

  /** The bits of a number. */
  function BitLen(n: nat): nat {
    if n == 0 then 0 else 1 + BitLen(n / 2)
  }

  lemma {:induction false} BitLenAtMost(n: nat, k: nat)
    requires n < TwoTo(k)
    ensures BitLen(n) <= k
  {
    if n > 0 {
      BitLenAtMost(n / 2, k - 1);
    }
  }

  lemma {:induction false} BelowBitLen(n: nat)
    ensures n + 1 <= TwoTo(BitLen(n))
  {
    if n > 0 {
      BelowBitLen(n / 2);
    }
  }

  lemma BitLenHalf(n: nat)
    requires n > 0
    ensures BitLen(n / 2) == BitLen(n) - 1
  {
  }

  lemma BitLenEighth(n: nat)
    requires n >= 8
    ensures BitLen(n / 8) == BitLen(n) - 3
  {
    BitLenHalf(n);
    BitLenHalf(n / 2);
    BitLenHalf(n / 4);
    hide BitLen;
    assert n / 2 / 2 == n / 4 && n / 4 / 2 == n / 8;
  }

  lemma BitLenNine(n: nat)
    requires n >= 512
    ensures BitLen(n / 512) == BitLen(n) - 9
  {
    hide BitLen;
    BitLenEighth(n);
    BitLenEighth(n / 8);
    BitLenEighth(n / 8 / 8);
    assert n / 8 / 8 / 8 == n / 512;
  }

  /** Thirty bits for every limb before the radix point, and those of the leading limb: a bound on the bits by
      which the number can still be shifted. */
  ghost function Potential(h: Held): int
    requires h.limbs != [] && h.limbs[0] >= 0
  {
    30 * (h.rp / 9) + BitLen(h.limbs[0])
  }

  /** The limb that takes the lead when the first vanishes. */
  lemma NextLead(x: nat, y: nat, sh: int)
    requires sh == 1 || sh == 9
    requires 0 < x < Divisor(sh) && y <= BASE / Divisor(sh) * (x + 1)
    ensures BitLen(y) <= BitLen(x) + 30 - sh
  {
    hide BitLen, TwoTo;
    BelowBitLen(x);
    if sh == 9 {
      NextLeadNine(x, y, BitLen(x));
    } else {
      TwoTo30();
      OneBit();
      BitLenAtMost(y, 30);
    }
  }

  lemma OneBit()
    ensures BitLen(1) == 1
  {
  }

  lemma NextLeadNine(x: nat, y: nat, k: nat)
    requires x + 1 <= TwoTo(k) && y <= 1953125 * (x + 1)
    ensures BitLen(y) <= k + 21
  {
    hide BitLen, TwoTo;
    TwoToAdd(k, 21);
    TwentyOne();
    assert TwoTo(k + 21) == TwoTo(k) * 2097152;
    BitLenAtMost(y, k + 21);
  }

  lemma TwentyOne()
    ensures TwoTo(21) == 2097152
  {
    assert TwoTo(7) == 128;
    TwoToAdd(7, 7);
    TwoToAdd(14, 7);
  }

  lemma TwoTo30()
    ensures TwoTo(30) == 1073741824
  {
    TwentyOne();
    assert TwoTo(9) == 512;
    TwoToAdd(21, 9);
  }

  lemma DivLead(s: seq<int>, d: int)
    requires d == 2 || d == 512
    requires Bounded(s, BASE) && s != [] && s[0] > 0
    ensures DivPass(s, d)[0] == s[0] / d
    ensures s[0] < d ==> 0 <= DivPass(s, d)[1] <= BASE / d * (s[0] + 1)
  {
  }

  /** Every shift takes at least its bits off the bound. */
  lemma ShiftPays(fmt: Format, h: Held)
    requires Good(fmt, h.limbs) && High(fmt, h) && !Fitting(fmt, h) && Bounded(h.limbs, BASE)
    ensures Potential(Shifted(fmt, h)) <= Potential(h) - ShiftBy(fmt, h.rp)
  {
    hide DivPass, Exceeds, DivFits, BitLen, TwoTo;
    var sh := ShiftBy(fmt, h.rp);
    var d := Divisor(sh);
    var s := h.limbs;
    ShiftFalls(fmt, h);
    DivStepBounds(s, d, fmt.Capacity());
    DivLead(s, d);
    DivPassLead(s, d);
    var r := Shifted(fmt, h);
    if s[0] < d {
      SmallQuotient(s[0], d);
      LeadAfter(s, d, fmt.Capacity());
      NextLead(s[0], r.limbs[0], sh);
      assert r.rp / 9 == h.rp / 9 - 1;
    } else {
      LargeQuotient(s[0], d);
      LeadBits(s[0], sh);
    }
  }

  lemma LargeQuotient(x: int, d: int)
    requires d == 2 || d == 512
    requires x >= d
    ensures x / d > 0
  {
  }

  lemma LeadBits(x: nat, sh: int)
    requires sh == 1 || sh == 9
    requires x >= Divisor(sh)
    ensures BitLen(x / Divisor(sh)) == BitLen(x) - sh
  {
    if sh == 9 {
      BitLenNine(x);
    }
  }

  /** The leading limb after a shift that makes the first vanish. */
  lemma LeadAfter(s: seq<int>, d: int, cap: nat)
    requires d == 2 || d == 512
    requires Bounded(s, LOOSE) && s != [] && s[0] > 0 && DivPass(s, d)[0] == 0 && 2 <= cap && |s| <= cap
    ensures DivStep(s, d, cap) != [] && DivStep(s, d, cap)[0] == DivPass(s, d)[1]
  {
    hide DivPass;
    DivPassLead(s, d);
    DivPassBounds(s, d, LOOSE);
  }

  /** A limb appended holds nine more bits than have been shifted out so far, or `j` bits of it are still
      unused: the limbs spell a multiple of 2^j. */
  ghost predicate Slack(s: seq<int>, j: int) {
    j <= 8 && (j > 0 ==> Int(s) % TwoTo(j) == 0)
  }

  /** Nine times the most limbs there will be. */
  ghost function Need(fmt: Format, h: Held, j: int): int
    requires h.limbs != [] && h.limbs[0] >= 0
  {
    9 * |h.limbs| - h.rp + Potential(h) - 21 * fmt.Dig() + 7 - j
  }

  /** The carry out of a division by 2 or 512 is zero exactly if the limbs spell a multiple of it. */
  lemma CarryOut(s: seq<int>, d: int)
    requires d == 2 || d == 512
    requires s != [] && Bounded(s, LOOSE)
    ensures DivPass(s, d)[|s|] == 0 <==> Int(s) % d == 0
  {
    hide Int, DivPass;
    var n := |s| - 1;
    IntLast(s);
    LastCarry(s, d);
    LastDecides(Int(s[..n]), s[n], d);
  }

  lemma IntLast(s: seq<int>)
    requires s != []
    ensures Int(s) == Int(s[..|s| - 1]) * BASE + s[|s| - 1]
  {
    hide Int;
    assert s == s[..|s| - 1] + [s[|s| - 1]];
    IntAppend(s[..|s| - 1], s[|s| - 1]);
  }

  lemma LastCarry(s: seq<int>, d: int)
    requires d == 2 || d == 512
    requires s != []
    ensures DivPass(s, d)[|s|] == 0 <==> s[|s| - 1] % d == 0
  {
  }

  lemma LastDecides(n: int, x: int, d: int)
    requires d == 2 || d == 512
    ensures (n * BASE + x) % d == x % d
  {
    if d == 2 {
      ModShift(x, 2, n * 500000000);
    } else {
      ModShift(x, 512, n * 1953125);
    }
  }

  /** What the limbs spell after a shift, with or without a new limb. */
  lemma ShiftSpells(s: seq<int>, d: int, cap: nat)
    requires d == 2 || d == 512
    requires s != [] && Bounded(s, LOOSE) && s[0] > 0 && 2 <= cap && |s| <= cap && DivFits(s, d, cap)
    ensures var t := DivStep(s, d, cap);
            if DivPass(s, d)[|s|] == 0 then d * Int(t) == Int(s) else d * Int(t) == Int(s) * BASE
  {
    hide DivPass, Int, DivStep, DivFits;
    DivPassInt(s, d);
    StepInt(s, d, cap);
    if DivPass(s, d)[|s|] == 0 {
      CancelBase(d, Int(DivStep(s, d, cap)), Int(s));
    }
  }

  lemma StepInt(s: seq<int>, d: int, cap: nat)
    requires DividesBase(d) && s != [] && Bounded(s, LOOSE) && 2 <= cap && DivFits(s, d, cap)
    ensures var p, t := DivPass(s, d), DivStep(s, d, cap);
            Int(p) == if p[|s|] == 0 then Int(t) * BASE else Int(t)
  {
    hide DivPass, Int;
    DivPassBounds(s, d, LOOSE);
    var p := DivPass(s, d);
    var u := if p[0] == 0 then p[1..] else p;
    assert Int(u) == Int(p) by {
      if p[0] == 0 {
        assert p == [0] + u;
        IntLeadingZero(u);
      }
    }
    var v, c := DivRest(s, d), p[|s|];
    assert u == v + [c];
    IntAppend(v, c);
  }

  lemma CancelBase(d: int, m: int, n: int)
    requires d * (m * BASE) == n * BASE
    ensures d * m == n
  {
    assert d * (m * BASE) == (d * m) * BASE;
  }

  /** Slack after a shift: a limb that was appended brings nine bits, the shift uses its own. */
  lemma SlackAfter(n: int, m: int, sh: int, j: int)
    requires sh == 1 || sh == 9
    requires j <= 8 && (j > 0 ==> n % TwoTo(j) == 0)
    ensures Divisor(sh) * m == n ==> (j - sh > 0 ==> m % TwoTo(j - sh) == 0)
    ensures Divisor(sh) * m == n * BASE && (sh == 1 ==> j <= 0) ==> j + 9 - sh <= 8 && (j + 9 - sh > 0 ==> m % TwoTo(j + 9 - sh) == 0)
  {
    hide TwoTo;
    if Divisor(sh) * m == n && j > sh {
      HalfOfMultiple(n, m, j);
    }
    if Divisor(sh) * m == n * BASE && (sh == 1 ==> j <= 0) {
      if sh == 9 {
        assert m == n * 1953125;
        if j > 0 {
          TimesOdd(n, TwoTo(j), 1953125);
        }
      } else if j + 8 > 0 {
        assert m == n * 500000000;
        ManyTwos(n, j + 8);
      }
    }
  }

  lemma HalfOfMultiple(n: int, m: int, j: int)
    requires j > 1 && 2 * m == n && n % TwoTo(j) == 0
    ensures m % TwoTo(j - 1) == 0
  {
    var t := TwoTo(j - 1);
    TwoToStep(j - 1);
    var q := n / (2 * t);
    assert n == (2 * t) * q;
    MulRegroup(2, t, q);
    DivUnique(m, t, q, 0);
  }

  lemma TimesOdd(n: int, t: int, k: int)
    requires t > 0 && n % t == 0
    ensures (n * k) % t == 0
  {
    var q := n / t;
    assert n == t * q;
    MulRegroup(t, q, k);
    DivUnique(n * k, t, q * k, 0);
  }

  lemma ManyTwos(n: int, i: int)
    requires 0 < i <= 8
    ensures (n * 500000000) % TwoTo(i) == 0
  {
    var t := TwoTo(i);
    TwoToAdd(i, 8 - i);
    assert TwoTo(8) == 256;
    var q := TwoTo(8 - i);
    assert n * 500000000 == (t * q) * (n * 1953125);
    MulRegroup(t, q, n * 1953125);
    DivUnique(n * 500000000, t, q * (n * 1953125), 0);
  }

  /** One shift finds room, and leaves the bound where it was. */
  lemma ShiftRoom(fmt: Format, h: Held, j: int) returns (j': int)
    requires Good(fmt, h.limbs) && High(fmt, h) && !Fitting(fmt, h) && Bounded(h.limbs, BASE)
    requires Slack(h.limbs, j) && Need(fmt, h, j) <= 9 * fmt.Capacity()
    ensures Shifted(fmt, h).exact == h.exact
    ensures Slack(Shifted(fmt, h).limbs, j') && Need(fmt, Shifted(fmt, h), j') <= Need(fmt, h, j)
  {
    hide DivPass, Exceeds, BitLen, TwoTo, Int;
    var sh := ShiftBy(fmt, h.rp);
    var d := Divisor(sh);
    var s, cap := h.limbs, fmt.Capacity();
    var r := Shifted(fmt, h);
    ShiftPays(fmt, h);
    ShiftFalls(fmt, h);
    CarryOut(s, d);
    LeadCounts(r);
    var carry := DivPass(s, d)[|s|];
    if carry != 0 && sh == 1 {
      OddSlack(Int(s), j);
    }
    assert DivFits(s, d, cap) by { RoomLeft(fmt, h, j, r); }
    ShiftSpells(s, d, cap);
    SlackAfter(Int(s), Int(r.limbs), sh, j);
    j' := if carry == 0 then j - sh else j + 9 - sh;
    ShiftLength(s, d, cap);
  }

  lemma OddSlack(n: int, j: int)
    requires n % 2 != 0 && (j > 0 ==> n % TwoTo(j) == 0) && j <= 8
    ensures j <= 0
  {
    hide TwoTo;
    if j > 0 {
      EvenMultiple(n, TwoTo(j - 1)) by { TwoToStep(j - 1); }
    }
  }

  lemma EvenMultiple(n: int, t: int)
    requires t > 0 && n % (2 * t) == 0
    ensures n % 2 == 0
  {
    var q := n / (2 * t);
    assert n == (2 * t) * q;
    MulRegroup(2, t, q);
    DivUnique(n, 2, t * q, 0);
  }

  lemma LeadCounts(h: Held)
    requires h.limbs != [] && h.limbs[0] > 0
    ensures Potential(h) >= 30 * (h.rp / 9) + 1
  {
  }

  lemma ShiftLength(s: seq<int>, d: int, cap: nat)
    requires DividesBase(d) && s != [] && Bounded(s, LOOSE) && 2 <= cap && DivFits(s, d, cap)
    ensures |DivStep(s, d, cap)| == |s| - (if DivPass(s, d)[0] == 0 then 1 else 0) + (if DivPass(s, d)[|s|] == 0 then 0 else 1)
  {
    hide DivPass;
  }

  lemma RoomLeft(fmt: Format, h: Held, j: int, r: Held)
    requires Good(fmt, h.limbs) && High(fmt, h) && High(fmt, r) && r == Shifted(fmt, h)
    requires Potential(r) >= 30 * (r.rp / 9) + 1 && Potential(r) <= Potential(h) - ShiftBy(fmt, h.rp)
    requires j <= 8 && Need(fmt, h, j) <= 9 * fmt.Capacity()
    requires DivPass(h.limbs, Divisor(ShiftBy(fmt, h.rp)))[|h.limbs|] != 0 && ShiftBy(fmt, h.rp) == 1 ==> j <= 0
    ensures DivFits(h.limbs, Divisor(ShiftBy(fmt, h.rp)), fmt.Capacity())
  {
    hide DivPass, BitLen, DivStep;
  }

  /** If the bound leaves room, nothing is folded away while shifting. */
  lemma {:induction false} DownRoom(fmt: Format, h: Held, j: int)
    requires Good(fmt, h.limbs) && High(fmt, h) && Bounded(h.limbs, BASE) && h.exact
    requires Slack(h.limbs, j) && Need(fmt, h, j) <= 9 * fmt.Capacity()
    ensures Down(fmt, h).exact
    decreases h.rp, h.limbs[0]
  {
    hide Shifted, Exceeds, Need, Slack;
    if !Fitting(fmt, h) {
      ShiftFalls(fmt, h);
      var j' := ShiftRoom(fmt, h, j);
      DownRoom(fmt, Shifted(fmt, h), j');
    }
  }

  /** A multiplication never lowers the place of the last limb. */
  lemma MulLow(fmt: Format, h: Held)
    requires Good(fmt, h.limbs)
    ensures var r := Multiplied(fmt, h);
            && 9 * |r.limbs| - r.rp <= 9 * |h.limbs| - h.rp && (|h.limbs| < fmt.Capacity() ==> r.exact == h.exact)
            && (h.rp % 9 == 0 ==> r.rp % 9 == 0)
  {
    hide MulPass;
  }

  /** If there is room up to the final place of the radix point and one limb more, nothing is folded away while
      multiplying. */
  lemma {:induction false} UpRoom(fmt: Format, h: Held)
    requires Good(fmt, h.limbs) && h.rp % 9 == 0 && h.exact && Bounded(h.limbs, BASE)
    requires 9 * |h.limbs| - h.rp + 9 * fmt.Dig() + 9 <= 9 * fmt.Capacity()
    ensures var r := Up(fmt, h);
            && r.exact && Bounded(r.limbs, BASE) && 9 * |r.limbs| - r.rp <= 9 * |h.limbs| - h.rp
            && (r.rp <= h.rp || r.rp <= 9 * fmt.Dig() + 9)
    decreases 9 * fmt.Dig() + 9 - h.rp, if h.limbs[0] < MULTIPLIER then 1 else 0
  {
    hide Multiplied;
    if TooSmall(fmt, h) {
      MulFalls(fmt, h);
      MulLow(fmt, h);
      assert Bounded(Multiplied(fmt, h).limbs, BASE);
      UpRoom(fmt, Multiplied(fmt, h));
    }
  }

  lemma {:induction false} UpPoint(fmt: Format, h: Held)
    requires Good(fmt, h.limbs) && h.rp % 9 == 0
    ensures Up(fmt, h).rp % 9 == 0
    decreases 9 * fmt.Dig() + 9 - h.rp, if h.limbs[0] < MULTIPLIER then 1 else 0
  {
    hide Multiplied;
    if TooSmall(fmt, h) {
      MulFalls(fmt, h);
      MulLow(fmt, h);
      UpPoint(fmt, Multiplied(fmt, h));
    }
  }

  /** The radix point overshoots its final place by at most a limb. */
  lemma {:induction false} UpHeight(fmt: Format, h: Held)
    requires Good(fmt, h.limbs) && h.rp % 9 == 0
    ensures Up(fmt, h).rp <= h.rp || Up(fmt, h).rp <= 9 * fmt.Dig() + 9
    decreases 9 * fmt.Dig() + 9 - h.rp, if h.limbs[0] < MULTIPLIER then 1 else 0
  {
    hide Multiplied;
    if TooSmall(fmt, h) {
      MulFalls(fmt, h);
      MulLow(fmt, h);
      UpHeight(fmt, Multiplied(fmt, h));
    }
  }

  // ---- the whole normalisation -----------------------------------------------------------------------

  /** p10s */
  const P10S: seq<int> := [10, 100, 1000, 10000, 100000, 1000000, 10000000, 100000000]

  lemma Pow10Digits(e: int, k: int)
    requires 1 <= k <= 8
    ensures Pow10(e + k) == P10S[k - 1] as real * Pow10(e)
  {
    Pow10Step(e);
    Pow10Step(e + 1);
    Pow10Step(e + 2);
    Pow10Step(e + 3);
    Pow10Step(e + 4);
    Pow10Step(e + 5);
    Pow10Step(e + 6);
    Pow10Step(e + 7);
    hide Pow10;
    assert k == 1 || k == 2 || k == 3 || k == 4 || k == 5 || k == 6 || k == 7 || k == 8;
  }

  /** Dividing by 10^(9 - rpm9) and moving the point as far right leaves the number alone. */
  lemma AlignValue(s: seq<int>, rp: int, cap: nat)
    requires Bounded(s, LOOSE) && 1 <= |s| < cap && rp % 9 != 0
    ensures var p10 := P10S[8 - rp % 9];
            && DividesBase(p10) && DivFits(s, p10, cap)
            && Value(DivStep(s, p10, cap), DivPoint(s, p10, rp) + 9 - rp % 9) == Value(s, rp)
  {
    hide DivPass, DivStep, Int, Pow10;
    var k := 9 - rp % 9;
    var p10 := P10S[k - 1];
    assert DividesBase(p10);
    DivStepValue(s, p10, rp, cap);
    var t, q := DivStep(s, p10, cap), DivPoint(s, p10, rp);
    Pow10Digits(q - 9 * |t|, k);
    PointMoves(Int(t), Pow10(q - 9 * |t|), Pow10(q + k - 9 * |t|), p10);
  }

  lemma PointMoves(n: int, p: real, q: real, k: int)
    requires q == k as real * p
    ensures n as real * q == k as real * (n as real * p)
  {
  }

  /** The limbs with the radix point on a limb boundary. */
  ghost function Aligned(fmt: Format, s: seq<int>, rp: int): (h: Held)
    requires Good(fmt, s) && |s| < fmt.Capacity()
    ensures Good(fmt, h.limbs) && h.rp % 9 == 0 && (Bounded(s, BASE) ==> Bounded(h.limbs, BASE))
    ensures 9 * |h.limbs| - h.rp <= 9 * |s| - rp + 8 && h.rp <= rp + 8 && h.e2 == 0 && h.exact
  {
    if rp % 9 == 0 then Held(s, rp, 0, true)
    else
      AlignFacts(fmt, s, rp);
      var p10 := P10S[8 - rp % 9];
      Held(DivStep(s, p10, fmt.Capacity()), DivPoint(s, p10, rp) + 9 - rp % 9, 0, true)
  }

  lemma AlignFacts(fmt: Format, s: seq<int>, rp: int)
    requires Good(fmt, s) && |s| < fmt.Capacity() && rp % 9 != 0
    ensures var p10 := P10S[8 - rp % 9];
            && DividesBase(p10)
            && var t, q := DivStep(s, p10, fmt.Capacity()), DivPoint(s, p10, rp) + 9 - rp % 9;
               && Good(fmt, t) && q % 9 == 0 && (Bounded(s, BASE) ==> Bounded(t, BASE))
               && 9 * |t| - q <= 9 * |s| - rp + 8 && q <= rp + 8
  {
    hide DivPass, Value;
    var p10 := P10S[8 - rp % 9];
    AlignValue(s, rp, fmt.Capacity());
    DivStepBounds(s, p10, fmt.Capacity());
    ShiftLength(s, p10, fmt.Capacity());
  }

  /** Alignment, multiplication, shifting. */
  ghost function Normalised(fmt: Format, s: seq<int>, rp: int): (h: Held)
    requires Good(fmt, s) && |s| < fmt.Capacity()
    ensures Good(fmt, h.limbs) && Fitting(fmt, h)
  {
    var h := Aligned(fmt, s, rp);
    UpPoint(fmt, h);
    Down(fmt, Up(fmt, h))
  }

  /** If nothing was folded away, limbs times 2^e2 are worth what was scanned. */
  lemma NormalisedWorth(fmt: Format, s: seq<int>, rp: int)
    requires Good(fmt, s) && |s| < fmt.Capacity()
    ensures Normalised(fmt, s, rp).exact ==> Worth(Normalised(fmt, s, rp)) == Value(s, rp)
  {
    hide Value, Up, Down, DivStep, Pow2;
    var h := Aligned(fmt, s, rp);
    UpPoint(fmt, h);
    UpConserves(fmt, h);
    DownConserves(fmt, Up(fmt, h));
    AlignedWorth(fmt, s, rp);
  }

  lemma AlignedWorth(fmt: Format, s: seq<int>, rp: int)
    requires Good(fmt, s) && |s| < fmt.Capacity()
    ensures Worth(Aligned(fmt, s, rp)) == Value(s, rp)
  {
    hide Value, DivStep;
    assert Pow2(0) == 1.0;
    if rp % 9 != 0 {
      AlignValue(s, rp, fmt.Capacity());
    }
  }

  /** The top limbs end up holding one mantissa. */
  lemma NormalisedMantissa(fmt: Format, s: seq<int>, rp: int)
    requires Good(fmt, s) && |s| < fmt.Capacity()
    ensures TwoTo(fmt.MantDig() - 1) <= Top(Normalised(fmt, s, rp).limbs, fmt.Dig()) <= TwoTo(fmt.MantDig()) - 1
  {
    hide Up, Down, Top, TwoTo, Aligned;
    var h := Aligned(fmt, s, rp);
    UpPoint(fmt, h);
    var u := Up(fmt, h);
    if u.rp == 9 * fmt.Dig() {
      TopFromLead(fmt, u.limbs);
    }
    DownMantissa(fmt, u);
  }

  /** So many digits before a radix point so placed certainly leave room. */
  predicate Roomy(fmt: Format, digits: nat, rp: int) {
    var top := if rp + 8 > 9 * fmt.Dig() + 9 then rp + 8 else 9 * fmt.Dig() + 9;
    digits - rp + 30 * (top / 9) + 53 - 21 * fmt.Dig() <= 9 * fmt.Capacity()
  }

  /** Then nothing is folded away and the number is exact. */
  lemma RoomyIsExact(fmt: Format, s: seq<int>, rp: int, digits: nat)
    requires Good(fmt, s) && |s| < fmt.Capacity() && Bounded(s, BASE) && 9 * |s| <= digits + 8 && Roomy(fmt, digits, rp)
    ensures Normalised(fmt, s, rp).exact && Worth(Normalised(fmt, s, rp)) == Value(s, rp)
  {
    hide Value, Up, Down, DivStep, Pow2, BitLen, Aligned, Number, Exceeds, TwoTo;
    var h := Aligned(fmt, s, rp);
    UpPoint(fmt, h);
    UpRoom(fmt, h);
    var u := Up(fmt, h);
    LeadAtMost(u.limbs[0]);
    DownRoom(fmt, u, 0);
    NormalisedWorth(fmt, s, rp);
  }

  /** Every number of the range of the format with up to so many digits does. */
  lemma RoomyInRange(fmt: Format, digits: nat, rp: int)
    requires if fmt.Double? then -340 <= rp <= 310 && digits <= 380 else -4970 <= rp <= 4933 && digits <= 6800
    ensures Roomy(fmt, digits, rp)
  {
    var top := if rp + 8 > 9 * fmt.Dig() + 9 then rp + 8 else 9 * fmt.Dig() + 9;
    assert 9 * (top / 9) <= top;
  }

  lemma LeadAtMost(x: nat)
    requires x <= BASE
    ensures BitLen(x) <= 30
  {
    TwoTo30();
    BitLenAtMost(x, 30);
  }
}
