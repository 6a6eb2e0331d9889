/**
 A number for which the assembly pads past the array: from the text to the store
 outside, which does no harm to the mantissa.
 */
module Stray {
  import opened Decimal
  import opened Normalise
  import opened Words
  import opened Scaling
  import opened FloatScan
  import opened Digits
  import opened Decfloat
  import opened Numerals

  // ---- the shifting loop ------------------------------------------------------------------------

  function Pair(n: nat): (r: seq<int>) {
    [n / BASE, n % BASE]
  }

  /** Two limbs too large for a mantissa whose integer is even are halved. */
  lemma HalvePair(n: nat, e2: int)
    requires 17179869184 <= n <= 17179869184 * 65536
    ensures Good(Extended, Pair(2 * n)) && Good(Extended, Pair(n))
    ensures !Fitting(Extended, Held(Pair(2 * n), 27, e2, true))
    ensures Shifted(Extended, Held(Pair(2 * n), 27, e2, true)) == Held(Pair(n), 27, e2 + 1, true)
  {
  }

  lemma {:induction false} ShiftsDown(k: nat, e2: int)
    requires k <= 17
    ensures Good(Extended, Pair(17179869184 * TwoTo(k)))
    ensures Down(Extended, Held(Pair(17179869184 * TwoTo(k)), 27, e2, true)) == Held(Pair(17179869184), 27, e2 + k, true)
  {
    hide Shifted, Fitting, Pair, Good;
    if k > 0 {
      var n := 17179869184 * TwoTo(k - 1);
      assert 17179869184 * TwoTo(k) == 2 * n;
      TwoToBound(k - 1);
      HalvePair(n, e2);
      ShiftsDown(k - 1, e2 + 1);
    } else {
      LastPair(e2);
    }
  }

  lemma LastPair(e2: int)
    ensures Good(Extended, Pair(17179869184)) && Fitting(Extended, Held(Pair(17179869184), 27, e2, true))
    ensures Pair(17179869184) == [17, 179869184]
  {
  }

  lemma {:induction false} TwoToBound(k: nat)
    requires k < 17
    ensures TwoTo(k) <= 65536
  {
    TwoToAdd(k, 16 - k);
    assert TwoTo(8) == 256;
    TwoToAdd(8, 8);
  }

  // ---- the multiplication loop --------------------------------------------------------------------

  lemma MulSnoc(s: seq<int>, x: int, carry: int)
    ensures var (limb, c) := MulLimb(x, carry);
            MulPass(s + [x], carry) == (MulPass(s, c).0 + [limb], MulPass(s, c).1)
  {
    assert (s + [x])[..|s|] == s;
  }

  lemma MulTwo(x: int, y: int)
    ensures var (b, p) := MulLimb(y, 0); var (a, q) := MulLimb(x, p);
            MulPass([x, y], 0) == ([a, b], q)
  {
    var (b, p) := MulLimb(y, 0);
    var (a, q) := MulLimb(x, p);
    assert [x, y] == [x] + [y] && [x] == [] + [x];
    MulSnoc([x], y, 0);
    MulSnoc([], x, p);
    assert [] + [a] + [b] == [a, b];
  }

  lemma MulThree(x: int, y: int, z: int)
    ensures var (c, p) := MulLimb(z, 0); var (b, q) := MulLimb(y, p); var (a, r) := MulLimb(x, q);
            MulPass([x, y, z], 0) == ([a, b, c], r)
  {
    var (c, p) := MulLimb(z, 0);
    var (b, q) := MulLimb(y, p);
    var (a, r) := MulLimb(x, q);
    assert [x, y, z] == [x, y] + [z] && [x, y] == [x] + [y] && [x] == [] + [x];
    MulSnoc([x, y], z, 0);
    MulSnoc([x], y, p);
    MulSnoc([], x, q);
    assert [] + [a] + [b] + [c] == [a, b, c];
  }

  lemma TrimmedProducts()
    ensures TrimZeros([0, 0, 0]) == [0] && TrimZeros([0, 0]) == [0] && TrimZeros([813685248, 0]) == [813685248]
  {
    TrimUnique([0, 0, 0], 1);
    TrimUnique([0, 0], 1);
    TrimUnique([813685248, 0], 1);
  }

  /** Three multiplications, each with a carry. */
  lemma Products()
    ensures Multiplied(Extended, Held([14551915, 228366851, 806640625], 0, 0, true)) == Held([7812500, 0], 9, -29, true)
    ensures Multiplied(Extended, Held([7812500, 0], 9, -29, true)) == Held([4194304, 0], 18, -58, true)
    ensures Multiplied(Extended, Held([4194304, 0], 18, -58, true)) == Held([2251799, 813685248], 27, -87, true)
  {
    hide MulPass, TrimZeros;
    MulThree(14551915, 228366851, 806640625);
    MulTwo(7812500, 0);
    MulTwo(4194304, 0);
    TrimmedProducts();
  }

  lemma ProductsUp()
    ensures Up(Extended, Held([14551915, 228366851, 806640625], 0, 0, true)) == Held([2251799, 813685248], 27, -87, true)
  {
    hide Multiplied;
    Products();
    UpTo(Held([14551915, 228366851, 806640625], 0, 0, true));
    UpTo(Held([7812500, 0], 9, -29, true));
    UpTo(Held([4194304, 0], 18, -58, true));
    UpTo(Held([2251799, 813685248], 27, -87, true));
  }

  lemma UpTo(h: Held)
    requires Good(Extended, h.limbs)
    ensures Up(Extended, h) == if TooSmall(Extended, h) then Up(Extended, Multiplied(Extended, h)) else h
  {
    hide Multiplied;
  }

  // ---- the text -------------------------------------------------------------------------------------

  /** Four digits at once. */
  lemma NatFour(s: seq<int>, k: nat)
    requires k + 4 <= |s|
    ensures NatOf(s[..k + 4]) == 10000 * NatOf(s[..k]) + 1000 * s[k] + 100 * s[k + 1] + 10 * s[k + 2] + s[k + 3]
  {
    assert s[..k + 1] == s[..k] + [s[k]] && s[..k + 2] == s[..k + 1] + [s[k + 1]];
    assert s[..k + 3] == s[..k + 2] + [s[k + 2]] && s[..k + 4] == s[..k + 3] + [s[k + 3]];
    NatAppend(s[..k], s[k]);
    NatAppend(s[..k + 1], s[k + 1]);
    NatAppend(s[..k + 2], s[k + 2]);
    NatAppend(s[..k + 3], s[k + 3]);
  }

  lemma NatTwo(a: int, b: int)
    ensures NatOf([a, b]) == 10 * a + b
  {
    assert [a, b] == [] + [a] + [b];
    NatAppend([], a);
    NatAppend([] + [a], b);
  }

  const DIGITS: seq<int> := [1, 4, 5, 5, 1, 9, 1, 5, 2, 2, 8, 3, 6, 6, 8, 5, 1, 8, 0, 6, 6, 4, 0, 6, 2, 5]

  /** 0.014551915228366851806640625 */
  const TEXT: string := "0.0" + Spell(DIGITS)

  lemma ReadsAfterZero(text: string, ds: seq<int>)
    requires AreDigits(ds) && ds != [] && ds[0] != 0 && text == "0.0" + Spell(ds)
    ensures ReadMantissa(text, 0) == Mantissa(ds, |ds| + 1, true, true, |text|) && PointOf(text, 0) == -1
  {
    hide ReadOn, Spell;
    var m := Mantissa([], 0, false, false, 0);
    assert text[0] == '0' && text[1] == '.' && text[2] == '0' && Here(text, 3, Spell(ds));
    ReadStep(text, m);
    ReadStep(text, Mantissa([], 0, true, false, 1));
    ReadStep(text, Mantissa([], 0, true, true, 2));
    var n := Mantissa([], 1, true, true, 3);
    ReadsSpelled(text, n, ds);
    assert [] + ds == ds;
    ReadEnds(text, ReadToo(n, ds));
  }

  lemma TextReads()
    ensures var m := ReadMantissa(TEXT, 0); m.digits == DIGITS && m.frac == 27 && m.seen && m.end == |TEXT|
    ensures PointOf(TEXT, 0) == -1
  {
    hide ReadMantissa, PointOf, Spell;
    ReadsAfterZero(TEXT, DIGITS);
  }

  lemma DigitsSpell()
    ensures NatOf(DIGITS) == 14551915228366851806640625
  {
    hide NatOf;
    NatTwo(1, 4);
    assert DIGITS[..2] == [1, 4];
    NatFour(DIGITS, 2);
    NatFour(DIGITS, 6);
    NatFour(DIGITS, 10);
    NatFour(DIGITS, 14);
    NatFour(DIGITS, 18);
    NatFour(DIGITS, 22);
    assert DIGITS[..26] == DIGITS;
  }

  lemma StartsFrom()
    ensures StartLimbs(Extended, DIGITS) == [145519152, 283668518, 66406250]
  {
    hide NatOf, TrimZeros;
    DigitsSpell();
    var n := 145519152283668518066406250;
    assert TenTo(1) == 10;
    assert Groups(n, 3) == [145519152, 283668518, 66406250] by {
      assert Groups(145519152, 1) == [145519152];
      assert Groups(145519152283668518, 2) == [145519152, 283668518];
    }
    TrimUnique([145519152, 283668518, 66406250], 3);
  }

  lemma AlignsTo()
    ensures Aligned(Extended, [145519152, 283668518, 66406250], -1) == Held([14551915, 228366851, 806640625], 0, 0, true)
  {
  }

  lemma NormalisesTo()
    ensures var s := [145519152, 283668518, 66406250];
            && Good(Extended, s) && |s| < Extended.Capacity()
            && Normalised(Extended, s, -1) == Held([17, 179869184], 27, -70, true)
  {
    hide Up, Down, Aligned, Shifted, Multiplied;
    AlignsTo();
    ProductsUp();
    assert TwoTo(17) == 131072 by { assert TwoTo(8) == 256; TwoToAdd(8, 8); }
    assert Pair(17179869184 * 131072) == [2251799, 813685248];
    ShiftsDown(17, -87);
    LastPair(0);
  }

  lemma TextNormalises()
    ensures var s := StartLimbs(Extended, ReadMantissa(TEXT, 0).digits);
            && Good(Extended, s) && |s| < Extended.Capacity()
            && Normalised(Extended, s, PointOf(TEXT, 0)) == Held([17, 179869184], 27, -70, true)
            && Mantissas(Extended, s, PointOf(TEXT, 0)) == Scaled(17179869184000000000, -70, true)
  {
    hide Normalised, StartLimbs, ReadMantissa, PointOf, Int;
    TextReads();
    StartsFrom();
    NormalisesTo();
    IntUnrolled(Head([17, 179869184], 3));
  }

  /** Whatever the target type, the text is read as 26 digits, normalised to two limbs behind cell KMAX-1, and the
      padding of the third limb stores outside the array.  Mantissa and exponent are right nevertheless. */
  lemma StrayWitness(bits: nat, emin: int, o: Outcome)
    requires bits >= 24 && Emin(Extended) <= emin <= -149
    requires Answers(Extended, ReadMantissa(TEXT, 0).digits, PointOf(TEXT, 0), bits, emin, o)
    ensures o == Scaled(17179869184000000000, -70, true)
    ensures Number([17, 179869184], 27, -70) == Spelled(TEXT, 0)
  {
    hide Normalised, StartLimbs, ReadMantissa, PointOf, Mantissas, DigitsValue, NatOf, Represents, Number;
    TextReads();
    TextNormalises();
    assert o.Scaled?;
    RoomyInRange(Extended, 26, -1);
    assert Represents(Extended, StartLimbs(Extended, DIGITS), -1, o, DigitsValue(DIGITS, -1));
    RepresentsWhat(StartLimbs(Extended, DIGITS), o, DigitsValue(DIGITS, -1));
  }

  lemma RepresentsWhat(s: seq<int>, o: Outcome, v: real)
    requires Good(Extended, s) && |s| < Extended.Capacity() && Represents(Extended, s, -1, o, v)
    ensures o.Scaled? && Number(Normalised(Extended, s, -1).limbs, 27, o.e2) == v
  {
  }
}
