/**
 A number whose assembled mantissa falls short of it by more than a unit: from the
 text to a limb of exactly 10^9 behind the top limbs.
 */
module Shortfall {
  import opened Decimal
  import opened Normalise
  import opened Words
  import opened Scaling
  import opened FloatScan
  import opened Digits
  import opened Decfloat
  import opened Numerals
  import opened Stray

  const WHOLE: seq<int> := [3, 4, 0, 0, 0, 0, 0, 0, 0, 0, 0]
  const PART: seq<int> := [0, 0, 0, 0, 0, 0, 0, 0, 1, 8, 6, 2, 6, 4, 5, 1, 5]
  const ALL: seq<int> := [3, 4, 0, 0, 0, 0, 0, 0, 0, 0, 0, 0, 0, 0, 0, 0, 0, 0, 0, 1, 8, 6, 2, 6, 4, 5, 1, 5]

  /** 34000000000.00000000186264515 */
  const NUMERAL: string := Spell(WHOLE) + "." + Spell(PART)

  lemma ReadsParts(text: string, a: seq<int>, b: seq<int>)
    requires AreDigits(a) && AreDigits(b) && a != [] && a[0] != 0 && text == Spell(a) + "." + Spell(b)
    ensures ReadMantissa(text, 0) == Mantissa(a + b, |b|, true, true, |text|) && PointOf(text, 0) == |a|
  {
    hide ReadOn, Spell;
    var m := Mantissa([], 0, false, false, 0);
    var n := |a|;
    assert Here(text, 0, Spell(a)) && text[n] == '.' && Here(text, n + 1, Spell(b));
    ReadsSpelled(text, m, a);
    assert [] + a == a;
    ReadStep(text, ReadToo(m, a));
    var k := Mantissa(a, 0, true, true, n + 1);
    ReadsSpelled(text, k, b);
    ReadEnds(text, ReadToo(k, b));
  }

  lemma NumeralReads()
    ensures ReadMantissa(NUMERAL, 0).digits == ALL && ReadMantissa(NUMERAL, 0).seen && PointOf(NUMERAL, 0) == 11
  {
    hide ReadMantissa, PointOf, Spell;
    ReadsParts(NUMERAL, WHOLE, PART);
    assert WHOLE + PART == ALL;
  }

  lemma AllSpell()
    ensures NatOf(ALL) == 3400000000000000000186264515
  {
    hide NatOf;
    NatNothing(ALL[..0]);
    NatFour(ALL, 0);
    NatFour(ALL, 4);
    NatFour(ALL, 8);
    NatFour(ALL, 12);
    NatFour(ALL, 16);
    NatFour(ALL, 20);
    NatFour(ALL, 24);
    assert ALL[..28] == ALL;
  }

  lemma NatNothing(ds: seq<int>)
    requires ds == []
    ensures NatOf(ds) == 0
  {
  }

  const START: seq<int> := [340000000, 0, 18626451, 500000000]

  lemma StartsFromAll()
    ensures StartLimbs(Extended, ALL) == START
  {
    hide NatOf, TrimZeros;
    AllSpell();
    var n := 340000000000000000018626451500000000;
    assert TenTo(8) == 100000000;
    assert Groups(n, 4) == START by {
      assert Groups(340000000, 1) == [340000000];
      assert Groups(340000000000000000, 2) == [340000000, 0];
      assert Groups(340000000000000000018626451, 3) == [340000000, 0, 18626451];
    }
    TrimUnique(START, 4);
  }

  lemma AlignsAll()
    ensures Aligned(Extended, START, 11) == Held([34, 0, 1, 862645150], 18, 0, true)
  {
  }

  /** The third limb becomes exactly 10^9, which is left without a carry. */
  lemma Product()
    ensures Multiplied(Extended, Held([34, 0, 1, 862645150], 18, 0, true))
         == Held([18, 253611008, 0, 1000000000, 412876800], 27, -29, true)
  {
    hide MulPass, TrimZeros;
    assert [34, 0, 1, 862645150] == [34, 0, 1] + [862645150] && [34, 0, 1] == [34, 0] + [1];
    assert [34, 0] == [34] + [0] && [34] == [] + [34];
    MulSnoc([34, 0, 1], 862645150, 0);
    MulSnoc([34, 0], 1, 463129088);
    MulSnoc([34], 0, 0);
    MulSnoc([], 34, 0);
    MulNothing(18);
    assert [] + [253611008] + [0] + [1000000000] + [412876800] == [253611008, 0, 1000000000, 412876800];
    TrimUnique([253611008, 0, 1000000000, 412876800], 4);
  }

  lemma MulNothing(carry: int)
    ensures MulPass([], carry) == ([], carry)
  {
  }

  lemma NormalisesAll()
    ensures Good(Extended, START) && |START| < Extended.Capacity()
    ensures Normalised(Extended, START, 11) == Held([18, 253611008, 0, 1000000000, 412876800], 27, -29, true)
  {
    hide Multiplied, Aligned, Shifted;
    AlignsAll();
    Product();
    UpTo(Held([34, 0, 1, 862645150], 18, 0, true));
    UpTo(Held([18, 253611008, 0, 1000000000, 412876800], 27, -29, true));
  }

  /** Whatever the target type, the mantissa for this text is more than a unit below the number. */
  lemma ShortfallWitness(bits: nat, emin: int, o: Outcome)
    requires bits >= 24 && Emin(Extended) <= emin <= -149
    requires Answers(Extended, ReadMantissa(NUMERAL, 0).digits, PointOf(NUMERAL, 0), bits, emin, o)
    ensures o == Scaled(18253611008000000000, -29, false)
    ensures Units(o.y + 1, o.e2) <= Spelled(NUMERAL, 0) < Units(o.y + 2, o.e2)
  {
    hide Normalised, StartLimbs, ReadMantissa, PointOf, DigitsValue, NatOf, Represents, Number, Units, Int;
    NumeralReads();
    StartsFromAll();
    NormalisesAll();
    IntUnrolled(Head([18, 253611008, 0, 1000000000, 412876800], 3));
    assert o.Scaled?;
    RoomyInRange(Extended, 28, 11);
    RepresentsWorth(START, 11, o, DigitsValue(ALL, 11));
  }

  lemma RepresentsWorth(s: seq<int>, rp: int, o: Outcome, v: real)
    requires Good(Extended, s) && |s| < Extended.Capacity() && Represents(Extended, s, rp, o, v)
    requires o.e2 == Normalised(Extended, s, rp).e2
    ensures Worth(Normalised(Extended, s, rp)) == v
  {
    hide Normalised, Number;
  }
}
