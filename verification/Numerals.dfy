/**
 Decimal numerals as people write them, and what decfloat makes of them: digits with
 or without a radix point among them, with or without an exponent.
 */
module Numerals {
  import opened Decimal
  import opened Digits
  import opened Decfloat

  /** Digits as text. */
  function Spell(ds: seq<int>): (t: string)
    requires AreDigits(ds)
    ensures |t| == |ds|
  {
    seq(|ds|, i requires 0 <= i < |ds| => ('0' as int + ds[i]) as char)
  }

  lemma SpellAt(ds: seq<int>, i: nat)
    requires AreDigits(ds) && i < |ds|
    ensures IsDigit(Spell(ds)[i]) && DigitOf(Spell(ds)[i]) == ds[i]
  {
  }

  lemma SpellRest(ds: seq<int>)
    requires AreDigits(ds) && ds != []
    ensures AreDigits(ds[1..]) && Spell(ds)[1..] == Spell(ds[1..])
  {
  }

  /** The text has `a` at `pos`. */
  ghost predicate Here(text: string, pos: nat, a: string) {
    pos + |a| <= |text| && text[pos..pos + |a|] == a
  }

  lemma HereSplits(text: string, pos: nat, a: string, b: string)
    requires Here(text, pos, a + b)
    ensures Here(text, pos, a) && Here(text, pos + |a|, b)
  {
    var all := text[pos..pos + |a + b|];
    assert text[pos..pos + |a|] == all[..|a|];
    assert text[pos + |a|..pos + |a| + |b|] == all[|a|..];
  }

  lemma HereFirst(text: string, pos: nat, a: string)
    requires Here(text, pos, a)
    ensures pos + |a| <= |text| && (a != "" ==> At(text, pos) == text[pos] == a[0])
  {
    if a != "" {
      assert text[pos] == text[pos..pos + |a|][0];
    }
  }

  lemma HereSpelled(text: string, pos: nat, ds: seq<int>)
    requires AreDigits(ds) && Here(text, pos, Spell(ds))
    ensures pos + |ds| <= |text| && (ds != [] ==> IsDigit(text[pos]) && DigitOf(text[pos]) == ds[0])
    ensures ds != [] ==> AreDigits(ds[1..]) && Here(text, pos + 1, Spell(ds[1..]))
  {
    HereFirst(text, pos, Spell(ds));
    if ds != [] {
      SpellAt(ds, 0);
      SpellRest(ds);
      var all := Spell(ds);
      assert all == [all[0]] + Spell(ds[1..]);
      HereSplits(text, pos, [all[0]], Spell(ds[1..]));
    }
  }

  /** The mantissa once `ds` has been read too. */
  function ReadToo(m: Mantissa, ds: seq<int>): Mantissa {
    Mantissa(m.digits + ds, if m.rad then m.frac + |ds| else m.frac, m.seen || ds != [], m.rad, m.end + |ds|)
  }

  /** A run of digits is taken in whole. */
  lemma {:induction false} ReadsSpelled(text: string, m: Mantissa, ds: seq<int>)
    requires AreDigits(ds) && Here(text, m.end, Spell(ds))
    requires m.digits != [] || (ds != [] && ds[0] != 0)
    ensures ReadOn(text, m) == ReadOn(text, ReadToo(m, ds))
    decreases |ds|
  {
    hide ReadOn, Spell, Here, AreDigits;
    if ds == [] {
      assert m.digits + ds == m.digits;
    } else {
      HereSpelled(text, m.end, ds);
      ReadStep(text, m);
      var n := m.WithDigit(ds[0]);
      ReadsSpelled(text, n, ds[1..]);
      assert n.digits + ds[1..] == m.digits + ds;
    }
  }

  lemma ReadStep(text: string, m: Mantissa)
    requires m.end < |text|
    ensures IsDigit(text[m.end]) ==> ReadOn(text, m) == ReadOn(text, m.WithDigit(DigitOf(text[m.end])))
    ensures text[m.end] == '.' && !m.rad ==> ReadOn(text, m) == ReadOn(text, m.(rad := true, end := m.end + 1))
  {
  }

  lemma ReadEnds(text: string, m: Mantissa)
    requires m.end == |text|
    ensures ReadOn(text, m) == m && !HasExponent(text, m)
  {
  }

  // ---- leading zeros ----------------------------------------------------------------------------------

  function Strip(ds: seq<int>): seq<int> {
    if ds != [] && ds[0] == 0 then Strip(ds[1..]) else ds
  }

  lemma {:induction false} StripTwice(a: seq<int>, b: seq<int>)
    ensures Strip(Strip(a) + b) == Strip(a + b)
  {
    if a != [] && a[0] == 0 {
      StripTwice(a[1..], b);
      assert (a + b)[1..] == a[1..] + b;
    }
  }

  lemma {:induction false} StripNat(ds: seq<int>)
    ensures NatOf(Strip(ds)) == NatOf(ds)
  {
    if ds != [] && ds[0] == 0 {
      StripNat(ds[1..]);
      NatFront(ds);
    }
  }

  lemma NatFront(ds: seq<int>)
    requires ds != []
    ensures NatOf(ds) == ds[0] * TenTo(|ds| - 1) + NatOf(ds[1..])
  {
    hide NatOf;
    assert ds == [ds[0]] + ds[1..];
    NatConcat([ds[0]], ds[1..]);
    NatOne(ds[0]);
  }

  lemma NatOne(d: int)
    ensures NatOf([d]) == d
  {
    assert [d][..0] == [];
  }

  /** The mantissa once `ds` has been read too: a zero counts only behind another digit. */
  function ReadMore(m: Mantissa, ds: seq<int>): Mantissa {
    Mantissa(Strip(m.digits + ds), if m.rad then m.frac + |ds| else m.frac, m.seen || ds != [], m.rad, m.end + |ds|)
  }

  lemma {:induction false} ReadsRun(text: string, m: Mantissa, ds: seq<int>)
    requires AreDigits(ds) && Here(text, m.end, Spell(ds))
    requires Strip(m.digits) == m.digits
    ensures ReadOn(text, m) == ReadOn(text, ReadMore(m, ds))
    decreases |ds|
  {
    hide ReadOn, Spell, Here, AreDigits, Strip;
    if ds == [] {
      assert m.digits + ds == m.digits;
    } else {
      HereSpelled(text, m.end, ds);
      ReadStep(text, m);
      var n := m.WithDigit(ds[0]);
      WithDigitStrips(m, ds[0]);
      ReadsRun(text, n, ds[1..]);
      StripTwice(m.digits + [ds[0]], ds[1..]);
      assert m.digits + [ds[0]] + ds[1..] == m.digits + ds;
    }
  }

  lemma WithDigitStrips(m: Mantissa, d: int)
    requires Strip(m.digits) == m.digits
    ensures m.WithDigit(d).digits == Strip(m.digits + [d]) && Strip(m.WithDigit(d).digits) == m.WithDigit(d).digits
  {
    if m.digits == [] {
      assert [] + [d] == [d];
      assert d == 0 ==> [d][1..] == [];
    } else {
      assert m.digits[0] != 0 by { StripHead(m.digits); }
    }
  }

  lemma {:induction false} StripHead(ds: seq<int>)
    ensures |Strip(ds)| <= |ds| && (ds != [] && ds[0] == 0 ==> |Strip(ds)| < |ds|)
  {
    if ds != [] && ds[0] == 0 {
      StripHead(ds[1..]);
    }
  }

  // ---- the exponent ------------------------------------------------------------------------------------

  lemma {:induction false} ReadsNat(text: string, pos: nat, n: nat, ds: seq<int>)
    requires AreDigits(ds) && Here(text, pos, Spell(ds)) && !IsDigit(At(text, pos + |ds|))
    ensures ReadNat(text, pos, n) == (n * TenTo(|ds|) + NatOf(ds), pos + |ds|)
    decreases |ds|
  {
    hide Spell, NatOf, Here, AreDigits;
    if ds == [] {
      NatNone(ds);
    } else {
      HereSpelled(text, pos, ds);
      ReadsNat(text, pos + 1, 10 * n + ds[0], ds[1..]);
      NatFront(ds);
      Carry(n, ds[0], TenTo(|ds| - 1));
    }
  }

  lemma NatNone(ds: seq<int>)
    requires ds == []
    ensures NatOf(ds) == 0
  {
  }

  lemma Carry(n: nat, d: int, t: int)
    ensures (10 * n + d) * t == n * (10 * t) + d * t
  {
  }

  predicate IsSign(sign: string) {
    sign == "" || sign == "+" || sign == "-"
  }

  /** An optional sign and digits: the exponent is minus what the digits spell exactly if the sign is a minus, and it ends
      right behind the digits. */
  lemma ExponentReads(text: string, pos: nat, sign: string, ds: seq<int>)
    requires IsSign(sign) && AreDigits(ds) && ds != [] && Here(text, pos, sign + Spell(ds))
    requires !IsDigit(At(text, pos + |sign| + |ds|))
    ensures ReadExponent(text, pos) == Exponent(if sign == "-" then -NatOf(ds) else NatOf(ds), pos + |sign| + |ds|)
  {
    hide Spell, NatOf, ReadExponent, AreDigits, Here;
    var start := pos + |sign|;
    HereSplits(text, pos, sign, Spell(ds));
    HereSpelled(text, start, ds);
    HereFirst(text, pos, sign);
    SignIs(text, pos, sign);
    SignedReads(text, pos, start, ds);
  }

  lemma SignedReads(text: string, pos: nat, start: nat, ds: seq<int>)
    requires AreDigits(ds) && ds != [] && Here(text, start, Spell(ds))
    requires IsDigit(At(text, start)) && !IsDigit(At(text, start + |ds|))
    requires start == if At(text, pos) == '+' || At(text, pos) == '-' then pos + 1 else pos
    ensures ReadExponent(text, pos) == Exponent(if At(text, pos) == '-' then -NatOf(ds) else NatOf(ds), start + |ds|)
  {
    hide Spell, NatOf, ReadNat, Here, AreDigits;
    ReadsNat(text, start, 0, ds);
  }

  lemma SignIs(text: string, pos: nat, sign: string)
    requires IsSign(sign) && pos + |sign| < |text| && IsDigit(text[pos + |sign|]) && (sign != "" ==> text[pos] == sign[0])
    ensures (At(text, pos) == '+' || At(text, pos) == '-') <==> sign != ""
    ensures At(text, pos) == '-' <==> sign == "-"
  {
  }

  /** Without a digit behind the optional sign there is none. */
  lemma ExponentLacks(text: string, pos: nat)
    ensures ReadExponent(text, pos).NoDigits? <==>
            !IsDigit(At(text, pos)) && ((At(text, pos) == '+' || At(text, pos) == '-') ==> !IsDigit(At(text, pos + 1)))
  {
    hide ReadNat;
  }

  // ---- the whole numeral -------------------------------------------------------------------------------

  /** Digits, a radix point with more digits if `dot`, and an exponent unless `mark` is empty. */
  datatype Numeral = Numeral(whole: seq<int>, dot: bool, part: seq<int>, mark: string, sign: string, power: seq<int>) {

    ghost predicate Ok() {
      && AreDigits(whole) && AreDigits(part) && AreDigits(power) && IsSign(sign)
      && whole + part != [] && (!dot ==> part == [])
      && (mark == "" || mark == "e" || mark == "E")
      && (if mark == "" then sign == "" && power == [] else power != [])
    }

    function Mantissa(): string
      requires AreDigits(whole) && AreDigits(part)
    {
      Spell(whole) + (if dot then "." + Spell(part) else "")
    }

    function Tail(): string
      requires AreDigits(power)
    {
      mark + sign + Spell(power)
    }

    /** The exponent it asks for. */
    function Power(): int {
      if sign == "-" then -NatOf(power) else NatOf(power)
    }
  }

  /** What follows does not go on with the numeral. */
  predicate Ends(n: Numeral, text: string, at: nat) {
    && !IsDigit(At(text, at))
    && (n.mark == "" ==> At(text, at) != 'e' && At(text, at) != 'E' && (At(text, at) == '.' ==> n.dot))
  }

  ghost predicate Stands(n: Numeral, text: string, pos: nat)
    requires n.Ok()
  {
    Here(text, pos, n.Mantissa() + n.Tail()) && Ends(n, text, pos + |n.Mantissa()| + |n.Tail()|)
  }

  /** The mantissa of a numeral: its digits from the first that is not zero on. */
  lemma MantissaReads(n: Numeral, text: string, pos: nat)
    requires n.Ok() && Stands(n, text, pos)
    ensures ReadMantissa(text, pos)
         == Mantissa.Mantissa(Strip(n.whole + n.part), |n.part|, true, n.dot, pos + |n.Mantissa()|)
  {
    hide ReadOn, Spell, Strip, Here, Ends, AreDigits;
    var m0 := Mantissa.Mantissa([], 0, false, false, pos);
    HereSplits(text, pos, n.Mantissa(), n.Tail());
    CutMantissa(n, text, pos);
    CutTail(n, text, pos + |n.Mantissa()|);
    StripNone();
    ReadsRun(text, m0, n.whole);
    assert [] + n.whole == n.whole;
    var m1 := ReadMore(m0, n.whole);
    StripTwice(n.whole, []);
    assert Strip(n.whole) + [] == Strip(n.whole) && n.whole + [] == n.whole;
    if n.dot {
      ReadStep(text, m1);
      var m2 := m1.(rad := true, end := m1.end + 1);
      ReadsRun(text, m2, n.part);
      StripTwice(n.whole, n.part);
      ReadStops(text, ReadMore(m2, n.part));
    } else {
      assert n.whole + n.part == n.whole;
      ReadStops(text, m1);
    }
  }

  lemma StripNone()
    ensures Strip([]) == []
  {
  }

  lemma ReadStops(text: string, m: Mantissa)
    requires !IsDigit(At(text, m.end)) && (At(text, m.end) == '.' ==> m.rad)
    ensures ReadOn(text, m) == m
  {
  }

  /** The parts of a numeral in the text: the mantissa. */
  lemma CutMantissa(n: Numeral, text: string, pos: nat)
    requires n.Ok() && Here(text, pos, n.Mantissa())
    ensures var a := pos + |n.whole|;
            && Here(text, pos, Spell(n.whole))
            && (n.dot ==> a < |text| && text[a] == '.' && Here(text, a + 1, Spell(n.part)) && |n.Mantissa()| == |n.whole| + 1 + |n.part|)
            && (!n.dot ==> |n.Mantissa()| == |n.whole|)
  {
    hide Spell, Here;
    var w := Spell(n.whole);
    if n.dot {
      HereSplits(text, pos, w, "." + Spell(n.part));
      HereSplits(text, pos + |w|, ".", Spell(n.part));
      HereFirst(text, pos + |w|, ".");
    } else {
      assert n.Mantissa() == w;
    }
  }

  /** And what comes behind it. */
  lemma CutTail(n: Numeral, text: string, e: nat)
    requires n.Ok() && Here(text, e, n.Tail()) && Ends(n, text, e + |n.Tail()|)
    ensures !IsDigit(At(text, e)) && (At(text, e) == '.' ==> n.dot) && !IsDigit(At(text, e + |n.Tail()|))
    ensures n.mark == "" ==> At(text, e) != 'e' && At(text, e) != 'E' && n.Tail() == ""
    ensures n.mark != "" ==> At(text, e) == n.mark[0] && Here(text, e + 1, n.sign + Spell(n.power))
                             && |n.Tail()| == 1 + |n.sign| + |n.power|
  {
    hide Spell, Here;
    if n.mark != "" {
      assert n.Tail() == n.mark + (n.sign + Spell(n.power));
      HereSplits(text, e, n.mark, n.sign + Spell(n.power));
      HereFirst(text, e, n.mark);
    } else {
      NothingSpelled(n.power);
    }
  }

  lemma NothingSpelled(ds: seq<int>)
    requires ds == []
    ensures AreDigits(ds) && Spell(ds) == ""
  {
  }

  /** A numeral anywhere in a text spells the integer of all its digits times ten to the power of its exponent less the
      digits behind the radix point, and the scan ends right behind it. */
  lemma NumeralSpells(n: Numeral, text: string, pos: nat)
    requires n.Ok() && Stands(n, text, pos)
    ensures ReadMantissa(text, pos).seen
    ensures Spelled(text, pos) == NatOf(n.whole + n.part) as real * Pow10(n.Power() - |n.part|)
    ensures ScanEnd(text, pos) == pos + |n.Mantissa()| + |n.Tail()|
  {
    hide Spell, NatOf, Strip, Pow10, ReadMantissa, ReadExponent, Here, AreDigits, Ends;
    MantissaReads(n, text, pos);
    HereSplits(text, pos, n.Mantissa(), n.Tail());
    CutTail(n, text, pos + |n.Mantissa()|);
    var e := pos + |n.Mantissa()|;
    if n.mark != "" {
      ExponentReads(text, e + 1, n.sign, n.power);
    } else {
      NatNone(n.power);
    }
    StripNat(n.whole + n.part);
  }

  /** A text that begins with neither a digit nor a point and a digit has no mantissa. */
  lemma SeenIff(text: string, pos: nat)
    ensures ReadMantissa(text, pos).seen <==> IsDigit(At(text, pos)) || (At(text, pos) == '.' && IsDigit(At(text, pos + 1)))
  {
    var m := Mantissa.Mantissa([], 0, false, false, pos);
    if pos < |text| && IsDigit(text[pos]) {
      SeenStays(text, m.WithDigit(DigitOf(text[pos])));
    } else if pos < |text| && text[pos] == '.' {
      var p := m.(rad := true, end := pos + 1);
      assert ReadOn(text, m) == ReadOn(text, p);
      if pos + 1 < |text| && IsDigit(text[pos + 1]) {
        ReadStep(text, p);
        SeenStays(text, p.WithDigit(DigitOf(text[pos + 1])));
      } else {
        ReadStops(text, p);
      }
    }
  }

  lemma {:induction false} SeenStays(text: string, m: Mantissa)
    requires m.seen
    ensures ReadOn(text, m).seen
    decreases |text| - m.end
  {
    var c := At(text, m.end);
    if m.end < |text| && IsDigit(c) {
      SeenStays(text, m.WithDigit(DigitOf(c)));
    } else if m.end < |text| && c == '.' && !m.rad {
      SeenStays(text, m.(rad := true, end := m.end + 1));
    }
  }
}
