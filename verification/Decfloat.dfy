/**
 decfloat from the first character to the end of normalisation: text in, a
 mantissa and binary exponent out, related to the decimal number the text spells.
 */
module Decfloat {
  import opened Decimal
  import opened Normalise
  import opened Words
  import opened Scaling
  import opened FloatScan
  import opened Digits

  // ---- exponent ---------------------------------------------------------------------------------

  /** What follows an `e`: an optional sign and digits, or nothing usable. */
  datatype Exponent = NoDigits | Exponent(value: int, end: nat)

  /** All digits from `pos` on, added to `n`. */
  function ReadNat(text: string, pos: nat, n: nat): (r: (nat, nat))
    ensures n <= r.0 && pos <= r.1
    decreases |text| - pos
  {
    if pos < |text| && IsDigit(text[pos]) then ReadNat(text, pos + 1, 10 * n + DigitOf(text[pos])) else (n, pos)
  }

  function ReadExponent(text: string, pos: nat): (r: Exponent)
  {
    var c := At(text, pos);
    var start := if c == '+' || c == '-' then pos + 1 else pos;
    if IsDigit(At(text, start)) then
      var (n, end) := ReadNat(text, start, 0);
      Exponent(if c == '-' then 0 - n else n, end)
    else NoDigits
  }

  const INT_MAX: int := 0x7fff_ffff
  const LLONG_MAX: int := 0x7fff_ffff_ffff_ffff
  const EXP_CAP: int := LLONG_MAX / 100

  /** The scanned exponent is exact, or so large that only its sign matters. */
  ghost predicate SaturatedTo(e: int, value: int) {
    || e == value
    || (EXP_CAP <= e <= value)
    || (value <= e <= -EXP_CAP)
  }

  /** scanexp: accumulate the exponent, first in an int, then in a long long, then only skip digits. */
  method ScanExp(text: string, pos: nat) returns (found: bool, e: int, end: nat)
    ensures found <==> ReadExponent(text, pos).Exponent?
    ensures found ==> end == ReadExponent(text, pos).end && SaturatedTo(e, ReadExponent(text, pos).value)
    ensures -LLONG_MAX <= e <= LLONG_MAX
  {
    hide SaturatedTo;
    end := pos;
    var neg := false;
    if At(text, end) == '+' || At(text, end) == '-' {
      neg := At(text, end) == '-';
      end := end + 1;
    }
    found, e := IsDigit(At(text, end)), 0;
    if !found {
      return;
    }
    ghost var start := end;
    var x, y := 0, 0;
    while IsDigit(At(text, end)) && x < INT_MAX / 10
      invariant 0 <= x <= INT_MAX && start <= end
      invariant ReadNat(text, start, 0) == ReadNat(text, end, x)
      decreases |text| - end
    {
      x := 10 * x + DigitOf(At(text, end));
      end := end + 1;
    }
    y := x;
    while IsDigit(At(text, end)) && y < EXP_CAP
      invariant 0 <= y <= LLONG_MAX
      invariant ReadNat(text, start, 0) == ReadNat(text, end, y)
      decreases |text| - end
    {
      y := 10 * y + DigitOf(At(text, end));
      end := end + 1;
    }
    ghost var n := ReadNat(text, start, 0).0;
    ghost var all := y;
    assert y <= n;
    while IsDigit(At(text, end))
      invariant y <= all && ReadNat(text, start, 0) == ReadNat(text, end, all)
      invariant all == y || y >= EXP_CAP
      decreases |text| - end
    {
      all := 10 * all + DigitOf(At(text, end));
      end := end + 1;
    }
    e := if neg then -y else y;
    Saturates(y, n, neg);
  }

  lemma Saturates(y: int, n: int, neg: bool)
    requires 0 <= y <= n && (y == n || y >= EXP_CAP)
    ensures SaturatedTo(if neg then -y else y, if neg then -n else n)
  {
  }

  // ---- decfloat ---------------------------------------------------------------------------------

  /** How decfloat ends: no number, zero, out of range, a small number returned directly as
      num * mul / div, or a mantissa to be rounded and scaled by 2^e2. */
  datatype Outcome =
    | Malformed
    | NoExponent
    | Zero
    | Overflow
    | Underflow
    | Small(num: int, mul: int, div: int)
    | Scaled(y: int, e2: int, stray: bool)

  predicate HasExponent(text: string, m: Mantissa) {
    At(text, m.end) == 'e' || At(text, m.end) == 'E'
  }

  /** The decimal exponent the text asks for. */
  function ExponentOf(text: string, m: Mantissa): int {
    if HasExponent(text, m) && ReadExponent(text, m.end + 1).Exponent? then ReadExponent(text, m.end + 1).value else 0
  }

  /** How many of the digits stand before the radix point, the exponent counted in. */
  function PointOf(text: string, pos: nat): int {
    var m := ReadMantissa(text, pos);
    |m.digits| - m.frac + ExponentOf(text, m)
  }

  /** The number the text spells. */
  ghost function Spelled(text: string, pos: nat): real {
    var m := ReadMantissa(text, pos);
    DigitsValue(m.digits, PointOf(text, pos))
  }

  /** Where the scan stops: after the exponent if it is usable, else after the mantissa. */
  function ScanEnd(text: string, pos: nat): nat {
    var m := ReadMantissa(text, pos);
    if m.seen && HasExponent(text, m) && ReadExponent(text, m.end + 1).Exponent?
    then ReadExponent(text, m.end + 1).end
    else m.end
  }

  lemma Pow10Monotone(a: int, b: int)
    requires a <= b
    ensures Pow10(a) <= Pow10(b)
  {
    hide Pow10, TenTo;
    Pow10Add(a, b - a);
    GrowBy(TenTo(b - a), Pow10(a), Pow10(b));
  }

  lemma GrowBy(t: int, p: real, q: real)
    requires t > 0 && p > 0.0 && q == t as real * p
    ensures p <= q
  {
  }

  /** A number whose first digit is not zero lies between 10^(rp-1) and 10^rp. */
  lemma DigitsBounds(ds: seq<int>, rp: int)
    requires AreDigits(ds) && ds != [] && ds[0] != 0
    ensures Pow10(rp - 1) <= DigitsValue(ds, rp) < Pow10(rp)
  {
    hide Pow10, NatOf, TenTo;
    NatBounds(ds);
    var e := rp - |ds|;
    Pow10Add(e, |ds|);
    Pow10Add(e, |ds| - 1);
    OrderProducts(TenTo(|ds| - 1), NatOf(ds), TenTo(|ds|), Pow10(e), Pow10(rp - 1), Pow10(rp));
  }

  lemma OrderProducts(a: int, b: int, c: int, p: real, ap: real, cp: real)
    requires a <= b < c && p > 0.0 && ap == a as real * p && cp == c as real * p
    ensures ap <= b as real * p < cp
  {
  }

  /** A shorter exponent of either sign keeps the number on the same side. */
  lemma RangeOfSaturated(ds: seq<int>, base: int, e: int, value: int, emin: int, low: int)
    requires AreDigits(ds) && ds != [] && ds[0] != 0 && SaturatedTo(e, value)
    requires -0x4_0000_0000_0000 < base < 0x4_0000_0000_0000 && -20000 <= emin < 0 && -30000 <= low < 0
    ensures base + e > -emin / 2 <==> base + value > -emin / 2
    ensures base + e < low <==> base + value < low
    ensures base + e > -emin / 2 ==> DigitsValue(ds, base + value) >= Pow10(-emin / 2)
    ensures base + e < low ==> DigitsValue(ds, base + value) < Pow10(low)
    ensures low <= base + e <= -emin / 2 ==> e == value
  {
    hide DigitsValue, Pow10;
    DigitsBounds(ds, base + value);
    if base + e > -emin / 2 {
      Pow10Monotone(-emin / 2, base + value - 1);
    }
    if base + e < low {
      Pow10Monotone(base + value, low);
    }
  }

  lemma {:induction false} ReadBounds(text: string, m: Mantissa, pos: nat)
    requires pos <= m.end && |m.digits| <= m.end - pos && m.frac <= m.end - pos && m.end <= |text|
    ensures var r := ReadOn(text, m); |r.digits| <= |text| && r.frac <= |text|
    decreases |text| - m.end
  {
    var c := At(text, m.end);
    if m.end < |text| && IsDigit(c) {
      ReadBounds(text, m.WithDigit(DigitOf(c)), pos);
    } else if m.end < |text| && c == '.' && !m.rad {
      ReadBounds(text, m.(rad := true, end := m.end + 1), pos);
    }
  }

  /** The number with only a first limb. */
  lemma {:induction false} OneLimbValue(limbs: seq<int>, rp: int)
    requires limbs != [] && forall i :: 1 <= i < |limbs| ==> limbs[i] == 0
    ensures Value(limbs, rp) == limbs[0] as real * Pow10(rp - 9)
  {
    ValueDropZeros(limbs, 1, rp);
    assert limbs[..1] == [] + [limbs[0]];
    IntAppend([], limbs[0]);
  }

  lemma Pow10Zero()
    ensures Pow10(0) == 1.0
  {
  }

  /** x[0] / 10^(9-rp), x[0] or x[0] * 10^(rp-9), when only one limb is not zero. */
  lemma SmallValue(x0: int, rp: int, num: int, mul: int, div: int)
    requires 1 <= rp <= 17 && num == x0
    requires if rp < 9 then mul == 1 && div == P10S[8 - rp]
             else div == 1 && mul == if rp == 9 then 1 else P10S[rp - 10]
    ensures div > 0 && num as real * mul as real / div as real == x0 as real * Pow10(rp - 9)
  {
    hide Pow10;
    Pow10Zero();
    if rp < 9 {
      Pow10Digits(rp - 9, 9 - rp);
      Inverse(x0 as real, P10S[8 - rp] as real, Pow10(rp - 9));
    } else if rp > 9 {
      Pow10Digits(0, rp - 9);
    }
  }

  lemma Inverse(n: real, t: real, p: real)
    requires t > 0.0 && t * p == 1.0
    ensures n * 1.0 / t == n * p
  {
    assert n == (n * p) * t;
  }

  /** The digits of a short integer are exactly the first limb. */
  lemma FirstLimbIsAll(fmt: Format, cells: seq<Word>, t: Tally, ds: seq<int>)
    requires Holds(fmt, cells, t, ds) && 0 < t.dc < 10
    ensures cells[0] == NatOf(ds)
  {
    if t.k == 1 {
      assert cells[..1] == [] + [cells[0]];
      IntAppend([], cells[0]);
    }
  }

  /** Cut the trailing zero limbs. */
  method TrimTail(x: array<Word>, k: nat) returns (z: nat)
    requires 1 <= k <= x.Length && x[0] > 0
    ensures 1 <= z <= k && x[..z] == TrimZeros(x[..k])
  {
    z := k;
    while x[z - 1] == 0
      invariant 1 <= z <= k && forall i :: z <= i < k ==> x[i] == 0
      decreases z
    {
      z := z - 1;
    }
    TrimUnique(x[..k], z);
  }

  /** What normalising the limbs `s` comes to: the integer of the top limbs, the binary exponent, and whether the
      padding strays. */
  ghost function Mantissas(fmt: Format, s: seq<int>, rp: int): (o: Outcome)
    requires Good(fmt, s) && |s| < fmt.Capacity()
    ensures o.Scaled?
  {
    var h := Normalised(fmt, s, rp);
    Scaled(Top(h.limbs, fmt.Dig()), h.e2, Strays(fmt, Origin(rp), |h.limbs|))
  }

  /** Align, multiply up, shift down, assemble. */
  method Scale(fmt: Format, x: array<Word>, k: nat, rp: int) returns (o: Outcome)
    requires x.Length == fmt.Kmax() && 1 <= k <= fmt.Kmax() - 3 && x[0] > 0 && rp <= 9 * (fmt.Kmax() - 4)
    requires forall i :: 0 <= i < k ==> x[i] < BASE
    modifies x
    ensures var s := old(TrimZeros(x[..k])); Good(fmt, s) && |s| < fmt.Capacity() && o == Mantissas(fmt, s, rp)
  {
    hide Top, Up, Down, Aligned, Strays, TrimZeros;
    var z := TrimTail(x, k);
    ghost var s := x[..z];
    var ring := new Ring(fmt, x, z, rp);
    ring.AlignRadix();
    ghost var h := ring.State();
    UpPoint(fmt, h);
    UpHeight(fmt, h);
    ring.ScaleUp();
    TidyIsTidier(fmt, ring.origin, ring.rp / 9, |ring.Contents()|);
    ring.ScaleDown();
    var y, stray := ring.Assemble();
    o := Scaled(y, ring.e2, stray);
  }

  lemma TidyIsTidier(fmt: Format, origin: int, r: int, n: int)
    requires r <= fmt.Kmax() - 1
    ensures Behind(fmt, origin, r, n) == BehindAll(origin, r, n)
  {
  }

  /** A small result is exactly the number. */
  ghost predicate IsExactly(o: Outcome, v: real) {
    o.Small? && o.div > 0 && o.num as real * o.mul as real / o.div as real == v
  }

  /** Is a number returned without normalising: few digits, a radix point near them, and room in the target type? */
  ghost predicate Direct(fmt: Format, ds: seq<int>, rp: int, bits: nat)
    requires bits >= 24
  {
    var last, s := LastPlace(ds), StartLimbs(fmt, ds);
    && last < 9 && last <= rp < 18
    && (rp <= 9 || bits - 3 * (rp - 9) > 30 || (s != [] && s[0] < TwoTo(bits - 3 * (rp - 9))))
  }

  /** After the range checks: pad the last limb, return a one-limb number directly, else normalise. */
  method Convert(fmt: Format, x: array<Word>, t: Tally, rp: int, bits: nat, ghost ds: seq<int>) returns (o: Outcome)
    requires Holds(fmt, x[..], t, ds) && ds != [] && AreDigits(ds) && bits >= 24 && rp <= 9 * (fmt.Kmax() - 4)
    modifies x
    ensures o.Small? || o.Scaled?
    ensures o.Small? <==> Direct(fmt, ds, rp, bits)
    ensures o.Small? ==> IsExactly(o, DigitsValue(ds, rp))
    ensures o.Scaled? ==> var s := StartLimbs(fmt, ds); IsStart(fmt, s, ds, rp) && o == Mantissas(fmt, s, rp)
  {
    hide Value, Holds, DigitsValue, Sticky, NoneLost, KeptDigits, TwoTo, Pow10, Int, TenTo, TrimZeros, Groups, Mantissas,
         IsStart, IsExactly, StartLimbs, LastPlace;
    HoldsFacts(fmt, x[..], t, ds);
    var k := PadLast(fmt, x, t, ds);
    PaddedValue(fmt, x[..k], ds, rp);
    PackExactIff(fmt, ds, rp);
    ghost var v := Value(x[..k], rp);
    assert NoneLost(fmt, ds) ==> v == DigitsValue(ds, rp);
    PackedAre(fmt, x[..k], ds);
    StartIs(fmt, x[..k], ds, rp);
    if t.lnz < 9 && t.lnz <= rp && rp < 18 {
      OneLimbValue(x[..k], rp);
      if rp <= 9 {
        o := Small(x[0], 1, if rp == 9 then 1 else P10S[8 - rp]);
        SmallIsExact(o, x[0], rp, v);
        return;
      }
      var bitlim := bits - 3 * (rp - 9);
      ShiftedOut(x[0], bitlim);
      if bitlim > 30 || x[0] / TwoTo(bitlim) == 0 {
        o := Small(x[0], P10S[rp - 10], 1);
        SmallIsExact(o, x[0], rp, v);
        return;
      }
    }
    o := Scale(fmt, x, k, rp);
  }

  lemma ShiftedOut(n: nat, k: nat)
    ensures n / TwoTo(k) == 0 <==> n < TwoTo(k)
  {
    var t := TwoTo(k);
    if n < t {
      DivUnique(n, t, 0, n);
    }
  }

  /** The padded limbs are those the digits determine. */
  lemma PackedAre(fmt: Format, limbs: seq<int>, ds: seq<int>)
    requires |KeptDigits(fmt, ds)| <= 9 * |limbs| < |KeptDigits(fmt, ds)| + 9
    requires forall i :: 0 <= i < |limbs| ==> 0 <= limbs[i] < BASE
    requires Int(limbs) == Sticky(fmt, ds) * TenTo(9 * |limbs| - |KeptDigits(fmt, ds)|)
    ensures TrimZeros(limbs) == StartLimbs(fmt, ds)
  {
    hide Int, TenTo, Sticky, KeptDigits, Groups, TrimZeros;
    GroupsUnique(limbs);
  }

  /** Limbs the ring can take, no more than the digits need, worth the digits if none was dropped. */
  ghost predicate IsStart(fmt: Format, s: seq<int>, ds: seq<int>, rp: int) {
    && Good(fmt, s) && |s| < fmt.Capacity() && Bounded(s, BASE) && 9 * |s| <= |ds| + 8
    && (NoneLost(fmt, ds) ==> Value(s, rp) == DigitsValue(ds, rp))
  }

  lemma StartIs(fmt: Format, limbs: seq<int>, ds: seq<int>, rp: int)
    requires 1 <= |limbs| <= fmt.Kmax() - 3 && limbs[0] > 0 && 9 * |limbs| < |KeptDigits(fmt, ds)| + 9
    requires forall i :: 0 <= i < |limbs| ==> 0 <= limbs[i] < BASE
    requires NoneLost(fmt, ds) ==> Value(limbs, rp) == DigitsValue(ds, rp)
    ensures IsStart(fmt, TrimZeros(limbs), ds, rp) && TrimZeros(limbs)[0] == limbs[0]
  {
    hide Value, DigitsValue, NoneLost;
    var s := TrimZeros(limbs);
    assert s == limbs[..|s|];
    ValueDropZeros(limbs, |s|, rp);
  }

  lemma SmallIsExact(o: Outcome, x0: int, rp: int, v: real)
    requires 1 <= rp <= 17 && v == x0 as real * Pow10(rp - 9)
    requires o == if rp <= 9 then Small(x0, 1, if rp == 9 then 1 else P10S[8 - rp]) else Small(x0, P10S[rp - 10], 1)
    ensures IsExactly(o, v)
  {
    SmallValue(x0, rp, o.num, o.mul, o.div);
  }

  lemma HoldsFacts(fmt: Format, cells: seq<Word>, t: Tally, ds: seq<int>)
    requires Holds(fmt, cells, t, ds) && ds != []
    ensures |cells| == fmt.Kmax() && t.lnz >= 1 && (t.lnz <= 9 ==> NoneLost(fmt, ds))
    ensures t.lnz < 9 || LastPlace(ds) < 9 ==> t.lnz == LastPlace(ds)
  {
  }

  /** The limbs and exponent are worth `v`, and the mantissa is the integer of the top limbs. */
  ghost predicate Represents(fmt: Format, s: seq<int>, rp: int, o: Outcome, v: real)
    requires Good(fmt, s) && |s| < fmt.Capacity()
  {
    var h := Normalised(fmt, s, rp);
    o.Scaled? && o.y == Top(h.limbs, fmt.Dig()) && Number(h.limbs, 9 * fmt.Dig(), o.e2) == v
  }

  /** The mantissa is what the limbs are worth, rounded down to a whole number of units 2^e2, if and only if the limbs
      behind the top ones do not carry; else it is one unit less. */
  ghost predicate Truncates(fmt: Format, s: seq<int>, rp: int, o: Outcome)
    requires Good(fmt, s) && |s| < fmt.Capacity()
  {
    var h := Normalised(fmt, s, rp);
    && o.Scaled? && o.e2 == h.e2
    && Units(o.y, o.e2) <= Worth(h) < Units(o.y + 2, o.e2)
    && (Worth(h) < Units(o.y + 1, o.e2) <==> !Carries(h.limbs, fmt.Dig()))
  }

  ghost function Units(n: int, e2: int): real {
    n as real * Pow2(e2)
  }

  lemma MantissaTruncates(fmt: Format, s: seq<int>, rp: int)
    requires Good(fmt, s) && |s| < fmt.Capacity()
    ensures Truncates(fmt, s, rp, Mantissas(fmt, s, rp))
  {
    hide Value, Top, Normalised, Carries, Strays, Pow2, Units;
    var h, o := Normalised(fmt, s, rp), Mantissas(fmt, s, rp);
    var v := Value(h.limbs, 9 * fmt.Dig());
    TruncatedIff(h.limbs, fmt.Dig());
    ScaledOrder(o.y, v, o.e2, Worth(h));
  }

  lemma ScaledOrder(y: int, v: real, e2: int, w: real)
    requires y as real <= v < y as real + 2.0 && w == v * Pow2(e2)
    ensures Units(y, e2) <= w < Units(y + 2, e2) && (w < Units(y + 1, e2) <==> v < y as real + 1.0)
  {
    hide Pow2, Units;
    UnitsOrder(y, v, e2, w);
    UnitsOrder(y + 1, v, e2, w);
    UnitsOrder(y + 2, v, e2, w);
  }

  lemma UnitsOrder(n: int, v: real, e2: int, w: real)
    requires w == v * Pow2(e2)
    ensures (w < Units(n, e2) <==> v < n as real) && (Units(n, e2) <= w <==> n as real <= v)
  {
    hide Pow2;
    OrderTimes(v, n as real, Pow2(e2));
    OrderTimes(n as real, v, Pow2(e2));
  }

  lemma OrderTimes(a: real, b: real, p: real)
    requires p > 0.0
    ensures a * p < b * p <==> a < b
    ensures a * p <= b * p <==> a <= b
  {
    NotNegative(if a <= b then b - a else a - b, p);
    if a < b {
      assert (b - a) * p > 0.0;
    } else if b < a {
      assert (a - b) * p > 0.0;
    }
  }

  /** The mantissa always has its full length.  The number is exact if no digit was dropped and no limb folded away,
      and certainly if digits and radix point leave room. */
  lemma MantissasAre(fmt: Format, s: seq<int>, ds: seq<int>, rp: int)
    requires IsStart(fmt, s, ds, rp)
    ensures FullLength(fmt, Mantissas(fmt, s, rp).y) && Truncates(fmt, s, rp, Mantissas(fmt, s, rp))
    ensures NoneLost(fmt, ds) && Normalised(fmt, s, rp).exact ==> Represents(fmt, s, rp, Mantissas(fmt, s, rp), DigitsValue(ds, rp))
    ensures Roomy(fmt, |ds|, rp) ==> NoneLost(fmt, ds) && Normalised(fmt, s, rp).exact
  {
    hide Value, DigitsValue, Top, TwoTo, Normalised, Number, Strays, Truncates;
    NormalisedMantissa(fmt, s, rp);
    NormalisedWorth(fmt, s, rp);
    MantissaTruncates(fmt, s, rp);
    if Roomy(fmt, |ds|, rp) {
      RoomyIsExact(fmt, s, rp, |ds|);
      RoomyKeeps(fmt, |ds|, rp);
    }
  }

  lemma RoomyKeeps(fmt: Format, digits: nat, rp: int)
    requires Roomy(fmt, digits, rp)
    ensures digits <= Room(fmt)
  {
  }

  /** The smallest exponent of the types a format is used for: LDBL_MIN_EXP - LDBL_MANT_DIG. */
  function Emin(fmt: Format): int {
    match fmt case Double => -1074 case Extended => -16445 case Quad => -16494
  }

  predicate FitsBits(ds: seq<int>, bits: nat) {
    bits > 30 || NatOf(ds) < TwoTo(bits)
  }

  /** The outcome for a number given by its digits and the place of its radix point: which kind it is, and what the
      kind means. */
  ghost predicate Answers(fmt: Format, ds: seq<int>, rp: int, bits: nat, emin: int, o: Outcome)
    requires bits >= 24
  {
    && !o.Malformed? && !o.NoExponent?
    && (o.Zero? <==> ds == [])
    && (o.Overflow? <==> ds != [] && rp > -emin / 2)
    && (o.Underflow? <==> ds != [] && rp < emin - 2 * fmt.MantDig())
    && (o.Small? <==> ds != [] && ((rp == |ds| < 10 && FitsBits(ds, bits)) || Direct(fmt, ds, rp, bits)))
    && (o.Overflow? ==> DigitsValue(ds, rp) >= Pow10(-emin / 2))
    && (o.Underflow? ==> DigitsValue(ds, rp) < Pow10(emin - 2 * fmt.MantDig()))
    && (o.Small? ==> IsExactly(o, DigitsValue(ds, rp)))
    && (o.Scaled? ==> IsMantissa(fmt, StartLimbs(fmt, ds), ds, rp, o))
  }

  predicate FullLength(fmt: Format, y: int) {
    TwoTo(fmt.MantDig() - 1) <= y <= TwoTo(fmt.MantDig()) - 1
  }

  /** A mantissa of full length, the one that normalising the packed digits `s` gives, truncated from it, and exact if
      digits and radix point leave room. */
  ghost predicate IsMantissa(fmt: Format, s: seq<int>, ds: seq<int>, rp: int, o: Outcome) {
    && IsStart(fmt, s, ds, rp) && o == Mantissas(fmt, s, rp) && FullLength(fmt, o.y) && Truncates(fmt, s, rp, o)
    && (Roomy(fmt, |ds|, rp) ==> Represents(fmt, s, rp, o, DigitsValue(ds, rp)))
  }

  /** The part after the exponent: `base` digits before the radix point, the exponent `value` saturated to `e10`. */
  method Classify(fmt: Format, x: array<Word>, t: Tally, base: int, e10: int, bits: nat, emin: int,
                  ghost ds: seq<int>, ghost value: int) returns (o: Outcome)
    requires Holds(fmt, x[..], t, ds) && AreDigits(ds) && (ds != [] ==> ds[0] != 0)
    requires SaturatedTo(e10, value) && -0x4_0000_0000_0000 < base < 0x4_0000_0000_0000
    requires bits >= 24 && Emin(fmt) <= emin <= -149
    modifies x
    ensures Answers(fmt, ds, base + value, bits, emin, o)
  {
    hide Holds, DigitsValue, NoneLost, Pow10, SaturatedTo, TwoTo, Mantissas, IsStart, StartLimbs, Represents, Roomy,
         IsExactly, Direct, NatOf, FitsBits, IsMantissa;
    var lrp := base + e10;
    HoldsZero(fmt, x[..], t, ds);
    if x[0] == 0 {
      return Zero;
    }
    RangeOfSaturated(ds, base, e10, value, emin, emin - 2 * fmt.MantDig());
    FirstFits(fmt, x[..], t, ds, bits);
    DirectRange(fmt, ds, base + value, bits);
    if lrp == t.dc && t.dc < 10 && (bits > 30 || x[0] / TwoTo(bits) == 0) {
      o := Small(x[0], 1, 1);
      ShortIsExact(o, ds);
      return;
    }
    if lrp > -emin / 2 {
      return Overflow;
    }
    if lrp < emin - 2 * fmt.MantDig() {
      return Underflow;
    }
    o := Convert(fmt, x, t, lrp, bits, ds);
    if o.Scaled? {
      MantissaIs(fmt, ds, lrp, o);
    }
  }

  lemma FirstFits(fmt: Format, cells: seq<Word>, t: Tally, ds: seq<int>, bits: nat)
    requires Holds(fmt, cells, t, ds) && ds != []
    ensures |cells| > 0 && (t.dc < 10 ==> cells[0] == NatOf(ds) && (FitsBits(ds, bits) <==> bits > 30 || cells[0] / TwoTo(bits) == 0))
  {
    hide NatOf, TwoTo;
    HoldsZero(fmt, cells, t, ds);
    ShiftedOut(cells[0], bits);
    if t.dc < 10 {
      FirstLimbIsAll(fmt, cells, t, ds);
    }
  }

  lemma MantissaIs(fmt: Format, ds: seq<int>, rp: int, o: Outcome)
    requires var s := StartLimbs(fmt, ds); IsStart(fmt, s, ds, rp) && o == Mantissas(fmt, s, rp)
    ensures IsMantissa(fmt, StartLimbs(fmt, ds), ds, rp, o)
  {
    hide StartLimbs, Mantissas, Normalised, Represents, DigitsValue, TwoTo, Roomy, NoneLost, Truncates;
    MantissasAre(fmt, StartLimbs(fmt, ds), ds, rp);
  }

  /** decfloat up to the end of normalisation.  `bits` and `emin` describe the target type, from float up to long
      double. */
  method Scan(fmt: Format, text: string, pos: nat, bits: nat, emin: int, pok: bool) returns (o: Outcome, end: nat)
    requires pos <= |text| < 0x1_0000_0000_0000 && bits >= 24 && Emin(fmt) <= emin <= -149
    ensures var m := ReadMantissa(text, pos);
            && (o.Malformed? <==> !m.seen)
            && (o.NoExponent? <==> m.seen && !pok && HasExponent(text, m) && ReadExponent(text, m.end + 1).NoDigits?)
            && end == (if o.Malformed? || o.NoExponent? then pos else ScanEnd(text, pos))
            && (m.seen && !o.NoExponent? ==> Answers(fmt, m.digits, PointOf(text, pos), bits, emin, o))
  {
    hide Holds, NoneLost, ReadOn, ReadExponent, SaturatedTo, Answers;
    var x := new Word[fmt.Kmax()];
    ghost var m := ReadMantissa(text, pos);
    ReadBounds(text, Mantissa([], 0, false, false, pos), pos);
    var t, lrp, gotdig;
    t, lrp, gotdig, end := Collect(fmt, text, pos, x);
    if !gotdig {
      return Malformed, pos;
    }
    HoldsZero(fmt, x[..], t, m.digits);
    ghost var value := ExponentOf(text, m);
    var e10 := 0;
    if At(text, end) == 'e' || At(text, end) == 'E' {
      var found, e, after := ScanExp(text, end + 1);
      if found {
        e10, end := e, after;
      } else if !pok {
        return NoExponent, pos;
      }
    }
    assert SaturatedTo(e10, value) by { Saturates(0, 0, false); }
    o := Classify(fmt, x, t, lrp, e10, bits, emin, m.digits, value);
    AnswersKinds(fmt, m.digits, lrp + value, bits, emin, o);
  }

  lemma AnswersKinds(fmt: Format, ds: seq<int>, rp: int, bits: nat, emin: int, o: Outcome)
    requires bits >= 24 && Answers(fmt, ds, rp, bits, emin, o)
    ensures !o.Malformed? && !o.NoExponent?
  {
  }

  lemma DirectRange(fmt: Format, ds: seq<int>, rp: int, bits: nat)
    requires bits >= 24
    ensures Direct(fmt, ds, rp, bits) ==> 0 <= rp < 18
  {
  }

  lemma HoldsZero(fmt: Format, cells: seq<Word>, t: Tally, ds: seq<int>)
    requires Holds(fmt, cells, t, ds)
    ensures |cells| == fmt.Kmax() && t.dc == |ds| && (cells[0] == 0 <==> ds == [])
  {
  }

  lemma ShortIsExact(o: Outcome, ds: seq<int>)
    requires o == Small(NatOf(ds), 1, 1)
    ensures IsExactly(o, DigitsValue(ds, |ds|))
  {
    Pow10Zero();
  }
}
