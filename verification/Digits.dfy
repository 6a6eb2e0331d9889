/**
 Reading the decimal text: a reference reader for mantissa and exponent, and the
 scanner's packing of digits into base-10^9 limbs.
 */
module Digits {
  import opened Decimal
  import opened Normalise
  import opened Words
  import opened FloatScan

  function TenTo(n: nat): (p: int)
    ensures p > 0
  {
    if n == 0 then 1 else 10 * TenTo(n - 1)
  }

  lemma {:induction false} Pow10Add(e: int, n: nat)
    ensures Pow10(e + n) == TenTo(n) as real * Pow10(e)
  {
    hide Pow10;
    if n > 0 {
      Pow10Add(e, n - 1);
      Pow10Step(e + n - 1);
      Pow10Grow(TenTo(n - 1), Pow10(e), Pow10(e + n - 1), Pow10(e + n));
    }
  }

  lemma Pow10Grow(t: int, p: real, u: real, v: real)
    requires u == t as real * p && v == 10.0 * u
    ensures v == (10 * t) as real * p
  {
  }

  // ---- the reference reader -----------------------------------------------------------------

  /** The character at the cursor; the text ends in NUL. */
  function At(text: string, pos: nat): char {
    if pos < |text| then text[pos] else '\0'
  }

  predicate IsDigit(c: char) {
    '0' <= c <= '9'
  }

  function DigitOf(c: char): (d: int)
    requires IsDigit(c)
    ensures 0 <= d <= 9
  {
    c as int - '0' as int
  }

  /** The integer that a digit sequence spells. */
  function NatOf(ds: seq<int>): int
  {
    if ds == [] then 0 else 10 * NatOf(ds[..|ds| - 1]) + ds[|ds| - 1]
  }

  ghost predicate AreDigits(ds: seq<int>) {
    forall i :: 0 <= i < |ds| ==> 0 <= ds[i] <= 9
  }

  ghost predicate AllZero(ds: seq<int>) {
    forall i :: 0 <= i < |ds| ==> ds[i] == 0
  }

  lemma NatAppend(ds: seq<int>, d: int)
    ensures NatOf(ds + [d]) == 10 * NatOf(ds) + d
  {
    assert (ds + [d])[..|ds|] == ds;
  }

  lemma {:induction false} NatConcat(a: seq<int>, b: seq<int>)
    ensures NatOf(a + b) == NatOf(a) * TenTo(|b|) + NatOf(b)
  {
    if b == [] {
      assert a + b == a;
    } else {
      var b0, d := b[..|b| - 1], b[|b| - 1];
      NatConcat(a, b0);
      assert a + b == (a + b0) + [d];
      NatAppend(a + b0, d);
      Regroup(NatOf(a), TenTo(|b0|));
    }
  }

  lemma Regroup(n: int, t: int)
    ensures 10 * (n * t) == n * (10 * t)
  {
  }

  lemma {:induction false} NatBounds(ds: seq<int>)
    requires AreDigits(ds)
    ensures 0 <= NatOf(ds) < TenTo(|ds|)
    ensures NatOf(ds) == 0 <==> AllZero(ds)
    ensures ds != [] && ds[0] != 0 ==> NatOf(ds) >= TenTo(|ds| - 1)
  {
    if ds != [] {
      NatBounds(ds[..|ds| - 1]);
      if AllZero(ds[..|ds| - 1]) && ds[|ds| - 1] == 0 {
        assert AllZero(ds);
      }
    }
  }

  /** A mantissa: its digits from the first non-zero one on, how many digits stand after the radix point,
      whether there was any digit and any radix point, and where it ends. */
  datatype Mantissa = Mantissa(digits: seq<int>, frac: nat, seen: bool, rad: bool, end: nat) {
    function WithDigit(d: int): Mantissa {
      Mantissa(if digits == [] && d == 0 then [] else digits + [d], if rad then frac + 1 else frac, true, rad, end + 1)
    }
  }

  /** Read on from a partial mantissa: digits, with at most one radix point among them. */
  function ReadOn(text: string, m: Mantissa): (r: Mantissa)
    decreases |text| - m.end
  {
    var c := At(text, m.end);
    if m.end < |text| && IsDigit(c) then ReadOn(text, m.WithDigit(DigitOf(c)))
    else if m.end < |text| && c == '.' && !m.rad then ReadOn(text, m.(rad := true, end := m.end + 1))
    else m
  }

  function ReadMantissa(text: string, pos: nat): (r: Mantissa) {
    ReadOn(text, Mantissa([], 0, false, false, pos))
  }

  // ---- packing digits into limbs --------------------------------------------------------------

  /** Counters of the collecting loop: `k` full limbs, `j` digits of the next, `dc` significant digits
      read, `lnz` the place of the last non-zero one. */
  datatype Tally = Tally(k: nat, j: nat, dc: nat, lnz: nat)

  /** Digits the ring has room for. */
  function Room(fmt: Format): nat {
    9 * (fmt.Kmax() - 3)
  }

  function KeptDigits(fmt: Format, ds: seq<int>): (r: seq<int>) {
    if |ds| <= Room(fmt) then ds else ds[..Room(fmt)]
  }

  /** No non-zero digit was left out of the limbs. */
  ghost predicate NoneLost(fmt: Format, ds: seq<int>) {
    |ds| <= Room(fmt) || AllZero(ds[Room(fmt)..])
  }

  /** The integer the limbs end up holding: a lost digit shows as a set low bit. */
  ghost function Sticky(fmt: Format, ds: seq<int>): int {
    var n := NatOf(KeptDigits(fmt, ds));
    if !NoneLost(fmt, ds) && n % 2 == 0 then n + 1 else n
  }

  /** Limbs as the loop holds them: full ones, then the started one if any. */
  ghost function Packed(cells: seq<Word>, k: nat, j: nat): int
    requires k < |cells|
  {
    Int(cells[..k]) * TenTo(j) + (if j > 0 then cells[k] else 0)
  }

  /** Limb bounds of the loop. */
  ghost predicate PackShape(fmt: Format, cells: seq<Word>, k: nat, j: nat)
  {
    && |cells| == fmt.Kmax() && k <= fmt.Kmax() - 3 && j < 9 && (k == fmt.Kmax() - 3 ==> j == 0)
    && (forall i :: 0 <= i < k ==> cells[i] < BASE)
    && (j > 0 ==> cells[k] < TenTo(j))
  }

  /** Nothing but zeros after the first limb. */
  ghost predicate OneLimb(cells: seq<Word>, k: nat, j: nat)
    requires k < |cells|
  {
    (forall i :: 1 <= i < k ==> cells[i] == 0) && (k > 0 && j > 0 ==> cells[k] == 0)
  }

  /** How many digits there are up to the last one that is not zero. */
  function LastPlace(ds: seq<int>): (n: nat)
    ensures n <= |ds|
  {
    if ds == [] then 0 else if ds[|ds| - 1] != 0 then |ds| else LastPlace(ds[..|ds| - 1])
  }

  lemma LastPlaceAppend(ds: seq<int>, d: int)
    ensures LastPlace(ds + [d]) == if d != 0 then |ds| + 1 else LastPlace(ds)
  {
    assert (ds + [d])[..|ds|] == ds;
  }

  /** The limbs hold the digits `ds`. */
  ghost predicate Holds(fmt: Format, cells: seq<Word>, t: Tally, ds: seq<int>)
  {
    && PackShape(fmt, cells, t.k, t.j) && t.j < 9
    && 9 * t.k + t.j == |KeptDigits(fmt, ds)| && t.dc == |ds|
    && Packed(cells, t.k, t.j) == Sticky(fmt, ds)
    && (t.lnz <= 9 ==> OneLimb(cells, t.k, t.j) && NoneLost(fmt, ds))
    && (t.lnz < 9 || LastPlace(ds) < 9 ==> t.lnz == LastPlace(ds))
    && (if ds == [] then cells[0] == 0 else t.lnz >= 1 && cells[0] > 0)
  }

  /** One digit goes into the started limb. */
  method PackDigit(x: array<Word>, k: nat, j: nat, d: int, ghost fmt: Format) returns (k': nat, j': nat)
    requires PackShape(fmt, x[..], k, j) && k < fmt.Kmax() - 3 && 0 <= d <= 9
    modifies x
    ensures PackShape(fmt, x[..], k', j')
    ensures 9 * k' + j' == 9 * k + j + 1
    ensures Packed(x[..], k', j') == 10 * old(Packed(x[..], k, j)) + d
    ensures x[..] == old(x[..])[k := x[k]]
    ensures d == 0 && old(OneLimb(x[..], k, j)) ==> OneLimb(x[..], k', j')
    ensures k == 0 ==> OneLimb(x[..], k', j')
    ensures x[k] == (if j > 0 then old(x[k]) * 10 else 0) + d
  {
    hide Int, TenTo, Packed, PackShape;
    ghost var cells := x[..];
    PackStep(fmt, cells, k, j, d);
    x[k] := if j > 0 then x[k] * 10 + d else d;
    assert x[..] == cells[k := x[k]];
    k', j' := k, j + 1;
    if j' == 9 {
      k', j' := k + 1, 0;
    }
  }

  lemma PackStep(fmt: Format, cells: seq<Word>, k: nat, j: nat, d: int)
    requires PackShape(fmt, cells, k, j) && k < fmt.Kmax() - 3 && 0 <= d <= 9
    ensures |cells| == fmt.Kmax() && (j > 0 ==> cells[k] < 100000000) && j < 9
    ensures var c := cells[k := (if j > 0 then cells[k] * 10 else 0) + d];
            var k', j' := if j == 8 then k + 1 else k, if j == 8 then 0 else j + 1;
            PackShape(fmt, c, k', j') && Packed(c, k', j') == 10 * Packed(cells, k, j) + d
  {
    hide Int;
    PackBound(j);
    var v: Word := (if j > 0 then cells[k] * 10 else 0) + d;
    var c := cells[k := v];
    assert c[..k] == cells[..k];
    Regroup(Int(cells[..k]), TenTo(j));
    if j == 8 {
      assert c[..k + 1] == c[..k] + [v];
      IntAppend(c[..k], v);
    }
  }

  lemma PackBound(j: nat)
    requires j < 9
    ensures TenTo(j) <= 100000000 && TenTo(9) == BASE && TenTo(8) == 100000000
  {
    assert TenTo(2) == 100 && TenTo(4) == 10000 && TenTo(6) == 1000000;
  }

  lemma PackFacts(fmt: Format, cells: seq<Word>, k: nat, j: nat)
    requires PackShape(fmt, cells, k, j)
    ensures |cells| == fmt.Kmax() && j < 9 && k <= fmt.Kmax() - 3
  {
  }

  /** One significant digit: packed while there is room, else only noted in the last limb's low bit. */
  method AddDigit(fmt: Format, x: array<Word>, t: Tally, d: int, ghost ds: seq<int>) returns (r: Tally)
    requires Holds(fmt, x[..], t, ds) && 0 <= d <= 9 && (ds == [] ==> d != 0)
    modifies x
    ensures Holds(fmt, x[..], r, ds + [d])
  {
    hide NatOf, Packed, OneLimb, PackShape, Sticky, NoneLost, LastPlace;
    r := t.(dc := t.dc + 1);
    LastPlaceAppend(ds, d);
    PackFacts(fmt, x[..], t.k, t.j);
    if t.k < fmt.Kmax() - 3 {
      RoomLeft(fmt, ds, d);
      ghost var cells := x[..];
      var k, j := PackDigit(x, t.k, t.j, d, fmt);
      r := r.(k := k, j := j, lnz := if d != 0 then r.dc else t.lnz);
      PackFacts(fmt, x[..], k, j);
      assert x[0] == cells[0] || t.k == 0;
    } else {
      RoomGone(fmt, ds, d);
      if d != 0 {
        r := r.(lnz := (fmt.Kmax() - 4) * 9);
        SetLowBit(fmt, x, t.k);
      }
    }
  }

  /** Setting the low bit of the last limb makes the packed integer odd. */
  method SetLowBit(fmt: Format, x: array<Word>, ghost k: nat)
    requires PackShape(fmt, x[..], k, 0) && k == fmt.Kmax() - 3
    modifies x
    ensures PackShape(fmt, x[..], k, 0)
    ensures var n := old(Packed(x[..], k, 0)); Packed(x[..], k, 0) == if n % 2 == 0 then n + 1 else n
    ensures x[0] >= old(x[0])
  {
    ghost var cells := x[..];
    var last := fmt.Kmax() - 4;
    BitOrOne(x[last]);
    x[last] := BitOr(x[last], 1);
    assert x[..] == cells[last := x[last]];
    LowBit(cells, x[..], k);
  }

  lemma LowBit(cells: seq<Word>, after: seq<Word>, k: nat)
    requires 1 <= k < |cells| && after == cells[k - 1 := if cells[k - 1] % 2 == 0 then cells[k - 1] + 1 else cells[k - 1]]
    ensures var n := Packed(cells, k, 0); Packed(after, k, 0) == if n % 2 == 0 then n + 1 else n
  {
    var c, t := cells[..k - 1], cells[k - 1];
    assert cells[..k] == c + [t] && after[..k] == c + [after[k - 1]];
    IntAppend(c, t);
    IntAppend(c, after[k - 1]);
    assert Packed(cells, k, 0) == Int(cells[..k]) && Packed(after, k, 0) == Int(after[..k]);
  }

  lemma RoomLeft(fmt: Format, ds: seq<int>, d: int)
    requires |KeptDigits(fmt, ds)| < Room(fmt)
    ensures KeptDigits(fmt, ds) == ds && KeptDigits(fmt, ds + [d]) == ds + [d]
    ensures Sticky(fmt, ds + [d]) == 10 * Sticky(fmt, ds) + d && NoneLost(fmt, ds + [d])
  {
    NatAppend(ds, d);
  }

  lemma RoomGone(fmt: Format, ds: seq<int>, d: int)
    requires |KeptDigits(fmt, ds)| == Room(fmt)
    ensures |KeptDigits(fmt, ds + [d])| == Room(fmt)
    ensures NoneLost(fmt, ds + [d]) <==> NoneLost(fmt, ds) && d == 0
    ensures var n := Sticky(fmt, ds); Sticky(fmt, ds + [d]) == if d != 0 && n % 2 == 0 then n + 1 else n
  {
    var r := Room(fmt);
    assert (ds + [d])[..r] == ds[..r] == KeptDigits(fmt, ds);
    assert (ds + [d])[r..] == ds[r..] + [d];
    if AllZero(ds[r..] + [d]) {
      assert (ds[r..] + [d])[|ds| - r] == d;
      forall i | 0 <= i < |ds[r..]| ensures ds[r..][i] == 0 {
        assert (ds[r..] + [d])[i] == ds[r..][i];
      }
    }
  }

  lemma BitOrOne(p: nat)
    ensures BitOr(p, 1) == if p % 2 == 0 then p + 1 else p
  {
    assert BitOr(p / 2, 0) == p / 2 by { BitOrZero(p / 2); }
  }

  lemma {:induction false} BitOrZero(p: nat)
    ensures BitOr(p, 0) == p
  {
    if p > 0 {
      BitOrZero(p / 2);
    }
  }

  /** A partial mantissa that leads to the whole one. */
  ghost predicate Reading(text: string, pos: nat, m: Mantissa) {
    && ReadMantissa(text, pos) == ReadOn(text, m)
    && (m.digits != [] ==> m.seen) && (!m.rad ==> m.frac == 0) && AreDigits(m.digits)
    && (m.digits != [] ==> m.digits[0] != 0)
  }

  lemma ReadDigit(text: string, pos: nat, m: Mantissa)
    requires Reading(text, pos, m) && IsDigit(At(text, m.end))
    ensures Reading(text, pos, m.WithDigit(DigitOf(At(text, m.end))))
  {
  }

  lemma ReadPoint(text: string, pos: nat, m: Mantissa)
    requires Reading(text, pos, m) && At(text, m.end) == '.' && !m.rad
    ensures Reading(text, pos, m.(rad := true, end := m.end + 1))
  {
  }

  /** The leading zeros: none of them is significant. */
  method SkipZeros(text: string, pos: nat) returns (end: nat, lrp: int, gotdig: bool, gotrad: bool, ghost m: Mantissa)
    ensures Reading(text, pos, m) && m.end == end && m.seen == gotdig && m.rad == gotrad
    ensures m.digits == [] && lrp == 0 - m.frac && At(text, end) != '0' && (gotrad || At(text, end) != '.')
  {
    hide ReadOn;
    end, lrp, gotdig, gotrad := pos, 0, false, false;
    m := Mantissa([], 0, false, false, pos);
    while At(text, end) == '0'
      invariant Reading(text, pos, m) && m == Mantissa([], 0, gotdig, false, end)
      decreases |text| - end
    {
      ReadDigit(text, pos, m);
      m, gotdig, end := m.WithDigit(0), true, end + 1;
    }
    if At(text, end) == '.' {
      ReadPoint(text, pos, m);
      m, gotrad, end := m.(rad := true, end := end + 1), true, end + 1;
      while At(text, end) == '0'
        invariant Reading(text, pos, m) && lrp <= 0 && m == Mantissa([], -lrp, gotdig, true, end)
        decreases |text| - end
      {
        ReadDigit(text, pos, m);
        m, gotdig, lrp, end := m.WithDigit(0), true, lrp - 1, end + 1;
      }
    }
  }

  /** Collect the mantissa's digits into limbs, up to the first character that does not belong to it. */
  method Collect(fmt: Format, text: string, pos: nat, x: array<Word>)
    returns (t: Tally, lrp: int, gotdig: bool, end: nat)
    requires x.Length == fmt.Kmax()
    modifies x
    ensures var m := ReadMantissa(text, pos);
            && Holds(fmt, x[..], t, m.digits)
            && lrp == t.dc - m.frac && gotdig == m.seen && end == m.end
            && AreDigits(m.digits) && (m.digits != [] ==> m.digits[0] != 0)
  {
    hide Holds;
    var gotrad;
    ghost var m;
    end, lrp, gotdig, gotrad, m := SkipZeros(text, pos);
    x[0] := 0;
    t := Tally(0, 0, 0, 0);
    HoldsNothing(fmt, x[..]);
    while IsDigit(At(text, end)) || At(text, end) == '.'
      invariant Reading(text, pos, m) && m.end == end && m.seen == gotdig && m.rad == gotrad
      invariant Holds(fmt, x[..], t, m.digits) && t.dc == |m.digits|
      invariant gotrad ==> lrp == t.dc - m.frac
      invariant m.digits == [] ==> At(text, end) != '0' && (gotrad || At(text, end) != '.')
      decreases |text| - end
    {
      hide ReadOn;
      var c := At(text, end);
      if c == '.' {
        if gotrad {
          break;
        }
        ReadPoint(text, pos, m);
        gotrad, lrp := true, t.dc;
        m := m.(rad := true, end := end + 1);
      } else {
        ReadDigit(text, pos, m);
        t := AddDigit(fmt, x, t, DigitOf(c), m.digits);
        m, gotdig := m.WithDigit(DigitOf(c)), true;
        HoldsCount(fmt, x[..], t, m.digits);
      }
      end := end + 1;
    }
    if !gotrad {
      lrp := t.dc;
    }
  }

  lemma HoldsNothing(fmt: Format, cells: seq<Word>)
    requires |cells| == fmt.Kmax() && cells[0] == 0
    ensures Holds(fmt, cells, Tally(0, 0, 0, 0), [])
  {
  }

  lemma HoldsCount(fmt: Format, cells: seq<Word>, t: Tally, ds: seq<int>)
    requires Holds(fmt, cells, t, ds)
    ensures t.dc == |ds|
  {
  }

  /** The number a mantissa's digits denote when the radix point stands after `rp` of them. */
  ghost function DigitsValue(ds: seq<int>, rp: int): real {
    NatOf(ds) as real * Pow10(rp - |ds|)
  }

  /** The packed limbs denote the mantissa exactly if and only if no non-zero digit was lost. */
  lemma PackExactIff(fmt: Format, ds: seq<int>, rp: int)
    requires AreDigits(ds)
    ensures Sticky(fmt, ds) as real * Pow10(rp - |KeptDigits(fmt, ds)|) == DigitsValue(ds, rp) <==> NoneLost(fmt, ds)
  {
    hide Pow10, NatOf, TenTo, Sticky, KeptDigits, NoneLost;
    StickyIs(fmt, ds);
    if |ds| > Room(fmt) {
      var ks, rest := ds[..Room(fmt)], ds[Room(fmt)..];
      assert ds == ks + rest;
      NatConcat(ks, rest);
      NatBounds(rest);
      Pow10Add(rp - |ds|, |rest|);
      LostArith(Sticky(fmt, ds), NatOf(ks), TenTo(|rest|), NatOf(rest), NatOf(ds), Pow10(rp - |ds|), Pow10(rp - |ks|));
    }
  }

  lemma StickyIs(fmt: Format, ds: seq<int>)
    ensures |ds| <= Room(fmt) ==> KeptDigits(fmt, ds) == ds && NoneLost(fmt, ds) && Sticky(fmt, ds) == NatOf(ds)
    ensures |ds| > Room(fmt) ==>
              && KeptDigits(fmt, ds) == ds[..Room(fmt)] && (NoneLost(fmt, ds) <==> AllZero(ds[Room(fmt)..]))
              && var n := NatOf(ds[..Room(fmt)]); if NoneLost(fmt, ds) then Sticky(fmt, ds) == n else n <= Sticky(fmt, ds) <= n + 1
  {
  }

  lemma LostArith(s: int, n: int, t: int, r: int, total: int, p: real, q: real)
    requires total == n * t + r && 0 <= r < t && p > 0.0 && q == t as real * p
    requires if r == 0 then s == n else n <= s <= n + 1
    ensures s as real * q == total as real * p <==> r == 0
  {
    assert s as real * q == (s * t) as real * p;
    assert s == n || s * t == n * t + t;
    assert s * t == total <==> r == 0;
    SameProduct(s * t, total, p);
  }

  lemma SameProduct(m: int, n: int, p: real)
    requires p > 0.0
    ensures m as real * p == n as real * p <==> m == n
  {
    if m as real * p == n as real * p {
      assert (m as real - n as real) * p == 0.0;
    }
  }

  /** Fill the started limb up with zeros. */
  method PadLast(fmt: Format, x: array<Word>, t: Tally, ghost ds: seq<int>) returns (k: nat)
    requires Holds(fmt, x[..], t, ds) && ds != []
    modifies x
    ensures 1 <= k <= fmt.Kmax() - 3 && x[0] > 0
    ensures forall i :: 0 <= i < k ==> x[i] < BASE
    ensures |KeptDigits(fmt, ds)| <= 9 * k < |KeptDigits(fmt, ds)| + 9
    ensures Int(x[..k]) == Sticky(fmt, ds) * TenTo(9 * k - |KeptDigits(fmt, ds)|)
    ensures t.lnz <= 9 ==> forall i :: 1 <= i < k ==> x[i] == 0
  {
    hide Sticky, NoneLost, KeptDigits, Int;
    KeptSome(fmt, ds);
    k := t.k;
    ghost var cells := x[..];
    if t.j > 0 {
      ScaleCell(x, k, t.j);
      assert x[..k] == cells[..k] && x[..k + 1] == x[..k] + [x[k]];
      IntAppend(x[..k], x[k]);
      PadArith(Int(cells[..k]), cells[k], t.j);
      k := k + 1;
    }
  }

  lemma KeptSome(fmt: Format, ds: seq<int>)
    requires ds != []
    ensures 1 <= |KeptDigits(fmt, ds)|
  {
  }

  /** Scale the started limb up to nine digits. */
  method ScaleCell(x: array<Word>, k: nat, j0: nat)
    requires k < x.Length && 1 <= j0 < 9 && x[k] < TenTo(j0)
    modifies x
    ensures x[..] == old(x[..])[k := x[k]] && x[k] == old(x[k]) * TenTo(9 - j0) && x[k] < BASE
    ensures old(x[k]) > 0 ==> x[k] > 0
  {
    var j := j0;
    PackBound(8);
    while j < 9
      invariant j0 <= j <= 9 && x[..] == old(x[..])[k := x[k]]
      invariant x[k] < TenTo(j) && x[k] == old(x[k]) * TenTo(j - j0)
      invariant old(x[k]) > 0 ==> x[k] > 0
    {
      PackBound(j);
      Regroup(old(x[k]), TenTo(j - j0));
      x[k] := x[k] * 10;
      j := j + 1;
    }
  }

  lemma PadArith(n: int, c: int, j: nat)
    requires 1 <= j < 9
    ensures n * BASE + c * TenTo(9 - j) == (n * TenTo(j) + c) * TenTo(9 - j)
  {
    PackBound(8);
    TenToAdd(j, 9 - j);
    assert n * (TenTo(j) * TenTo(9 - j)) == (n * TenTo(j)) * TenTo(9 - j);
  }

  lemma {:induction false} TenToAdd(m: nat, n: nat)
    ensures TenTo(m + n) == TenTo(m) * TenTo(n)
  {
    if n > 0 {
      TenToAdd(m, n - 1);
      Regroup(TenTo(m), TenTo(n - 1));
    }
  }

  /** The filled limbs denote what the packed digits did. */
  lemma PaddedValue(fmt: Format, limbs: seq<int>, ds: seq<int>, rp: int)
    requires |KeptDigits(fmt, ds)| <= 9 * |limbs|
    requires Int(limbs) == Sticky(fmt, ds) * TenTo(9 * |limbs| - |KeptDigits(fmt, ds)|)
    ensures Value(limbs, rp) == Sticky(fmt, ds) as real * Pow10(rp - |KeptDigits(fmt, ds)|)
  {
    hide Pow10, Int, Sticky, KeptDigits;
    var e, q := rp - 9 * |limbs|, |KeptDigits(fmt, ds)|;
    Pow10Add(e, 9 * |limbs| - q);
    ScaleOut(Sticky(fmt, ds), TenTo(9 * |limbs| - q), Int(limbs), Pow10(e), Pow10(rp - q));
  }

  lemma ScaleOut(n: int, t: int, nt: int, p: real, q: real)
    requires nt == n * t && q == t as real * p
    ensures nt as real * p == n as real * q
  {
  }

  // ---- the limbs as a function of the digits -------------------------------------------------------------

  /** The last `k` base-10^9 digits of a number. */
  function Groups(n: int, k: nat): (s: seq<int>)
    ensures |s| == k
    decreases k
  {
    if k == 0 then [] else Groups(n / BASE, k - 1) + [n % BASE]
  }

  lemma {:induction false} GroupsUnique(s: seq<int>)
    requires forall i :: 0 <= i < |s| ==> 0 <= s[i] < BASE
    ensures s == Groups(Int(s), |s|)
  {
    if s != [] {
      var t, x := s[..|s| - 1], s[|s| - 1];
      assert s == t + [x];
      IntAppend(t, x);
      GroupsUnique(t);
      assert Int(s) / BASE == Int(t) && Int(s) % BASE == x;
    }
  }

  /** The limbs that packing leaves: the kept digits in groups of nine, the last group filled up with zeros, and
      trailing zero limbs cut. */
  ghost function StartLimbs(fmt: Format, ds: seq<int>): seq<int> {
    var n := |KeptDigits(fmt, ds)|;
    var k := (n + 8) / 9;
    TrimZeros(Groups(Sticky(fmt, ds) * TenTo(9 * k - n), k))
  }
}
