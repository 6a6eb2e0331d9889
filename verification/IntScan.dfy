/**
 __intscan: an integer in any base from 2 to 36 read from a string, with the value
 accumulated in one of three ways and saturated at a limit.
 */
module IntScan {
  import opened Words

  const MAX: nat := 0xffff_ffff_ffff_ffff // ULLONG_MAX
  const UMAX: nat := 0xffff_ffff          // UINT_MAX

  /** The character at a position; the string ends in a NUL. */
  function At(text: seq<nat>, pos: nat): nat {
    if pos < |text| then text[pos] else 0
  }

  /** What the table gives: a digit's value, or 255. */
  function Val(c: nat): nat {
    if '0' as nat <= c <= '9' as nat then c - '0' as nat
    else if 'A' as nat <= c <= 'Z' as nat then c - 'A' as nat + 10
    else if 'a' as nat <= c <= 'z' as nat then c - 'a' as nat + 10
    else 255
  }

  predicate IsSpace(c: nat) {
    c == 32 || 9 <= c <= 13
  }

  predicate IsX(c: nat) {
    c == 'x' as nat || c == 'X' as nat
  }

  // ---- what the standard says -------------------------------------------------------------------

  function SkipSpace(text: seq<nat>, pos: nat): (p: nat)
    ensures p >= pos
    decreases |text| - pos
  {
    if pos < |text| && IsSpace(text[pos]) then SkipSpace(text, pos + 1) else pos
  }

  /** The end of the digits of base `b` from `pos` on. */
  function DigitsEnd(text: seq<nat>, b: nat, pos: nat): (p: nat)
    requires b <= 36
    ensures p >= pos
    decreases |text| - pos
  {
    if pos < |text| && Val(text[pos]) < b then DigitsEnd(text, b, pos + 1) else pos
  }

  /** The value of the digits between two positions. */
  function Value(text: seq<nat>, b: nat, from: nat, to: nat): nat
    requires from <= to
  {
    if from == to then 0 else Times(Value(text, b, from, to - 1), b) + Val(At(text, to - 1))
  }

  /** How a string begins: the base is impossible, there is no number, there is only a zero followed by an x,
      or a number in some base whose digits (after a prefix) start at `from`. */
  datatype Form = BadBase | NoNumber | ZeroX(end: nat) | Number(neg: bool, base: nat, from: nat)

  function Sign(text: seq<nat>, pos: nat): (bool, nat) {
    var c := At(text, pos);
    if c == '-' as nat then (true, pos + 1) else if c == '+' as nat then (false, pos + 1) else (false, pos)
  }

  function Parse(text: seq<nat>, base: nat): (f: Form)
    ensures f.Number? ==> 2 <= f.base <= 36
  {
    if base > 36 || base == 1 then BadBase
    else
      var (neg, p) := Sign(text, SkipSpace(text, 0));
      if (base == 0 || base == 16) && At(text, p) == '0' as nat then
        if IsX(At(text, p + 1)) then
          if Val(At(text, p + 2)) < 16 then Number(neg, 16, p + 2) else ZeroX(p + 1)
        else Number(neg, if base == 0 then 8 else 16, p + 1)
      else
        var b := if base == 0 then 10 else base;
        if Val(At(text, p)) < b then Number(neg, b, p) else NoNumber
  }

  /** The limit of a signed type, 2^k, or of an unsigned one, 2^k - 1. */
  ghost predicate LimitOk(lim: nat, k: nat, signed: bool) {
    0 < k && (if signed then k <= 63 && lim == TwoTo(k) else k <= 64 && lim == TwoTo(k) - 1)
  }

  function Signed(neg: bool, n: nat): int {
    if neg then 0 - n else n
  }

  datatype Errno = NoError | Einval | Erange

  /** The result for a number of magnitude `n`: the signed value if the type can hold it, otherwise the nearest
      bound, for unsigned types the largest value; an unsigned result is negated in its type. */
  ghost predicate Converted(neg: bool, n: nat, k: nat, signed: bool, value: nat, err: Errno) {
    if signed then
      var v := Signed(neg, n);
      var clamped := if v > TwoTo(k) - 1 then TwoTo(k) - 1 else if v < -TwoTo(k) then -TwoTo(k) else v;
      value % TwoTo(k + 1) == clamped % TwoTo(k + 1) && err == (if v == clamped then NoError else Erange)
    else if n <= TwoTo(k) - 1 then
      value % TwoTo(k) == Signed(neg, n) % TwoTo(k) && err == NoError
    else
      value == TwoTo(k) - 1 && err == Erange
  }

  // ---- accumulation ---------------------------------------------------------------------------------

  lemma ValueNext(text: seq<nat>, b: nat, from: nat, to: nat)
    requires from <= to
    ensures Value(text, b, from, to + 1) == Times(Value(text, b, from, to), b) + Val(At(text, to))
  {
  }

  lemma {:induction false} ValueGrows(text: seq<nat>, b: nat, from: nat, mid: nat, to: nat)
    requires from <= mid <= to && b >= 1
    ensures Value(text, b, from, mid) <= Value(text, b, from, to)
  {
    if mid < to {
      hide Times;
      ValueGrows(text, b, from, mid, to - 1);
      TimesAtLeast(Value(text, b, from, to - 1), b);
    }
  }

  /** Digits [from, end) have been read up to `pos`, and `y` is what they have given so far. */
  ghost predicate Reading(text: seq<nat>, b: nat, from: nat, pos: nat, y: nat)
    requires b <= 36
  {
    from <= pos <= DigitsEnd(text, b, from) && y == Value(text, b, from, pos) && y <= MAX
  }

  /** A digit at `pos` means the end is further on, and conversely. */
  lemma {:induction false} EndIs(text: seq<nat>, b: nat, from: nat, pos: nat)
    requires b <= 36 && from <= pos <= DigitsEnd(text, b, from)
    ensures Val(At(text, pos)) < b <==> pos < DigitsEnd(text, b, from)
    decreases pos - from
  {
    if from < pos {
      EndIs(text, b, from + 1, pos);
    }
  }

  /** The decimal loops. */
  method ReadDecimal(text: seq<nat>, from: nat) returns (y: nat, pos: nat)
    ensures Reading(text, 10, from, pos, y)
    ensures pos == DigitsEnd(text, 10, from) || Times(y, 10) + Val(At(text, pos)) > MAX
  {
    var c := At(text, from);
    pos := from;
    var x: nat := 0;
    while 0 <= c - '0' as nat < 10 && x <= UMAX / 10 - 1
      invariant Reading(text, 10, from, pos, x) && x <= UMAX && c == At(text, pos)
      decreases DigitsEnd(text, 10, from) - pos
    {
      EndIs(text, 10, from, pos);
      ValueNext(text, 10, from, pos);
      x := x * 10 + (c - '0' as nat);
      pos := pos + 1;
      c := At(text, pos);
    }
    y := x;
    while 0 <= c - '0' as nat < 10 && y <= MAX / 10 && 10 * y <= MAX - (c - '0' as nat)
      invariant Reading(text, 10, from, pos, y) && c == At(text, pos)
      decreases DigitsEnd(text, 10, from) - pos
    {
      EndIs(text, 10, from, pos);
      ValueNext(text, 10, from, pos);
      y := y * 10 + (c - '0' as nat);
      pos := pos + 1;
      c := At(text, pos);
    }
    EndIs(text, 10, from, pos);
  }

  /** The shift for a base that is a power of two, from a string indexed by a hash of the base. */
  function ShiftOf(base: nat): nat {
    [0, 1, 2, 4, 7, 3, 6, 5][0x17 * base / 32 % 8]
  }

  lemma ShiftIs(base: nat)
    requires base == 2 || base == 4 || base == 8 || base == 16 || base == 32
    ensures TwoTo(ShiftOf(base)) == base && 1 <= ShiftOf(base) <= 5
  {
    assert TwoTo(1) == 2 && TwoTo(2) == 4 && TwoTo(3) == 8 && TwoTo(4) == 16 && TwoTo(5) == 32;
  }

  /** y << bs | v adds a digit. */
  lemma {:induction false} ShiftOr(y: nat, bs: nat, v: nat)
    requires v < TwoTo(bs)
    ensures BitOr(y * TwoTo(bs), v) == y * TwoTo(bs) + v
  {
    hide BitOr;
    if bs == 0 {
      assert y * TwoTo(0) == y && v == 0;
    } else {
      var h := TwoTo(bs - 1);
      ShiftOr(y, bs - 1, v / 2);
      Doubled(y, h);
      OrHalves(y * h, v);
    }
  }

  lemma Doubled(y: nat, h: nat)
    ensures y * (2 * h) == 2 * (y * h)
  {
  }

  lemma ProductAtMost(x: nat, b: nat, top: nat)
    requires b <= top
    ensures x * b <= top * x
  {
    assert x * (top - b) >= 0;
  }

  lemma OrHalves(p: nat, v: nat)
    ensures BitOr(2 * p, v) == 2 * BitOr(p, v / 2) + v % 2
  {
  }

  /** The loops for powers of two. */
  method ReadShifted(text: seq<nat>, base: nat, from: nat) returns (y: nat, pos: nat)
    requires base == 2 || base == 4 || base == 8 || base == 16 || base == 32
    ensures Reading(text, base, from, pos, y)
    ensures pos == DigitsEnd(text, base, from) || Times(y, base) + Val(At(text, pos)) > MAX
  {
    hide BitOr, TwoTo, Value, Times;
    var bs := ShiftOf(base);
    ShiftIs(base);
    pos := from;
    ValueNone(text, base, from);
    var x: nat := 0;
    while Val(At(text, pos)) < base && x <= UMAX / 32
      invariant Reading(text, base, from, pos, x) && x <= UMAX
      decreases DigitsEnd(text, base, from) - pos
    {
      EndIs(text, base, from, pos);
      ValueNext(text, base, from, pos);
      ShiftStep(x, bs, base, Val(At(text, pos)), UMAX);
      x := BitOr(x * TwoTo(bs), Val(At(text, pos)));
      pos := pos + 1;
    }
    y := x;
    while Val(At(text, pos)) < base && y <= Shr(MAX, bs)
      invariant Reading(text, base, from, pos, y)
      decreases DigitsEnd(text, base, from) - pos
    {
      EndIs(text, base, from, pos);
      ValueNext(text, base, from, pos);
      ShiftLimit(y, bs, base, Val(At(text, pos)));
      y := BitOr(y * TwoTo(bs), Val(At(text, pos)));
      pos := pos + 1;
    }
    EndIs(text, base, from, pos);
    if Val(At(text, pos)) < base {
      ShiftLimit(y, bs, base, Val(At(text, pos)));
    }
  }

  lemma ValueNone(text: seq<nat>, b: nat, from: nat)
    ensures Value(text, b, from, from) == 0
  {
  }

  lemma ShiftStep(x: nat, bs: nat, base: nat, v: nat, top: nat)
    requires base == TwoTo(bs) && v < base <= 32 && x <= top / 32
    ensures BitOr(x * TwoTo(bs), v) == Times(x, base) + v
    ensures top == UMAX ==> Times(x, base) + v <= UMAX
  {
    hide BitOr, TwoTo;
    ShiftOr(x, bs, v);
    ProductAtMost(x, base, 32);
  }

  /** y <= ULLONG_MAX >> bs exactly if another digit fits. */
  lemma ShiftLimit(y: nat, bs: nat, base: nat, v: nat)
    requires base == TwoTo(bs) && v < base
    requires base == 2 || base == 4 || base == 8 || base == 16 || base == 32
    ensures BitOr(y * TwoTo(bs), v) == Times(y, base) + v
    ensures y <= Shr(MAX, bs) <==> Times(y, base) + v <= MAX
  {
    hide BitOr, TwoTo;
    ShiftOr(y, bs, v);
  }

  /** The loops for any other base. */
  method ReadScaled(text: seq<nat>, base: nat, from: nat) returns (y: nat, pos: nat)
    requires 2 <= base <= 36
    ensures Reading(text, base, from, pos, y)
    ensures pos == DigitsEnd(text, base, from) || Times(y, base) + Val(At(text, pos)) > MAX
  {
    hide Value, Times;
    pos := from;
    ValueNone(text, base, from);
    var x: nat := 0;
    while Val(At(text, pos)) < base && x <= UMAX / 36 - 1
      invariant Reading(text, base, from, pos, x) && x <= UMAX
      decreases DigitsEnd(text, base, from) - pos
    {
      EndIs(text, base, from, pos);
      ValueNext(text, base, from, pos);
      ScaleStep(x, base, Val(At(text, pos)));
      x := Times(x, base) + Val(At(text, pos));
      pos := pos + 1;
    }
    y := x;
    while Val(At(text, pos)) < base && y <= MAX / base && Times(base, y) <= MAX - Val(At(text, pos))
      invariant Reading(text, base, from, pos, y)
      decreases DigitsEnd(text, base, from) - pos
    {
      EndIs(text, base, from, pos);
      ValueNext(text, base, from, pos);
      ScaleLimit(y, base, Val(At(text, pos)));
      y := Times(y, base) + Val(At(text, pos));
      pos := pos + 1;
    }
    EndIs(text, base, from, pos);
    if Val(At(text, pos)) < base {
      ScaleLimit(y, base, Val(At(text, pos)));
    }
  }

  lemma ScaleStep(x: nat, base: nat, v: nat)
    requires v < base <= 36 && x <= UMAX / 36 - 1
    ensures Times(x, base) + v <= UMAX
  {
    ProductAtMost(x, base, 36);
  }

  lemma ScaleLimit(y: nat, base: nat, v: nat)
    requires v < base <= 36
    ensures y <= MAX / base && Times(base, y) <= MAX - v <==> Times(y, base) + v <= MAX
  {
    if Times(y, base) <= MAX {
      FitsQuotient(y, base);
    }
  }

  lemma FitsQuotient(y: nat, b: nat)
    requires b > 0 && y * b <= MAX
    ensures y <= MAX / b
  {
    var q, r := MAX / b, MAX % b;
    assert MAX == b * q + r;
    assert b * (y - q) <= r < b;
    assert y - q >= 1 ==> b * (y - q - 1) >= 0;
  }

  // ---- the whole scan ---------------------------------------------------------------------------------

  lemma LimitFacts(lim: nat, k: nat, signed: bool)
    requires LimitOk(lim, k, signed)
    ensures lim <= MAX && (lim % 2 == 0 <==> signed) && TwoTo(64) == MAX + 1 && TwoTo(k + 1) == 2 * TwoTo(k)
  {
    hide TwoTo, Rem;
    TwoTo64();
    TwoToMonotone(k, if signed then 63 else 64);
    TwoToStep(k - 1);
    TwoToStep(k);
    TwoToStep(63);
  }

  /** Wrapping to 64 bits does not show in a narrower type. */
  lemma Narrowed(x: int, j: nat)
    requires j <= 64
    ensures Word(64, x) % TwoTo(j) == x % TwoTo(j)
  {
    hide TwoTo;
    TwoToAdd(j, 64 - j);
    WrapMod(x, TwoTo(j), TwoTo(64 - j));
  }

  /** -2^k and 2^k are the same in a type of k + 1 bits. */
  lemma HalfWay(m: int)
    requires m > 0
    ensures m % (2 * m) == (-m) % (2 * m)
  {
    DivUnique(m, 2 * m, 0, m);
    DivUnique(-m, 2 * m, -1, m);
  }

  /** From `done` on, and the branch before it for a value of 2^64 or more; `n` is the exact magnitude. */
  method Finish(y0: nat, neg0: bool, overflow: bool, lim: nat, ghost n: nat, ghost k: nat, ghost signed: bool)
    returns (value: nat, err: Errno)
    requires LimitOk(lim, k, signed) && (if overflow then n > MAX else n == y0 <= MAX)
    ensures Converted(neg0, n, k, signed, value, err)
  {
    hide TwoTo, Word;
    LimitFacts(lim, k, signed);
    var y, neg := y0, neg0;
    err := NoError;
    if overflow {
      err := Erange;
      y := lim;
      if lim % 2 == 1 {
        neg := false;
      }
    }
    HalfWay(TwoTo(k));
    if y >= lim {
      if lim % 2 == 0 && !neg {
        return lim - 1, Erange;
      } else if y > lim {
        return lim, Erange;
      }
    }
    Narrowed(0 - y, if signed then k + 1 else k);
    value := if neg then Word(64, 0 - y) else y;
  }

  /** What __intscan promises about its result. */
  ghost predicate Scanned(text: seq<nat>, base: nat, pok: bool, k: nat, signed: bool, value: nat, err: Errno, end: nat) {
    match Parse(text, base)
    case BadBase => value == 0 && err == Einval && end == 0
    case NoNumber => value == 0 && err == Einval && end == 0
    case ZeroX(e) => value == 0 && err == NoError && end == if pok then e else 0
    case Number(neg, b, from) =>
      end == DigitsEnd(text, b, from) && Converted(neg, Value(text, b, from, end), k, signed, value, err)
  }

  /** __intscan.  `end` is how much of the string counts as consumed. */
  method Scan(text: seq<nat>, base0: nat, pok: bool, lim: nat, ghost k: nat, ghost signed: bool)
    returns (value: nat, err: Errno, end: nat)
    requires LimitOk(lim, k, signed)
    ensures Scanned(text, base0, pok, k, signed, value, err, end)
  {
    hide LimitOk, Converted, Value;
    var base := base0;
    if base > 36 || base == 1 {
      return 0, Einval, 0;
    }
    var p := 0;
    while IsSpace(At(text, p))
      invariant p <= |text| && SkipSpace(text, p) == SkipSpace(text, 0)
      decreases |text| - p
    {
      p := p + 1;
    }
    var neg := At(text, p) == '-' as nat;
    if At(text, p) == '+' as nat || At(text, p) == '-' as nat {
      p := p + 1;
    }
    if (base == 0 || base == 16) && At(text, p) == '0' as nat {
      p := p + 1;
      if IsX(At(text, p)) {
        p := p + 1;
        if Val(At(text, p)) >= 16 {
          return 0, NoError, if pok then p - 1 else 0;
        }
        base := 16;
      } else if base == 0 {
        base := 8;
      }
    } else {
      if base == 0 {
        base := 10;
      }
      if Val(At(text, p)) >= base {
        return 0, Einval, 0;
      }
    }
    assert Parse(text, base0) == Number(neg, base, p);
    value, err, end := Accumulate(text, base, p, neg, lim, k, signed);
  }

  method Accumulate(text: seq<nat>, base: nat, from: nat, neg: bool, lim: nat, ghost k: nat, ghost signed: bool)
    returns (value: nat, err: Errno, end: nat)
    requires LimitOk(lim, k, signed) && 2 <= base <= 36
    ensures end == DigitsEnd(text, base, from) && Converted(neg, Value(text, base, from, end), k, signed, value, err)
  {
    hide LimitOk, Converted, Value, Times, BitAnd;
    var y, pos;
    BaseBits(base);
    if base == 10 {
      y, pos := ReadDecimal(text, from);
    } else if BitAnd(base, base - 1) == 0 {
      y, pos := ReadShifted(text, base, from);
    } else {
      y, pos := ReadScaled(text, base, from);
    }
    EndIs(text, base, from, pos);
    var overflow := Val(At(text, pos)) < base;
    end := pos;
    if overflow {
      ValueNext(text, base, from, pos);
      ValueGrows(text, base, from, pos + 1, DigitsEnd(text, base, from));
      while Val(At(text, end)) < base
        invariant pos <= end <= DigitsEnd(text, base, from)
        decreases DigitsEnd(text, base, from) - end
      {
        EndIs(text, base, from, end);
        end := end + 1;
      }
      EndIs(text, base, from, end);
    }
    value, err := Finish(y, neg, overflow, lim, Value(text, base, from, end), k, signed);
  }

  /** base & base - 1 is zero for powers of two only. */
  lemma BaseBits(base: nat)
    requires 2 <= base <= 36
    ensures BitAnd(base, base - 1) == 0 <==> base == 2 || base == 4 || base == 8 || base == 16 || base == 32
  {
    LowZeros(base);
  }

  lemma {:induction false} LowZeros(base: nat)
    requires 1 <= base <= 36
    ensures BitAnd(base, base - 1) == 0 <==> base == 1 || base == 2 || base == 4 || base == 8 || base == 16 || base == 32
    decreases base
  {
    if base > 1 {
      if base % 2 == 0 {
        LowZeros(base / 2);
        assert (base - 1) / 2 == base / 2 - 1;
      } else {
        AndSelf(base / 2);
      }
    }
  }

  lemma {:induction false} AndSelf(p: nat)
    ensures BitAnd(p, p) == p
  {
    if p > 0 {
      AndSelf(p / 2);
    }
  }
}
