/**
 What __intscan reads from a text that is spelled as white space, a sign, a prefix and digits, in the five cases
 that the standard tells apart.
 */
module IntNumerals {
  import opened Words
  import opened IntScan

  // ---- spelling ------------------------------------------------------------------------------------

  /** A digit as it is written. */
  datatype Glyph = Glyph(digit: nat, upper: bool)

  function Code(g: Glyph): nat {
    if g.digit < 10 then '0' as nat + g.digit else (if g.upper then 'A' else 'a') as nat + (g.digit - 10)
  }

  function Codes(ds: seq<Glyph>): (s: seq<nat>)
    ensures |s| == |ds|
  {
    seq(|ds|, i requires 0 <= i < |ds| => Code(ds[i]))
  }

  function NumberOf(ds: seq<Glyph>, b: nat): nat {
    if ds == [] then 0 else NumberOf(ds[..|ds| - 1], b) * b + ds[|ds| - 1].digit
  }

  ghost predicate DigitsOf(ds: seq<Glyph>, b: nat) {
    forall i :: 0 <= i < |ds| ==> ds[i].digit < b
  }

  /** `rest` does not go on with a digit of base `b`. */
  ghost predicate Stops(rest: seq<nat>, b: nat) {
    rest == [] || forall g: Glyph :: g.digit < b ==> Code(g) != rest[0]
  }

  predicate NoX(rest: seq<nat>) {
    rest == [] || rest[0] !in ['x' as nat, 'X' as nat]
  }

  const SPACES: seq<nat> := [' ' as nat, '\t' as nat, '\n' as nat, 11, 12, '\r' as nat]

  const SIGNS: seq<nat> := ['+' as nat, '-' as nat]

  /** White space, a sign or none, and a tail in which the number has to start. */
  ghost predicate Opens(text: seq<nat>, spaces: seq<nat>, sign: seq<nat>, tail: seq<nat>) {
    && text == spaces + sign + tail && (forall i :: 0 <= i < |spaces| ==> spaces[i] in SPACES)
    && |sign| <= 1 && (sign != [] ==> sign[0] in SIGNS)
    && (sign == [] && tail != [] ==> tail[0] !in SPACES && tail[0] !in SIGNS)
  }

  function Minus(): seq<nat> {
    ['-' as nat]
  }

  // ---- reading it ----------------------------------------------------------------------------------

  lemma ValOf(g: Glyph)
    requires g.digit < 36
    ensures Val(Code(g)) == g.digit
  {
  }

  lemma StopsIs(rest: seq<nat>, b: nat)
    requires b <= 36 && Stops(rest, b)
    ensures Val(At(rest, 0)) >= b
  {
    var c := At(rest, 0);
    assert Val(c) < 36 ==> Code(Glyph(Val(c), 'A' as nat <= c <= 'Z' as nat)) == c;
  }

  lemma {:induction false} SpaceSkipped(text: seq<nat>, spaces: seq<nat>, pos: nat)
    requires spaces <= text && pos <= |spaces| && forall i :: 0 <= i < |spaces| ==> spaces[i] in SPACES
    requires !IsSpace(At(text, |spaces|))
    ensures SkipSpace(text, pos) == |spaces|
    decreases |spaces| - pos
  {
    if pos < |spaces| {
      assert text[pos] == spaces[pos];
      SpaceSkipped(text, spaces, pos + 1);
    }
  }

  lemma OpensAt(text: seq<nat>, spaces: seq<nat>, sign: seq<nat>, tail: seq<nat>)
    requires Opens(text, spaces, sign, tail)
    ensures Sign(text, SkipSpace(text, 0)) == (sign == Minus(), |spaces| + |sign|)
    ensures |text| == |spaces| + |sign| + |tail|
  {
    assert At(text, |spaces|) == if sign == [] then At(tail, 0) else sign[0];
    SpaceSkipped(text, spaces, 0);
  }

  /** The characters behind the sign. */
  lemma CharAt(text: seq<nat>, spaces: seq<nat>, sign: seq<nat>, front: seq<nat>, ds: seq<Glyph>, rest: seq<nat>,
               i: nat)
    requires Opens(text, spaces, sign, front + Codes(ds) + rest) && i <= |front| + |ds|
    ensures At(text, |spaces| + |sign| + i) ==
            if i < |front| then front[i] else if i < |front| + |ds| then Code(ds[i - |front|]) else At(rest, 0)
  {
    hide Code;
    var tail := front + Codes(ds) + rest;
    assert At(text, |spaces| + |sign| + i) == At(tail, i);
  }

  /** From `from` on the text has the digits `ds`, and then `next`. */
  ghost predicate Written(text: seq<nat>, from: nat, ds: seq<Glyph>, next: nat) {
    (forall i :: 0 <= i < |ds| ==> At(text, from + i) == Code(ds[i])) && At(text, from + |ds|) == next
  }

  lemma {:induction false} DigitsRead(text: seq<nat>, b: nat, from: nat, ds: seq<Glyph>, next: nat)
    requires b <= 36 && DigitsOf(ds, b) && Written(text, from, ds, next) && Val(next) >= b
    ensures DigitsEnd(text, b, from) == from + |ds|
    decreases |ds|
  {
    if ds != [] {
      ValOf(ds[0]);
      assert At(text, from + 0) == Code(ds[0]);
      forall i | 0 <= i < |ds| - 1
        ensures At(text, from + 1 + i) == Code(ds[1..][i])
      {
        assert At(text, from + (i + 1)) == Code(ds[i + 1]);
      }
      DigitsRead(text, b, from + 1, ds[1..], next);
    }
  }

  lemma {:induction false} ValueRead(text: seq<nat>, b: nat, from: nat, ds: seq<Glyph>)
    requires b <= 36 && DigitsOf(ds, b) && forall i :: 0 <= i < |ds| ==> At(text, from + i) == Code(ds[i])
    ensures Value(text, b, from, from + |ds|) == NumberOf(ds, b)
    decreases |ds|
  {
    if ds != [] {
      var n := |ds| - 1;
      ValueRead(text, b, from, ds[..n]);
      ValOf(ds[n]);
      assert At(text, from + n) == Code(ds[n]);
    }
  }

  lemma {:induction false} LeadingZero(ds: seq<Glyph>, b: nat)
    requires ds != [] && ds[0].digit == 0
    ensures NumberOf(ds[1..], b) == NumberOf(ds, b)
    decreases |ds|
  {
    if |ds| > 1 {
      LeadingZero(ds[..|ds| - 1], b);
      assert ds[1..][..|ds| - 2] == ds[..|ds| - 1][1..];
    }
  }

  /** The number that starts at `from` and is followed by `rest`. */
  lemma NumberRead(text: seq<nat>, b: nat, from: nat, ds: seq<Glyph>, rest: seq<nat>)
    requires b <= 36 && DigitsOf(ds, b) && Stops(rest, b) && Written(text, from, ds, At(rest, 0))
    ensures DigitsEnd(text, b, from) == from + |ds| && Value(text, b, from, from + |ds|) == NumberOf(ds, b)
  {
    hide Val, Code;
    StopsIs(rest, b);
    DigitsRead(text, b, from, ds, At(rest, 0));
    ValueRead(text, b, from, ds);
  }

  /** Digits behind the first characters of the tail. */
  lemma WrittenAt(text: seq<nat>, spaces: seq<nat>, sign: seq<nat>, front: seq<nat>, ds: seq<Glyph>, rest: seq<nat>)
    requires Opens(text, spaces, sign, front + Codes(ds) + rest)
    ensures Written(text, |spaces| + |sign| + |front|, ds, At(rest, 0))
  {
    hide At, Code, Codes, Opens;
    var from := |spaces| + |sign| + |front|;
    forall i | 0 <= i < |ds|
      ensures At(text, from + i) == Code(ds[i])
    {
      CharAt(text, spaces, sign, front, ds, rest, |front| + i);
    }
    CharAt(text, spaces, sign, front, ds, rest, |front| + |ds|);
  }

  lemma FirstDigit(ds: seq<Glyph>, b: nat)
    requires ds != [] && DigitsOf(ds, b) && b <= 36
    ensures Val(Code(ds[0])) == ds[0].digit < b
    ensures (ds[0].digit == 0 <==> Code(ds[0]) == '0' as nat) && (b <= 16 ==> !IsX(Code(ds[0])))
  {
  }

  /** The number found is `n`, negative or not, and `rest` is left. */
  ghost predicate Found(text: seq<nat>, base: nat, neg: bool, n: nat, rest: seq<nat>) {
    var f := Parse(text, base);
    && f.Number? && f.neg == neg && f.from <= DigitsEnd(text, f.base, f.from) == |text| - |rest|
    && Value(text, f.base, f.from, |text| - |rest|) == n
  }

  lemma FoundRead(text: seq<nat>, neg: bool, n: nat, rest: seq<nat>,
                  base: nat, pok: bool, k: nat, signed: bool, value: nat, err: Errno, end: nat)
    requires Found(text, base, neg, n, rest) && Scanned(text, base, pok, k, signed, value, err, end)
    ensures end == |text| - |rest| && Converted(neg, n, k, signed, value, err)
  {
    hide Parse, DigitsEnd, Value, Converted;
  }

  lemma HexFound(text: seq<nat>, spaces: seq<nat>, sign: seq<nat>, x: nat, ds: seq<Glyph>, rest: seq<nat>, base: nat)
    requires Opens(text, spaces, sign, ['0' as nat, x] + Codes(ds) + rest) && x in ['x' as nat, 'X' as nat]
    requires (base == 0 || base == 16) && ds != [] && DigitsOf(ds, 16) && Stops(rest, 16)
    ensures Found(text, base, sign == Minus(), NumberOf(ds, 16), rest)
  {
    hide Value, NumberOf, DigitsEnd, Sign, SkipSpace, Written, DigitsOf, Stops, Opens, At, Val, Code, Codes;
    var front := ['0' as nat, x];
    OpensAt(text, spaces, sign, front + Codes(ds) + rest);
    WrittenAt(text, spaces, sign, front, ds, rest);
    CharAt(text, spaces, sign, front, ds, rest, 0);
    CharAt(text, spaces, sign, front, ds, rest, 1);
    CharAt(text, spaces, sign, front, ds, rest, 2);
    FirstDigit(ds, 16);
    NumberRead(text, 16, |spaces| + |sign| + 2, ds, rest);
  }

  /** A zero that no x follows: octal, unless hexadecimal is asked for. */
  lemma ZeroFound(text: seq<nat>, spaces: seq<nat>, sign: seq<nat>, ds: seq<Glyph>, rest: seq<nat>, b: nat)
    requires Opens(text, spaces, sign, ['0' as nat] + Codes(ds) + rest) && (b == 8 || b == 16)
    requires DigitsOf(ds, b) && Stops(rest, b) && (ds == [] ==> NoX(rest))
    ensures Found(text, if b == 8 then 0 else 16, sign == Minus(), NumberOf(ds, b), rest)
  {
    hide Value, NumberOf, DigitsEnd, Sign, SkipSpace, Written, DigitsOf, Stops, Opens, Val, Code, Codes;
    var front := ['0' as nat];
    OpensAt(text, spaces, sign, front + Codes(ds) + rest);
    WrittenAt(text, spaces, sign, front, ds, rest);
    CharAt(text, spaces, sign, front, ds, rest, 0);
    CharAt(text, spaces, sign, front, ds, rest, 1);
    if ds != [] {
      FirstDigit(ds, b);
    }
    NumberRead(text, b, |spaces| + |sign| + 1, ds, rest);
  }

  lemma PlainFound(text: seq<nat>, spaces: seq<nat>, sign: seq<nat>, ds: seq<Glyph>, rest: seq<nat>, base: nat, b: nat)
    requires Opens(text, spaces, sign, [] + Codes(ds) + rest)
    requires base != 1 && b == (if base == 0 then 10 else base) <= 36 && ds != [] && DigitsOf(ds, b) && Stops(rest, b)
    requires base == 0 || base == 16 ==> ds[0].digit != 0
    ensures Found(text, base, sign == Minus(), NumberOf(ds, b), rest)
  {
    hide Value, NumberOf, DigitsEnd, Sign, SkipSpace, Written, DigitsOf, Stops, Opens, At, Val, Code, Codes;
    OpensAt(text, spaces, sign, [] + Codes(ds) + rest);
    WrittenAt(text, spaces, sign, [], ds, rest);
    CharAt(text, spaces, sign, [], ds, rest, 0);
    FirstDigit(ds, b);
    NumberRead(text, b, |spaces| + |sign|, ds, rest);
  }

  lemma DropZero(ds: seq<Glyph>, rest: seq<nat>)
    requires ds != [] && DigitsOf(ds, 16) && ds[0].digit == 0
    ensures DigitsOf(ds[1..], 16) && ['0' as nat] + Codes(ds[1..]) + rest == Codes(ds) + rest
  {
  }

  // ---- the five cases --------------------------------------------------------------------------------

  /** 0x and digits, where hexadecimal is asked for or nothing is. */
  lemma HexRead(text: seq<nat>, spaces: seq<nat>, sign: seq<nat>, x: nat, ds: seq<Glyph>, rest: seq<nat>,
                base: nat, pok: bool, k: nat, signed: bool, value: nat, err: Errno, end: nat)
    requires Opens(text, spaces, sign, ['0' as nat, x] + Codes(ds) + rest) && x in ['x' as nat, 'X' as nat]
    requires (base == 0 || base == 16) && ds != [] && DigitsOf(ds, 16) && Stops(rest, 16)
    requires Scanned(text, base, pok, k, signed, value, err, end)
    ensures end == |text| - |rest| && Converted(sign == Minus(), NumberOf(ds, 16), k, signed, value, err)
  {
    hide *;
    HexFound(text, spaces, sign, x, ds, rest, base);
    FoundRead(text, sign == Minus(), NumberOf(ds, 16), rest, base, pok, k, signed, value, err, end);
  }

  /** A zero and digits, perhaps none, where no base is asked for: octal. */
  lemma OctalRead(text: seq<nat>, spaces: seq<nat>, sign: seq<nat>, ds: seq<Glyph>, rest: seq<nat>,
                  pok: bool, k: nat, signed: bool, value: nat, err: Errno, end: nat)
    requires Opens(text, spaces, sign, ['0' as nat] + Codes(ds) + rest)
    requires DigitsOf(ds, 8) && Stops(rest, 8) && (ds == [] ==> NoX(rest))
    requires Scanned(text, 0, pok, k, signed, value, err, end)
    ensures end == |text| - |rest| && Converted(sign == Minus(), NumberOf(ds, 8), k, signed, value, err)
  {
    hide *;
    ZeroFound(text, spaces, sign, ds, rest, 8);
    FoundRead(text, sign == Minus(), NumberOf(ds, 8), rest, 0, pok, k, signed, value, err, end);
  }

  /** Digits alone: in the base asked for, or decimal.  Hexadecimal digits may begin with a zero, which the code takes
      for half a prefix. */
  lemma PlainRead(text: seq<nat>, spaces: seq<nat>, sign: seq<nat>, ds: seq<Glyph>, rest: seq<nat>,
                  base: nat, b: nat, pok: bool, k: nat, signed: bool, value: nat, err: Errno, end: nat)
    requires Opens(text, spaces, sign, Codes(ds) + rest)
    requires base != 1 && b == (if base == 0 then 10 else base) <= 36
    requires ds != [] && DigitsOf(ds, b) && Stops(rest, b) && (base == 0 ==> ds[0].digit != 0)
    requires base == 16 && |ds| == 1 && ds[0].digit == 0 ==> NoX(rest)
    requires Scanned(text, base, pok, k, signed, value, err, end)
    ensures end == |text| - |rest| && Converted(sign == Minus(), NumberOf(ds, b), k, signed, value, err)
  {
    hide *;
    if base == 16 && ds[0].digit == 0 {
      DropZero(ds, rest);
      ZeroFound(text, spaces, sign, ds[1..], rest, 16);
      LeadingZero(ds, 16);
    } else {
      assert [] + Codes(ds) + rest == Codes(ds) + rest;
      PlainFound(text, spaces, sign, ds, rest, base, b);
    }
    FoundRead(text, sign == Minus(), NumberOf(ds, b), rest, base, pok, k, signed, value, err, end);
  }

  /** No digit of the base, or no such base: an error, and nothing is taken. */
  lemma NothingRead(text: seq<nat>, spaces: seq<nat>, sign: seq<nat>, tail: seq<nat>,
                    base: nat, pok: bool, k: nat, signed: bool, value: nat, err: Errno, end: nat)
    requires Opens(text, spaces, sign, tail)
    requires base == 1 || base > 36 || Stops(tail, if base == 0 then 10 else base)
    requires Scanned(text, base, pok, k, signed, value, err, end)
    ensures value == 0 && err == Einval && end == 0
  {
    hide Converted, Value, Sign, SkipSpace, Stops, Opens, At, Val;
    if base != 1 && base <= 36 {
      OpensAt(text, spaces, sign, tail);
      assert [] + Codes([]) + tail == tail;
      CharAt(text, spaces, sign, [], [], tail, 0);
      StopsIs(tail, if base == 0 then 10 else base);
      NotZero(At(tail, 0));
    }
  }

  lemma NotZero(c: nat)
    ensures Val(c) > 0 ==> c != '0' as nat
  {
  }

  /** 0x and no hexadecimal digit: zero, and the x is not taken. */
  lemma ZeroRead(text: seq<nat>, spaces: seq<nat>, sign: seq<nat>, x: nat, rest: seq<nat>,
                 base: nat, pok: bool, k: nat, signed: bool, value: nat, err: Errno, end: nat)
    requires Opens(text, spaces, sign, ['0' as nat, x] + rest) && x in ['x' as nat, 'X' as nat]
    requires (base == 0 || base == 16) && Stops(rest, 16)
    requires Scanned(text, base, pok, k, signed, value, err, end)
    ensures value == 0 && err == NoError && end == if pok then |spaces| + |sign| + 1 else 0
  {
    hide Converted, Value, Sign, SkipSpace, Stops, Opens, At, Val;
    var front := ['0' as nat, x];
    assert front + Codes([]) + rest == front + rest;
    OpensAt(text, spaces, sign, front + rest);
    CharAt(text, spaces, sign, front, [], rest, 0);
    CharAt(text, spaces, sign, front, [], rest, 1);
    CharAt(text, spaces, sign, front, [], rest, 2);
    StopsIs(rest, 16);
  }
}
