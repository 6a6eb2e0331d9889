/**
 The initial and final permutations of DES as crypt and encrypt drive them: through
 tables of masks indexed by nibbles.  They are each other's inverse.
 */
module DesTables {
  import opened Words

  // ---- mask tables -------------------------------------------------------------------------------

  /** A row of sixteen masks, one for each value of a nibble: the mask for a value is the or of the masks for
      its bits, and those have a single bit (given by its number) or none (-1). */
  datatype Row = Row(m1: int, m2: int, m4: int, m8: int) {

    function At(n: nat): nat {
      BitOr(BitOr(Pick(n, 0, m1), Pick(n, 1, m2)), BitOr(Pick(n, 2, m4), Pick(n, 3, m8)))
    }

    predicate Ok() {
      m1 < 32 && m2 < 32 && m4 < 32 && m8 < 32
    }
  }

  function Pick(n: nat, k: nat, mask: int): nat {
    if mask >= 0 && Bit(n, k) then TwoTo(mask) else 0
  }

  function IpMaskL(): (t: seq<Row>)
    ensures |t| == 16
  {
    [
    Row(16, -1, 24, -1), Row(0, -1, 8, -1), Row(17, -1, 25, -1), Row(1, -1, 9, -1),
    Row(18, -1, 26, -1), Row(2, -1, 10, -1), Row(19, -1, 27, -1), Row(3, -1, 11, -1),
    Row(20, -1, 28, -1), Row(4, -1, 12, -1), Row(21, -1, 29, -1), Row(5, -1, 13, -1),
    Row(22, -1, 30, -1), Row(6, -1, 14, -1), Row(23, -1, 31, -1), Row(7, -1, 15, -1)]
  }

  function IpMaskR(): (t: seq<Row>)
    ensures |t| == 16
  {
    [
    Row(-1, 16, -1, 24), Row(-1, 0, -1, 8), Row(-1, 17, -1, 25), Row(-1, 1, -1, 9),
    Row(-1, 18, -1, 26), Row(-1, 2, -1, 10), Row(-1, 19, -1, 27), Row(-1, 3, -1, 11),
    Row(-1, 20, -1, 28), Row(-1, 4, -1, 12), Row(-1, 21, -1, 29), Row(-1, 5, -1, 13),
    Row(-1, 22, -1, 30), Row(-1, 6, -1, 14), Row(-1, 23, -1, 31), Row(-1, 7, -1, 15)]
  }

  function FpMaskL(): (t: seq<Row>)
    ensures |t| == 8
  {
    [
    Row(30, 22, 14, 6), Row(28, 20, 12, 4), Row(26, 18, 10, 2), Row(24, 16, 8, 0),
    Row(31, 23, 15, 7), Row(29, 21, 13, 5), Row(27, 19, 11, 3), Row(25, 17, 9, 1)]
  }

  function FpMaskR(): (t: seq<Row>)
    ensures |t| == 8
  {
    [
    Row(30, 22, 14, 6), Row(28, 20, 12, 4), Row(26, 18, 10, 2), Row(24, 16, 8, 0),
    Row(31, 23, 15, 7), Row(29, 21, 13, 5), Row(27, 19, 11, 3), Row(25, 17, 9, 1)]
  }

  function Nibble(w: nat, sh: nat): nat {
    BitAnd(Shr(w, sh), 0xf)
  }

  /** The or of the masks for the first `n` nibbles of both halves, taken at `shifts`; the second half of the
      table is for `r`. */
  function Gather(table: seq<Row>, shifts: seq<nat>, l: nat, r: nat, n: nat): nat
    requires n <= |shifts| && |table| == 2 * |shifts|
  {
    if n == 0 then 0
    else
      var i := n - 1;
      BitOr(Gather(table, shifts, l, r, i),
            BitOr(table[i].At(Nibble(l, shifts[i])), table[i + |shifts|].At(Nibble(r, shifts[i]))))
  }

  function IpShifts(): (t: seq<nat>)
    ensures |t| == 8
  {
    [28, 24, 20, 16, 12, 8, 4, 0]
  }
  function FpShiftsR(): (t: seq<nat>)
    ensures |t| == 4
  {
    [28, 20, 12, 4]
  }
  function FpShiftsL(): (t: seq<nat>)
    ensures |t| == 4
  {
    [24, 16, 8, 0]
  }

  function Ip(l: nat, r: nat): (nat, nat) {
    (Gather(IpMaskL(), IpShifts(), l, r, 8), Gather(IpMaskR(), IpShifts(), l, r, 8))
  }

  function Fp(l: nat, r: nat): (nat, nat) {
    (Gather(FpMaskL(), FpShiftsL(), l, r, 4), Gather(FpMaskR(), FpShiftsR(), l, r, 4))
  }

  // ---- the permutations bit by bit -----------------------------------------------------------------

  ghost predicate RowBit(row: Row, w: nat, sh: nat, k: nat) {
    || (row.m1 == k && Bit(w, sh)) || (row.m2 == k && Bit(w, sh + 1))
    || (row.m4 == k && Bit(w, sh + 2)) || (row.m8 == k && Bit(w, sh + 3))
  }

  lemma NibbleBit(w: nat, sh: nat, b: nat)
    requires b < 4
    ensures Bit(Nibble(w, sh), b) <==> Bit(w, sh + b)
  {
    hide Bit, BitAnd, Shr, Rem;
    assert TwoTo(4) == 16;
    MaskLow(Shr(w, sh), 4);
    BitOfRem(Shr(w, sh), 4, b);
    BitOfShift(w, sh, b);
  }

  lemma PickBit(n: nat, b: nat, mask: int, k: nat)
    ensures Bit(Pick(n, b, mask), k) <==> mask == k && Bit(n, b)
  {
    hide Bit, TwoTo;
    if mask >= 0 {
      BitOfPower(mask, k);
    }
    BitOfPower(0, k);
  }

  lemma RowAt(row: Row, w: nat, sh: nat, k: nat)
    ensures Bit(row.At(Nibble(w, sh)), k) <==> RowBit(row, w, sh, k)
  {
    hide Bit, Pick, Nibble, BitOr;
    var n := Nibble(w, sh);
    NibbleBit(w, sh, 0);
    NibbleBit(w, sh, 1);
    NibbleBit(w, sh, 2);
    NibbleBit(w, sh, 3);
    PickBit(n, 0, row.m1, k);
    PickBit(n, 1, row.m2, k);
    PickBit(n, 2, row.m4, k);
    PickBit(n, 3, row.m8, k);
    var low, high := BitOr(Pick(n, 0, row.m1), Pick(n, 1, row.m2)), BitOr(Pick(n, 2, row.m4), Pick(n, 3, row.m8));
    BitOfOr(Pick(n, 0, row.m1), Pick(n, 1, row.m2), k);
    BitOfOr(Pick(n, 2, row.m4), Pick(n, 3, row.m8), k);
    BitOfOr(low, high, k);
  }

  lemma GatherBit(table: seq<Row>, shifts: seq<nat>, l: nat, r: nat, n: nat, k: nat)
    requires 0 < n <= |shifts| && |table| == 2 * |shifts|
    ensures Bit(Gather(table, shifts, l, r, n), k) <==>
            || Bit(Gather(table, shifts, l, r, n - 1), k)
            || RowBit(table[n - 1], l, shifts[n - 1], k) || RowBit(table[n - 1 + |shifts|], r, shifts[n - 1], k)
  {
    hide Bit, Nibble, BitOr, RowBit;
    var i := n - 1;
    var before := Gather(table, shifts, l, r, i);
    var p, q := table[i].At(Nibble(l, shifts[i])), table[i + |shifts|].At(Nibble(r, shifts[i]));
    assert Gather(table, shifts, l, r, n) == BitOr(before, BitOr(p, q));
    RowAt(table[i], l, shifts[i], k);
    RowAt(table[i + |shifts|], r, shifts[i], k);
    BitOfOr(p, q, k);
    BitOfOr(before, BitOr(p, q), k);
  }

  ghost predicate Hit(table: seq<Row>, shifts: seq<nat>, l: nat, r: nat, i: nat, k: nat)
    requires i < |shifts| && |table| == 2 * |shifts|
  {
    RowBit(table[i], l, shifts[i], k) || RowBit(table[i + |shifts|], r, shifts[i], k)
  }

  lemma {:induction false} GatherSome(table: seq<Row>, shifts: seq<nat>, l: nat, r: nat, n: nat, k: nat)
    requires n <= |shifts| && |table| == 2 * |shifts|
    ensures Bit(Gather(table, shifts, l, r, n), k) <==>
            exists i :: 0 <= i < n && Hit(table, shifts, l, r, i, k)
  {
    hide Bit, RowBit, Gather;
    if n == 0 {
      GatherNone(table, shifts, l, r, k);
    } else {
      GatherBit(table, shifts, l, r, n, k);
      GatherSome(table, shifts, l, r, n - 1, k);
      assert Hit(table, shifts, l, r, n - 1, k) <==>
             RowBit(table[n - 1], l, shifts[n - 1], k) || RowBit(table[n - 1 + |shifts|], r, shifts[n - 1], k);
    }
  }

  lemma GatherNone(table: seq<Row>, shifts: seq<nat>, l: nat, r: nat, k: nat)
    requires |table| == 2 * |shifts|
    ensures !Bit(Gather(table, shifts, l, r, 0), k)
  {
    BitOfPower(0, k);
  }

  /** Row `i` of the initial permutation sends bits 0 and 2 of a nibble to places P and P + 8 of the left half,
      bits 1 and 3 to the same places of the right half. */
  function IpPlace(i: nat): nat {
    16 * (1 - i % 2) + i / 2
  }

  function IpRow(place: nat, right: bool): Row {
    if right then Row(-1, place, -1, place + 8) else Row(place, -1, place + 8, -1)
  }

  ghost predicate IpTable(table: seq<Row>, shifts: seq<nat>, right: bool) {
    && |table| == 16 && |shifts| == 8
    && forall i :: 0 <= i < 8 ==>
         shifts[i] == 28 - 4 * i && table[i] == IpRow(IpPlace(i), right) && table[i + 8] == IpRow(IpPlace(i) + 4, right)
  }

  /** Where bit k = 16e + 8c + 4s + j comes from: nibble 2j + 1 - e of half s, bit 2c of it. */
  lemma IpPlaceIs(i: nat, k: nat)
    requires i < 8 && k < 32
    ensures var e, c, s, j := k / 16, k / 8 % 2, k / 4 % 2, k % 4;
            && 0 <= 2 * j + 1 - e < 8 && 28 - 4 * (2 * j + 1 - e) == 24 - 8 * j + 4 * e
            && (IpPlace(i) == k <==> i == 2 * j + 1 - e && s == 0 && c == 0)
            && (IpPlace(i) + 8 == k <==> i == 2 * j + 1 - e && s == 0 && c == 1)
            && (IpPlace(i) + 4 == k <==> i == 2 * j + 1 - e && s == 1 && c == 0)
            && (IpPlace(i) + 12 == k <==> i == 2 * j + 1 - e && s == 1 && c == 1)
  {
    SumsAlike(i / 2, i % 2, k / 16, k / 8 % 2, k / 4 % 2, k % 4);
  }

  lemma SumsAlike(a: nat, b: nat, e: nat, c: nat, s: nat, j: nat)
    requires a < 4 && b < 2 && e < 2 && c < 2 && s < 2 && j < 4
    ensures var p, k := 16 * (1 - b) + a, 16 * e + 8 * c + 4 * s + j;
            && (p == k <==> a == j && b == 1 - e && s == 0 && c == 0)
            && (p + 8 == k <==> a == j && b == 1 - e && s == 0 && c == 1)
            && (p + 4 == k <==> a == j && b == 1 - e && s == 1 && c == 0)
            && (p + 12 == k <==> a == j && b == 1 - e && s == 1 && c == 1)
  {
  }

  lemma IpBit(table: seq<Row>, shifts: seq<nat>, right: bool, l: nat, r: nat, k: nat)
    requires IpTable(table, shifts, right) && k < 32
    ensures var e, c, s, j := k / 16, k / 8 % 2, k / 4 % 2, k % 4;
            var from, at := if s == 0 then l else r, 24 - 8 * j + 4 * e + 2 * c + (if right then 1 else 0);
            at >= 0 && (Bit(Gather(table, shifts, l, r, 8), k) <==> Bit(from, at))
  {
    hide Bit, Gather, IpPlace, Hit;
    GatherSome(table, shifts, l, r, 8, k);
    var e, c, s, j := k / 16, k / 8 % 2, k / 4 % 2, k % 4;
    var n := 2 * j + 1 - e;
    IpPlaceIs(0, k);
    var from, at := if s == 0 then l else r, 28 - 4 * n + 2 * c + (if right then 1 else 0);
    forall i | 0 <= i < 8
      ensures Hit(table, shifts, l, r, i, k) <==> i == n && Bit(from, at)
    {
      IpHit(table, shifts, right, l, r, i, k);
    }
    assert Hit(table, shifts, l, r, n, k) <==> Bit(from, at);
  }

  lemma IpHit(table: seq<Row>, shifts: seq<nat>, right: bool, l: nat, r: nat, i: nat, k: nat)
    requires IpTable(table, shifts, right) && k < 32 && i < 8
    ensures var e, c, s, j := k / 16, k / 8 % 2, k / 4 % 2, k % 4;
            var from, at := if s == 0 then l else r, 24 - 8 * j + 4 * e + 2 * c + (if right then 1 else 0);
            at >= 0 && (Hit(table, shifts, l, r, i, k) <==> i == 2 * j + 1 - e && Bit(from, at))
  {
    hide Bit, IpPlace;
    IpPlaceIs(i, k);
  }

  lemma IpLeft()
    ensures IpTable(IpMaskL(), IpShifts(), false)
  {
    assert IpPlace(0) == 16 && IpPlace(1) == 0 && IpPlace(2) == 17 && IpPlace(3) == 1;
    assert IpPlace(4) == 18 && IpPlace(5) == 2 && IpPlace(6) == 19 && IpPlace(7) == 3;
    hide IpPlace;
  }

  lemma IpRight()
    ensures IpTable(IpMaskR(), IpShifts(), true)
  {
    assert IpPlace(0) == 16 && IpPlace(1) == 0 && IpPlace(2) == 17 && IpPlace(3) == 1;
    assert IpPlace(4) == 18 && IpPlace(5) == 2 && IpPlace(6) == 19 && IpPlace(7) == 3;
    hide IpPlace;
  }

  /** Row `i` of the final permutation sends bit b of a nibble to place 30 - 2i - 8b, or the one above it for
      the right half. */
  ghost predicate FpTable(table: seq<Row>, shifts: seq<nat>, first: nat) {
    && |table| == 8 && |shifts| == 4
    && forall i :: 0 <= i < 4 ==>
         && shifts[i] == first - 8 * i
         && table[i] == FpRow(30 - 2 * i) && table[i + 4] == FpRow(31 - 2 * i)
  }

  function FpRow(top: int): Row {
    Row(top, top - 8, top - 16, top - 24)
  }

  lemma FpTables()
    ensures FpTable(FpMaskL(), FpShiftsL(), 24) && FpTable(FpMaskR(), FpShiftsR(), 28)
  {
  }

  lemma FpBit(table: seq<Row>, shifts: seq<nat>, first: nat, l: nat, r: nat, m: nat)
    requires FpTable(table, shifts, first) && m < 32 && first >= 24
    ensures var s, i, b := m % 2, 3 - m / 2 % 4, 3 - m / 8;
            var from, at := if s == 0 then l else r, first - 8 * i + b;
            at >= 0 && (Bit(Gather(table, shifts, l, r, 4), m) <==> Bit(from, at))
  {
    hide Bit, Gather, Hit;
    GatherSome(table, shifts, l, r, 4, m);
    var s, n, b := m % 2, 3 - m / 2 % 4, 3 - m / 8;
    var from, at := if s == 0 then l else r, first - 8 * n + b;
    forall i | 0 <= i < 4
      ensures Hit(table, shifts, l, r, i, m) <==> i == n && Bit(from, at)
    {
      FpHit(table, shifts, first, l, r, i, m);
    }
    assert Hit(table, shifts, l, r, n, m) <==> Bit(from, at);
  }

  lemma FpHit(table: seq<Row>, shifts: seq<nat>, first: nat, l: nat, r: nat, i: nat, m: nat)
    requires FpTable(table, shifts, first) && m < 32 && first >= 24 && i < 4
    ensures var s, n, b := m % 2, 3 - m / 2 % 4, 3 - m / 8;
            var from, at := if s == 0 then l else r, first - 8 * n + b;
            at >= 0 && (Hit(table, shifts, l, r, i, m) <==> i == n && Bit(from, at))
  {
    hide Bit;
    var b := 3 - m / 8;
    assert m == 8 * (m / 8) + 2 * (m / 2 % 4) + m % 2;
  }

  lemma {:induction false} GatherSmall(table: seq<Row>, shifts: seq<nat>, l: nat, r: nat, n: nat)
    requires n <= |shifts| && |table| == 2 * |shifts| && forall i :: 0 <= i < |table| ==> table[i].Ok()
    ensures Gather(table, shifts, l, r, n) < TwoTo(32)
  {
    hide Bit, TwoTo, Nibble, BitOr;
    if n > 0 {
      var i := n - 1;
      GatherSmall(table, shifts, l, r, i);
      RowSmall(table[i], Nibble(l, shifts[i]));
      RowSmall(table[i + |shifts|], Nibble(r, shifts[i]));
      var p, q := table[i].At(Nibble(l, shifts[i])), table[i + |shifts|].At(Nibble(r, shifts[i]));
      BitOrBound(p, q, 32);
      BitOrBound(Gather(table, shifts, l, r, i), BitOr(p, q), 32);
    }
  }

  lemma RowSmall(row: Row, n: nat)
    requires row.Ok()
    ensures row.At(n) < TwoTo(32)
  {
    hide Bit, TwoTo, BitOr, Pick;
    PickSmall(n, 0, row.m1);
    PickSmall(n, 1, row.m2);
    PickSmall(n, 2, row.m4);
    PickSmall(n, 3, row.m8);
    BitOrBound(Pick(n, 0, row.m1), Pick(n, 1, row.m2), 32);
    BitOrBound(Pick(n, 2, row.m4), Pick(n, 3, row.m8), 32);
    BitOrBound(BitOr(Pick(n, 0, row.m1), Pick(n, 1, row.m2)), BitOr(Pick(n, 2, row.m4), Pick(n, 3, row.m8)), 32);
  }

  lemma PickSmall(n: nat, k: nat, mask: int)
    requires mask < 32
    ensures Pick(n, k, mask) < TwoTo(32)
  {
    if mask >= 0 {
      TwoToMonotone(mask, 31);
    }
  }

  lemma PermutedSmall(l: nat, r: nat)
    ensures Ip(l, r).0 < TwoTo(32) && Ip(l, r).1 < TwoTo(32) && Fp(l, r).0 < TwoTo(32) && Fp(l, r).1 < TwoTo(32)
  {
    hide Gather, TwoTo;
    GatherSmall(IpMaskL(), IpShifts(), l, r, 8);
    GatherSmall(IpMaskR(), IpShifts(), l, r, 8);
    GatherSmall(FpMaskL(), FpShiftsL(), l, r, 4);
    GatherSmall(FpMaskR(), FpShiftsR(), l, r, 4);
  }

  /** Bit k of the left half after the initial permutation comes from bit IpAt(k) of half IpHalf(k); the right
      half's from the bit above. */
  function IpAt(k: nat): int {
    24 - 8 * (k % 4) + 4 * (k / 16) + 2 * (k / 8 % 2)
  }

  function IpHalf(k: nat): nat {
    k / 4 % 2
  }

  /** Bit k of the left half after the final permutation comes from bit FpAt(k) of half FpHalf(k); the right
      half's from four bits above. */
  function FpAt(k: nat): int {
    24 - 8 * (3 - k / 2 % 4) + (3 - k / 8)
  }

  function FpHalf(k: nat): nat {
    k % 2
  }

  lemma IpOf(p: nat, s: nat, j: nat)
    requires p < 4 && s < 2 && j < 4
    ensures IpAt(8 * p + 4 * s + j) == 8 * (3 - j) + 2 * p && IpHalf(8 * p + 4 * s + j) == s
  {
    var k := 8 * p + 4 * s + j;
    assert k % 4 == j && k / 4 == 2 * p + s && k / 8 == p && k / 16 == p / 2;
  }

  lemma FpOf(q: nat, i: nat, s: nat)
    requires q < 4 && i < 4 && s < 2
    ensures FpAt(8 * q + 2 * i + s) == 8 * i + (3 - q) && FpHalf(8 * q + 2 * i + s) == s
  {
    var k := 8 * q + 2 * i + s;
    assert k / 2 == 4 * q + i && k / 8 == q;
  }

  lemma FpThenIp(k: nat)
    requires k < 32
    ensures var a := FpAt(k);
            0 <= a && a + 4 < 32 && IpHalf(a) == 0 && IpHalf(a + 4) == 1 && IpAt(a) == IpAt(a + 4) == k - FpHalf(k)
  {
    var q, i, s := k / 8, k / 2 % 4, k % 2;
    assert k == 8 * q + 2 * i + s;
    hide IpAt, IpHalf, FpAt, FpHalf;
    FpOf(q, i, s);
    IpOf(i, 0, 3 - q);
    IpOf(i, 1, 3 - q);
  }

  lemma IpThenFp(k: nat)
    requires k < 32
    ensures var a := IpAt(k);
            && 0 <= a && a + 1 < 32 && FpHalf(a) == 0 && FpHalf(a + 1) == 1
            && FpAt(a) == FpAt(a + 1) == k - 4 * IpHalf(k)
  {
    var p, s, j := k / 8, k / 4 % 2, k % 4;
    assert k == 8 * p + 4 * s + j;
    hide IpAt, IpHalf, FpAt, FpHalf;
    IpOf(p, s, j);
    FpOf(3 - j, p, 0);
    FpOf(3 - j, p, 1);
  }

  /** The permutations, with the tables out of sight. */
  lemma IpBits(l: nat, r: nat, k: nat)
    requires k < 32 && IpAt(k) >= 0
    ensures var from := if IpHalf(k) == 0 then l else r;
            (Bit(Ip(l, r).0, k) <==> Bit(from, IpAt(k))) && (Bit(Ip(l, r).1, k) <==> Bit(from, IpAt(k) + 1))
  {
    hide Bit, Gather, IpTable;
    IpLeft();
    IpRight();
    IpBit(IpMaskL(), IpShifts(), false, l, r, k);
    IpBit(IpMaskR(), IpShifts(), true, l, r, k);
  }

  lemma FpBits(l: nat, r: nat, k: nat)
    requires k < 32 && FpAt(k) >= 0
    ensures var from := if FpHalf(k) == 0 then l else r;
            (Bit(Fp(l, r).0, k) <==> Bit(from, FpAt(k))) && (Bit(Fp(l, r).1, k) <==> Bit(from, FpAt(k) + 4))
  {
    hide Bit, Gather, FpTable;
    FpTables();
    FpBit(FpMaskL(), FpShiftsL(), 24, l, r, k);
    FpBit(FpMaskR(), FpShiftsR(), 28, l, r, k);
  }

  /** Input bit m of a block, counted from 1 and from the left. */
  predicate BlockBit(l: nat, r: nat, m: nat)
    requires 1 <= m <= 64
  {
    if m <= 32 then Bit(l, 32 - m) else Bit(r, 64 - m)
  }

  /** The standard's table IP: the input bit that becomes bit n + 1 of the permuted block. */
  function IpTableAt(n: nat): (m: nat)
    requires n < 64
    ensures 1 <= m <= 64
  {
    (if n < 32 then 58 else 57) + 2 * (n % 32 / 8) - 8 * (n % 8)
  }

  lemma IpTablePlace(n: nat)
    requires n < 64
    ensures var k, m := 31 - n % 32, IpTableAt(n);
            var at := IpAt(k) + (if n < 32 then 0 else 1);
            1 <= m <= 64 && IpAt(k) >= 0 && (if IpHalf(k) == 0 then m <= 32 && at == 32 - m else m > 32 && at == 64 - m)
  {
    var p, c := 3 - n % 32 / 8, 7 - n % 8;
    assert n % 8 == n % 32 % 8;
    assert 31 - n % 32 == 8 * p + 4 * (c / 4) + c % 4;
    hide IpAt, IpHalf;
    IpOf(p, c / 4, c % 4);
  }

  /** The initial permutation is the standard's. */
  lemma IpIsStandard(l: nat, r: nat, n: nat)
    requires n < 64
    ensures 1 <= IpTableAt(n) <= 64
    ensures Bit(if n < 32 then Ip(l, r).0 else Ip(l, r).1, 31 - n % 32) <==> BlockBit(l, r, IpTableAt(n))
  {
    hide Bit, Ip, IpAt, IpHalf, IpTableAt;
    IpTablePlace(n);
    IpBits(l, r, 31 - n % 32);
  }

  lemma FpAfterIp(l: nat, r: nat)
    requires l < TwoTo(32) && r < TwoTo(32)
    ensures var p := Ip(l, r); Fp(p.0, p.1) == (l, r)
  {
    hide Bit, TwoTo, Ip, Fp, IpAt, FpAt, IpHalf;
    var p := Ip(l, r);
    var q := Fp(p.0, p.1);
    PermutedSmall(p.0, p.1);
    forall k | 0 <= k < 32
      ensures (Bit(q.0, k) <==> Bit(l, k)) && (Bit(q.1, k) <==> Bit(r, k))
    {
      FpThenIp(k);
      FpBits(p.0, p.1, k);
      IpBits(l, r, FpAt(k));
      IpBits(l, r, FpAt(k) + 4);
    }
    SameBits(q.0, l, 32);
    SameBits(q.1, r, 32);
  }

  lemma IpAfterFp(l: nat, r: nat)
    requires l < TwoTo(32) && r < TwoTo(32)
    ensures var p := Fp(l, r); Ip(p.0, p.1) == (l, r)
  {
    hide Bit, TwoTo, Ip, Fp, IpAt, FpAt, FpHalf;
    var p := Fp(l, r);
    var q := Ip(p.0, p.1);
    PermutedSmall(p.0, p.1);
    forall k | 0 <= k < 32
      ensures (Bit(q.0, k) <==> Bit(l, k)) && (Bit(q.1, k) <==> Bit(r, k))
    {
      IpThenFp(k);
      IpBits(p.0, p.1, k);
      FpBits(l, r, IpAt(k));
      FpBits(l, r, IpAt(k) + 1);
    }
    SameBits(q.0, l, 32);
    SameBits(q.1, r, 32);
  }
}
