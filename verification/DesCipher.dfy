/**
 The Feistel network of __do_des, and encrypt's 64-entry block on top of it.
 */
module DesCipher {
  import opened Words
  import opened DesTables

  /** Left and right 24 bits of one round key. */
  type RoundKey = (nat, nat)

  predicate KeyOk(k: RoundKey) {
    k.0 < TwoTo(24) && k.1 < TwoTo(24)
  }

  predicate KeysOk(ks: seq<RoundKey>) {
    forall i :: 0 <= i < |ks| ==> KeyOk(ks[i])
  }

  /** The eight S-boxes with the P permutation applied, whatever they hold. */
  type Boxes = seq<seq<nat>>

  predicate BoxesOk(psbox: Boxes) {
    |psbox| == 8 && forall i :: 0 <= i < 8 ==> |psbox[i]| == 64 && forall j :: 0 <= j < 64 ==> psbox[i][j] < TwoTo(32)
  }

  // ---- one round ---------------------------------------------------------------------------------

  function Or5(a: nat, b: nat, c: nat, d: nat, e: nat): nat {
    BitOr(BitOr(BitOr(BitOr(a, b), c), d), e)
  }

  /** The E expansion of `r`, in two 24-bit halves. */
  function ExpandL(r: nat): nat {
    Or5(BitAnd(r, 0x00000001) * 0x800000, BitAnd(r, 0xf8000000) / 0x200, BitAnd(r, 0x1f800000) / 0x800,
        BitAnd(r, 0x01f80000) / 0x2000, BitAnd(r, 0x001f8000) / 0x8000)
  }

  function ExpandR(r: nat): nat {
    Or5(BitAnd(r, 0x0001f800) * 0x80, BitAnd(r, 0x00001f80) * 0x20, BitAnd(r, 0x000001f8) * 8,
        BitAnd(r, 0x0000001f) * 2, BitAnd(r, 0x80000000) / 0x80000000)
  }

  lemma Or5Small(a: nat, b: nat, c: nat, d: nat, e: nat)
    requires a < TwoTo(24) && b < TwoTo(24) && c < TwoTo(24) && d < TwoTo(24) && e < TwoTo(24)
    ensures Or5(a, b, c, d, e) < TwoTo(24)
  {
    hide TwoTo, BitOr;
    BitOrBound(a, b, 24);
    BitOrBound(BitOr(a, b), c, 24);
    BitOrBound(BitOr(BitOr(a, b), c), d, 24);
    BitOrBound(BitOr(BitOr(BitOr(a, b), c), d), e, 24);
  }

  lemma Powers()
    ensures TwoTo(24) == 0x1000000 && TwoTo(32) == 0x1_0000_0000 && TwoTo(6) == 64 && TwoTo(12) == 4096 && TwoTo(18) == 0x40000
  {
    assert TwoTo(6) == 64;
    TwoToAdd(6, 6);
    TwoToAdd(12, 6);
    TwoToAdd(12, 12);
    TwoTo64();
  }

  lemma ExpandSmall(r: nat)
    ensures ExpandL(r) < TwoTo(24) && ExpandR(r) < TwoTo(24)
  {
    hide BitAnd, Or5, TwoTo;
    Powers();
    Or5Small(BitAnd(r, 0x00000001) * 0x800000, BitAnd(r, 0xf8000000) / 0x200, BitAnd(r, 0x1f800000) / 0x800,
             BitAnd(r, 0x01f80000) / 0x2000, BitAnd(r, 0x001f8000) / 0x8000);
    Or5Small(BitAnd(r, 0x0001f800) * 0x80, BitAnd(r, 0x00001f80) * 0x20, BitAnd(r, 0x000001f8) * 8,
             BitAnd(r, 0x0000001f) * 2, BitAnd(r, 0x80000000) / 0x80000000);
  }

  // The expansion is the standard's: its table E, bit by bit.

  /** The bit of a word, counted from the left, that E puts in place `i` of 48: each group of six takes the last
      bit of the group before it, four of its own, and the first of the next. */
  function EAt(i: nat): int {
    31 - (4 * (i / 6) + i % 6 + 31) % 32
  }

  /** Bits lo to hi - 1 of `r`, moved down. */
  lemma MovedDown(r: nat, mask: nat, hi: nat, lo: nat, sh: nat, d: nat, k: nat)
    requires lo <= hi && mask == TwoTo(hi) - TwoTo(lo) && d == TwoTo(sh)
    ensures BitAnd(r, mask) / d >= 0 && (Bit(BitAnd(r, mask) / d, k) <==> lo <= k + sh < hi && Bit(r, k + sh))
  {
    hide Bit, BitAnd, TwoTo;
    QuotientNat(BitAnd(r, mask), d);
    BitOfShift(BitAnd(r, mask), sh, k);
    BitOfAnd(r, mask, sh + k);
    BitOfRange(hi, lo, mask, sh + k);
  }

  /** ... or up. */
  lemma MovedUp(r: nat, mask: nat, hi: nat, lo: nat, sh: nat, d: nat, k: nat)
    requires lo <= hi && mask == TwoTo(hi) - TwoTo(lo) && d == TwoTo(sh)
    ensures Bit(BitAnd(r, mask) * d, k) <==> sh <= k && lo <= k - sh < hi && Bit(r, k - sh)
  {
    hide Bit, BitAnd, TwoTo;
    BitOfShiftUp(BitAnd(r, mask), sh, k);
    if sh <= k {
      BitOfAnd(r, mask, k - sh);
      BitOfRange(hi, lo, mask, k - sh);
    }
  }

  lemma Or5Bit(a: nat, b: nat, c: nat, d: nat, e: nat, k: nat)
    ensures Bit(Or5(a, b, c, d, e), k) <==> Bit(a, k) || Bit(b, k) || Bit(c, k) || Bit(d, k) || Bit(e, k)
  {
    hide Bit, BitOr;
    BitOfOr(a, b, k);
    BitOfOr(BitOr(a, b), c, k);
    BitOfOr(BitOr(BitOr(a, b), c), d, k);
    BitOfOr(BitOr(BitOr(BitOr(a, b), c), d), e, k);
  }

  lemma LowPowers()
    ensures TwoTo(0) == 1 && TwoTo(1) == 2 && TwoTo(3) == 8 && TwoTo(5) == 0x20 && TwoTo(7) == 0x80 && TwoTo(9) == 0x200
    ensures TwoTo(11) == 0x800 && TwoTo(13) == 0x2000 && TwoTo(15) == 0x8000 && TwoTo(17) == 0x20000
    ensures TwoTo(19) == 0x80000 && TwoTo(21) == 0x200000 && TwoTo(23) == 0x800000 && TwoTo(25) == 0x2000000
    ensures TwoTo(27) == 0x8000000 && TwoTo(29) == 0x20000000 && TwoTo(31) == 0x80000000 && TwoTo(32) == 0x1_0000_0000
  {
    Fourfold(0);
    hide TwoTo;
    Fourfold(1);
    Fourfold(3);
    Fourfold(5);
    Fourfold(7);
    Fourfold(9);
    Fourfold(11);
    Fourfold(13);
    Fourfold(15);
    Fourfold(17);
    Fourfold(19);
    Fourfold(21);
    Fourfold(23);
    Fourfold(25);
    Fourfold(27);
    Fourfold(29);
    TwoToStep(31);
  }

  lemma Fourfold(n: nat)
    ensures TwoTo(n + 2) == 4 * TwoTo(n) && TwoTo(0) == 1 && TwoTo(1) == 2
  {
  }

  lemma ExpandLBits(r: nat, k: nat)
    requires k < 24
    ensures Bit(ExpandL(r), k) <==> Bit(r, EAt(23 - k))
  {
    hide Bit, BitAnd, TwoTo, Or5;
    LowPowers();
    MovedUp(r, 0x00000001, 1, 0, 23, 0x800000, k);
    MovedDown(r, 0xf8000000, 32, 27, 9, 0x200, k);
    MovedDown(r, 0x1f800000, 29, 23, 11, 0x800, k);
    MovedDown(r, 0x01f80000, 25, 19, 13, 0x2000, k);
    MovedDown(r, 0x001f8000, 21, 15, 15, 0x8000, k);
    Or5Bit(BitAnd(r, 0x00000001) * 0x800000, BitAnd(r, 0xf8000000) / 0x200, BitAnd(r, 0x1f800000) / 0x800,
           BitAnd(r, 0x01f80000) / 0x2000, BitAnd(r, 0x001f8000) / 0x8000, k);
    EAtLeft(k);
  }

  lemma EAtLeft(k: nat)
    requires k < 24
    ensures EAt(23 - k) == if k == 23 then 0 else if k >= 18 then k + 9 else if k >= 12 then k + 11
                           else if k >= 6 then k + 13 else k + 15
  {
  }

  lemma ExpandRBits(r: nat, k: nat)
    requires k < 24
    ensures Bit(ExpandR(r), k) <==> Bit(r, EAt(47 - k))
  {
    hide Bit, BitAnd, TwoTo, Or5;
    LowPowers();
    MovedUp(r, 0x0001f800, 17, 11, 7, 0x80, k);
    MovedUp(r, 0x00001f80, 13, 7, 5, 0x20, k);
    MovedUp(r, 0x000001f8, 9, 3, 3, 8, k);
    MovedUp(r, 0x0000001f, 5, 0, 1, 2, k);
    MovedDown(r, 0x80000000, 32, 31, 31, 0x80000000, k);
    Or5Bit(BitAnd(r, 0x0001f800) * 0x80, BitAnd(r, 0x00001f80) * 0x20, BitAnd(r, 0x000001f8) * 8,
           BitAnd(r, 0x0000001f) * 2, BitAnd(r, 0x80000000) / 0x80000000, k);
    EAtRight(k);
  }

  lemma EAtRight(k: nat)
    requires k < 24
    ensures EAt(47 - k) == if k >= 18 then k - 7 else if k >= 12 then k - 5 else if k >= 6 then k - 3
                           else if k >= 1 then k - 1 else 31
  {
  }

  /** The bits in which the salt exchanges the two halves of the expansion. */
  function Exchanged(r: nat, salt: nat): nat {
    BitAnd(BitXor(ExpandL(r), ExpandR(r)), salt)
  }

  /** Salt and key applied to one half. */
  function Keyed(half: nat, f: nat, k: nat): nat {
    BitXor(half, BitXor(f, k))
  }

  lemma KeyedSmall(r: nat, salt: nat, key: RoundKey)
    requires KeyOk(key)
    ensures Keyed(ExpandL(r), Exchanged(r, salt), key.0) < TwoTo(24)
    ensures Keyed(ExpandR(r), Exchanged(r, salt), key.1) < TwoTo(24)
  {
    hide BitXor, BitAnd, TwoTo, ExpandL, ExpandR;
    ExpandSmall(r);
    BitXorBound(ExpandL(r), ExpandR(r), 24);
    var f := Exchanged(r, salt);
    BitXorBound(f, key.0, 24);
    BitXorBound(f, key.1, 24);
    BitXorBound(ExpandL(r), BitXor(f, key.0), 24);
    BitXorBound(ExpandR(r), BitXor(f, key.1), 24);
  }

  /** Box `i` at bits `sh` to `sh` + 5. */
  function Box(psbox: Boxes, i: nat, x: nat, sh: nat): nat
    requires BoxesOk(psbox) && i < 8
  {
    var n := BitAnd(Shr(x, sh), 0x3f);
    psbox[i][n]
  }

  /** The first box of a half needs no mask. */
  lemma TopBox(x: nat)
    requires x < TwoTo(24)
    ensures Shr(x, 18) < 64 && BitAnd(Shr(x, 18), 0x3f) == Shr(x, 18)
  {
    hide BitAnd, Rem;
    Powers();
    assert Shr(x, 18) < 64;
    MaskLow(Shr(x, 18), 6);
    RemIs(Shr(x, 18), 64, 0, Shr(x, 18));
  }

  /** The four indices taken from a half are its base-64 digits. */
  lemma BoxDigits(x: nat)
    requires x < TwoTo(24)
    ensures x == 0x40000 * BitAnd(Shr(x, 18), 0x3f) + 0x1000 * BitAnd(Shr(x, 12), 0x3f)
                 + 0x40 * BitAnd(Shr(x, 6), 0x3f) + BitAnd(Shr(x, 0), 0x3f)
  {
    hide BitAnd, TwoTo;
    Powers();
    Fourfold(0);
    MaskLow(Shr(x, 18), 6);
    MaskLow(Shr(x, 12), 6);
    MaskLow(Shr(x, 6), 6);
    MaskLow(Shr(x, 0), 6);
    Base64(x);
  }

  lemma Base64(x: nat)
    requires x < 0x1000000
    ensures x == 0x40000 * (x / 0x40000 % 64) + 0x1000 * (x / 0x1000 % 64) + 0x40 * (x / 0x40 % 64) + x / 1 % 64
  {
    var a := x / 64;
    var b := a / 64;
    var c := b / 64;
    assert x / 0x1000 == b && x / 0x40000 == c;
  }

  function Boxed(psbox: Boxes, x: nat, y: nat): nat
    requires BoxesOk(psbox)
  {
    BitOr(BitOr(BitOr(Or5(Box(psbox, 0, x, 18), Box(psbox, 1, x, 12), Box(psbox, 2, x, 6), Box(psbox, 3, x, 0),
                          Box(psbox, 4, y, 18)),
                      Box(psbox, 5, y, 12)), Box(psbox, 6, y, 6)), Box(psbox, 7, y, 0))
  }

  lemma BoxedSmall(psbox: Boxes, x: nat, y: nat)
    requires BoxesOk(psbox)
    ensures Boxed(psbox, x, y) < TwoTo(32)
  {
    BoxSmall(psbox, 0, x, 18);
    BoxSmall(psbox, 1, x, 12);
    BoxSmall(psbox, 2, x, 6);
    BoxSmall(psbox, 3, x, 0);
    BoxSmall(psbox, 4, y, 18);
    BoxSmall(psbox, 5, y, 12);
    BoxSmall(psbox, 6, y, 6);
    BoxSmall(psbox, 7, y, 0);
    hide TwoTo, BitOr, Box;
    var a := BitOr(Box(psbox, 0, x, 18), Box(psbox, 1, x, 12));
    BitOrBound(Box(psbox, 0, x, 18), Box(psbox, 1, x, 12), 32);
    BitOrBound(a, Box(psbox, 2, x, 6), 32);
    BitOrBound(BitOr(a, Box(psbox, 2, x, 6)), Box(psbox, 3, x, 0), 32);
    BitOrBound(BitOr(BitOr(a, Box(psbox, 2, x, 6)), Box(psbox, 3, x, 0)), Box(psbox, 4, y, 18), 32);
    var b := BitOr(BitOr(BitOr(a, Box(psbox, 2, x, 6)), Box(psbox, 3, x, 0)), Box(psbox, 4, y, 18));
    BitOrBound(b, Box(psbox, 5, y, 12), 32);
    BitOrBound(BitOr(b, Box(psbox, 5, y, 12)), Box(psbox, 6, y, 6), 32);
    BitOrBound(BitOr(BitOr(b, Box(psbox, 5, y, 12)), Box(psbox, 6, y, 6)), Box(psbox, 7, y, 0), 32);
  }

  lemma BoxSmall(psbox: Boxes, i: nat, x: nat, sh: nat)
    requires BoxesOk(psbox) && i < 8
    ensures Box(psbox, i, x, sh) < TwoTo(32)
  {
    hide TwoTo, BitAnd, Shr;
  }

  /** The round function. */
  function F(psbox: Boxes, salt: nat, key: RoundKey, r: nat): nat
    requires BoxesOk(psbox)
  {
    var f := Exchanged(r, salt);
    Boxed(psbox, Keyed(ExpandL(r), f, key.0), Keyed(ExpandR(r), f, key.1))
  }

  // ---- the network -----------------------------------------------------------------------------------

  /** Rounds with the given keys. */
  function Rounds(psbox: Boxes, salt: nat, ks: seq<RoundKey>, l: nat, r: nat): (nat, nat)
    requires BoxesOk(psbox)
    decreases |ks|
  {
    if ks == [] then (l, r)
    else Rounds(psbox, salt, ks[1..], r, BitXor(F(psbox, salt, ks[0], r), l))
  }

  function Reversed(ks: seq<RoundKey>): (rs: seq<RoundKey>)
    ensures |rs| == |ks|
  {
    if ks == [] then [] else Reversed(ks[1..]) + [ks[0]]
  }

  lemma {:induction false} ReversedAt(ks: seq<RoundKey>, i: nat)
    requires i < |ks|
    ensures Reversed(ks)[i] == ks[|ks| - 1 - i]
  {
    if i < |ks| - 1 {
      ReversedAt(ks[1..], i);
    }
  }

  lemma {:induction false} RoundsAppend(psbox: Boxes, salt: nat, ks: seq<RoundKey>, k: RoundKey, l: nat, r: nat)
    requires BoxesOk(psbox)
    ensures var p := Rounds(psbox, salt, ks, l, r);
            Rounds(psbox, salt, ks + [k], l, r) == (p.1, BitXor(F(psbox, salt, k, p.1), p.0))
    decreases |ks|
  {
    hide F, BitXor, BoxesOk;
    if ks == [] {
      assert [k][1..] == [];
    } else {
      assert (ks + [k])[1..] == ks[1..] + [k];
      RoundsAppend(psbox, salt, ks[1..], k, r, BitXor(F(psbox, salt, ks[0], r), l));
    }
  }

  /** Run backwards on exchanged halves, the rounds undo themselves, whatever the round function. */
  lemma {:induction false} RoundsUndone(psbox: Boxes, salt: nat, ks: seq<RoundKey>, l: nat, r: nat)
    requires BoxesOk(psbox)
    ensures var p := Rounds(psbox, salt, ks, l, r);
            Rounds(psbox, salt, Reversed(ks), p.1, p.0) == (r, l)
    decreases |ks|
  {
    hide F, BitXor, BoxesOk;
    if ks != [] {
      var l', r' := r, BitXor(F(psbox, salt, ks[0], r), l);
      var p := Rounds(psbox, salt, ks[1..], l', r');
      RoundsUndone(psbox, salt, ks[1..], l', r');
      RoundsAppend(psbox, salt, Reversed(ks[1..]), ks[0], p.1, p.0);
      BitXorTwice(l, F(psbox, salt, ks[0], r));
    }
  }

  /** One pass: the rounds and the final exchange. */
  function Pass(psbox: Boxes, salt: nat, ks: seq<RoundKey>, p: (nat, nat)): (nat, nat)
    requires BoxesOk(psbox)
  {
    var q := Rounds(psbox, salt, ks, p.0, p.1);
    (q.1, q.0)
  }

  function Passes(psbox: Boxes, salt: nat, ks: seq<RoundKey>, count: nat, p: (nat, nat)): (nat, nat)
    requires BoxesOk(psbox)
    decreases count
  {
    if count == 0 then p else Passes(psbox, salt, ks, count - 1, Pass(psbox, salt, ks, p))
  }

  lemma {:induction false} PassesLast(psbox: Boxes, salt: nat, ks: seq<RoundKey>, count: nat, p: (nat, nat))
    requires BoxesOk(psbox)
    ensures Passes(psbox, salt, ks, count + 1, p) == Pass(psbox, salt, ks, Passes(psbox, salt, ks, count, p))
    decreases count
  {
    hide Pass, BoxesOk;
    if count > 0 {
      PassesLast(psbox, salt, ks, count - 1, Pass(psbox, salt, ks, p));
    }
  }

  lemma {:induction false} PassesUndone(psbox: Boxes, salt: nat, ks: seq<RoundKey>, count: nat, p: (nat, nat))
    requires BoxesOk(psbox)
    ensures Passes(psbox, salt, Reversed(ks), count, Passes(psbox, salt, ks, count, p)) == p
    decreases count
  {
    hide Rounds, BoxesOk;
    if count > 0 {
      var q := Pass(psbox, salt, ks, p);
      PassesUndone(psbox, salt, ks, count - 1, q);
      PassesLast(psbox, salt, Reversed(ks), count - 1, Passes(psbox, salt, ks, count - 1, q));
      RoundsUndone(psbox, salt, ks, p.0, p.1);
    }
  }

  /** __do_des. */
  function Cipher(psbox: Boxes, salt: nat, ks: seq<RoundKey>, count: nat, l: nat, r: nat): (nat, nat)
    requires BoxesOk(psbox)
  {
    var p := Passes(psbox, salt, ks, count, Ip(l, r));
    Fp(p.0, p.1)
  }

  lemma RoundsSmall(psbox: Boxes, salt: nat, ks: seq<RoundKey>, l: nat, r: nat)
    requires BoxesOk(psbox) && l < TwoTo(32) && r < TwoTo(32)
    ensures var p := Rounds(psbox, salt, ks, l, r); p.0 < TwoTo(32) && p.1 < TwoTo(32)
    decreases |ks|
  {
    hide BitXor, BoxesOk, TwoTo, Boxed;
    if ks != [] {
      var f := Exchanged(r, salt);
      BoxedSmall(psbox, Keyed(ExpandL(r), f, ks[0].0), Keyed(ExpandR(r), f, ks[0].1));
      BitXorBound(F(psbox, salt, ks[0], r), l, 32);
      RoundsSmall(psbox, salt, ks[1..], r, BitXor(F(psbox, salt, ks[0], r), l));
    }
  }

  lemma PassesSmall(psbox: Boxes, salt: nat, ks: seq<RoundKey>, count: nat, p: (nat, nat))
    requires BoxesOk(psbox) && p.0 < TwoTo(32) && p.1 < TwoTo(32)
    ensures var q := Passes(psbox, salt, ks, count, p); q.0 < TwoTo(32) && q.1 < TwoTo(32)
    decreases count
  {
    hide Rounds, BoxesOk, TwoTo;
    if count > 0 {
      RoundsSmall(psbox, salt, ks, p.0, p.1);
      PassesSmall(psbox, salt, ks, count - 1, Pass(psbox, salt, ks, p));
    }
  }

  /** Deciphering: the reversed schedule undoes any number of passes, for any salt, keys and S-boxes. */
  lemma DesUndone(psbox: Boxes, salt: nat, ks: seq<RoundKey>, count: nat, l: nat, r: nat)
    requires BoxesOk(psbox) && l < TwoTo(32) && r < TwoTo(32)
    ensures var p := Cipher(psbox, salt, ks, count, l, r);
            Cipher(psbox, salt, Reversed(ks), count, p.0, p.1) == (l, r)
  {
    hide Passes, Ip, Fp, BoxesOk, TwoTo;
    var p := Ip(l, r);
    PermutedSmall(l, r);
    PassesSmall(psbox, salt, ks, count, p);
    var q := Passes(psbox, salt, ks, count, p);
    IpAfterFp(q.0, q.1);
    PassesUndone(psbox, salt, ks, count, p);
    FpAfterIp(l, r);
  }

  // ---- as the code runs it -------------------------------------------------------------------------------

  lemma {:induction false} GatherZero(table: seq<Row>, shifts: seq<nat>, n: nat)
    requires n <= |shifts| && |table| == 2 * |shifts|
    ensures Gather(table, shifts, 0, 0, n) == 0
  {
    hide BitOr, Nibble;
    assert BitOr(0, 0) == 0 by { OrZero(); }
    if n > 0 {
      var i := n - 1;
      GatherZero(table, shifts, i);
      RowZero(table[i], shifts[i]);
      RowZero(table[i + |shifts|], shifts[i]);
    }
  }

  lemma OrZero()
    ensures BitOr(0, 0) == 0
  {
  }

  lemma RowZero(row: Row, sh: nat)
    ensures row.At(Nibble(0, sh)) == 0
  {
    hide BitAnd, Bit, TwoTo;
    var n := Nibble(0, sh);
    assert n == 0 by { QuotientZero(TwoTo(sh)); }
    BitOfPower(0, 0);
    BitOfPower(0, 1);
    BitOfPower(0, 2);
    BitOfPower(0, 3);
  }

  lemma QuotientZero(m: nat)
    requires m > 0
    ensures 0 / m == 0
  {
  }

  /** The first loop; a zero block is left alone. */
  method Permute(lIn: nat, rIn: nat) returns (l: nat, r: nat)
    ensures (l, r) == Ip(lIn, rIn)
  {
    hide Gather, Nibble, BitOr, IpMaskL, IpMaskR, IpShifts;
    l, r := 0, 0;
    if BitOr(lIn, rIn) != 0 {
      l, r := PermuteLoop(lIn, rIn);
    } else {
      GatherZero(IpMaskL(), IpShifts(), 8);
      GatherZero(IpMaskR(), IpShifts(), 8);
    }
  }

  method PermuteLoop(lIn: nat, rIn: nat) returns (l: nat, r: nat)
    ensures (l, r) == Ip(lIn, rIn)
  {
    hide Gather, Nibble, BitOr, IpMaskL, IpMaskR, IpShifts;
    l, r := 0, 0;
    var i, ibit := 0, 28;
    NothingGathered(IpMaskL(), IpShifts(), lIn, rIn);
    NothingGathered(IpMaskR(), IpShifts(), lIn, rIn);
    while i < 8
      invariant 0 <= i <= 8 && ibit == 28 - 4 * i
      invariant l == Gather(IpMaskL(), IpShifts(), lIn, rIn, i) && r == Gather(IpMaskR(), IpShifts(), lIn, rIn, i)
    {
      Shifts(i);
      GatherNext(IpMaskL(), IpShifts(), lIn, rIn, i);
      GatherNext(IpMaskR(), IpShifts(), lIn, rIn, i);
      l := BitOr(l, BitOr(IpMaskL()[i].At(Nibble(lIn, ibit)), IpMaskL()[i + 8].At(Nibble(rIn, ibit))));
      r := BitOr(r, BitOr(IpMaskR()[i].At(Nibble(lIn, ibit)), IpMaskR()[i + 8].At(Nibble(rIn, ibit))));
      i, ibit := i + 1, ibit - 4;
    }
  }

  lemma Shifts(i: nat)
    requires i < 8
    ensures IpShifts()[i] == 28 - 4 * i
    ensures i < 4 ==> FpShiftsR()[i] == 28 - 8 * i && FpShiftsL()[i] == 24 - 8 * i
  {
  }

  lemma NothingGathered(table: seq<Row>, shifts: seq<nat>, l: nat, r: nat)
    requires |table| == 2 * |shifts|
    ensures Gather(table, shifts, l, r, 0) == 0
  {
  }

  lemma GatherNext(table: seq<Row>, shifts: seq<nat>, l: nat, r: nat, i: nat)
    requires i < |shifts| && |table| == 2 * |shifts|
    ensures Gather(table, shifts, l, r, i + 1) ==
            BitOr(Gather(table, shifts, l, r, i),
                  BitOr(table[i].At(Nibble(l, shifts[i])), table[i + |shifts|].At(Nibble(r, shifts[i]))))
  {
    hide Nibble, BitOr;
  }

  /** The last loop, which steps through the nibbles two at a time. */
  method PermuteBack(l: nat, r: nat) returns (lo: nat, ro: nat)
    ensures (lo, ro) == Fp(l, r)
  {
    hide Gather, Nibble, BitOr, FpMaskL, FpMaskR, FpShiftsL, FpShiftsR;
    lo, ro := 0, 0;
    var i, ibit := 0, 28;
    NothingGathered(FpMaskL(), FpShiftsL(), l, r);
    NothingGathered(FpMaskR(), FpShiftsR(), l, r);
    while i < 4
      invariant 0 <= i <= 4 && ibit == 28 - 8 * i
      invariant lo == Gather(FpMaskL(), FpShiftsL(), l, r, i) && ro == Gather(FpMaskR(), FpShiftsR(), l, r, i)
    {
      Shifts(i);
      GatherNext(FpMaskL(), FpShiftsL(), l, r, i);
      GatherNext(FpMaskR(), FpShiftsR(), l, r, i);
      ro := BitOr(ro, BitOr(FpMaskR()[i].At(Nibble(l, ibit)), FpMaskR()[i + 4].At(Nibble(r, ibit))));
      ibit := ibit - 4;
      lo := BitOr(lo, BitOr(FpMaskL()[i].At(Nibble(l, ibit)), FpMaskL()[i + 4].At(Nibble(r, ibit))));
      i, ibit := i + 1, ibit - 4;
    }
  }

  /** The round function's body; the two leading boxes are indexed without a mask. */
  method RoundFunction(psbox: Boxes, saltbits: nat, key: RoundKey, r: nat) returns (f: nat)
    requires BoxesOk(psbox) && KeyOk(key)
    ensures f == F(psbox, saltbits, key, r)
  {
    hide BitOr, BitXor, BitAnd, TwoTo, ExpandL, ExpandR, Shr, Or5;
    var r48l, r48r := ExpandL(r), ExpandR(r);
    f := BitAnd(BitXor(r48l, r48r), saltbits);
    KeyedSmall(r, saltbits, key);
    r48l := BitXor(r48l, BitXor(f, key.0));
    r48r := BitXor(r48r, BitXor(f, key.1));
    TopBox(r48l);
    TopBox(r48r);
    f := BitOr(BitOr(BitOr(Or5(psbox[0][Shr(r48l, 18)], Box(psbox, 1, r48l, 12), Box(psbox, 2, r48l, 6),
                               Box(psbox, 3, r48l, 0), psbox[4][Shr(r48r, 18)]),
                           Box(psbox, 5, r48r, 12)), Box(psbox, 6, r48r, 6)), Box(psbox, 7, r48r, 0));
  }

  /** __do_des. */
  method DoDes(psbox: Boxes, lIn: nat, rIn: nat, count: nat, saltbits: nat, ekey: seq<RoundKey>)
    returns (lOut: nat, rOut: nat)
    requires BoxesOk(psbox) && |ekey| == 16 && KeysOk(ekey)
    ensures (lOut, rOut) == Cipher(psbox, saltbits, ekey, count, lIn, rIn)
  {
    hide Ip, Fp, F, BitXor, BoxesOk, Rounds, KeyOk;
    var l, r := Permute(lIn, rIn);
    var left: nat := count;
    while left > 0
      invariant left <= count
      invariant Passes(psbox, saltbits, ekey, left, (l, r)) == Passes(psbox, saltbits, ekey, count, Ip(lIn, rIn))
    {
      l, r := RunRounds(psbox, saltbits, ekey, l, r);
      left := left - 1;
    }
    lOut, rOut := PermuteBack(l, r);
  }

  /** One turn of the outer loop: sixteen rounds, then r = l and l = f. */
  method RunRounds(psbox: Boxes, saltbits: nat, ekey: seq<RoundKey>, l0: nat, r0: nat) returns (l: nat, r: nat)
    requires BoxesOk(psbox) && |ekey| == 16 && KeysOk(ekey)
    ensures (l, r) == Pass(psbox, saltbits, ekey, (l0, r0))
  {
    hide F, BitXor, BoxesOk, KeyOk, Rounds;
    var round, k := 16, 0;
    l, r := l0, r0;
    var f := 0;
    assert ekey[0..] == ekey;
    while round > 0
      invariant 0 <= round <= 16 && k == 16 - round && (k > 0 ==> f == r)
      invariant Rounds(psbox, saltbits, ekey[k..], l, r) == Rounds(psbox, saltbits, ekey, l0, r0)
    {
      RoundsNext(psbox, saltbits, ekey, k, l, r);
      assert KeyOk(ekey[k]);
      f := RoundFunction(psbox, saltbits, ekey[k], r);
      f := BitXor(f, l);
      l := r;
      r := f;
      round, k := round - 1, k + 1;
    }
    RoundsDone(psbox, saltbits, ekey[16..], l, r);
    r := l;
    l := f;
  }

  lemma RoundsNext(psbox: Boxes, salt: nat, ks: seq<RoundKey>, k: nat, l: nat, r: nat)
    requires BoxesOk(psbox) && k < |ks|
    ensures Rounds(psbox, salt, ks[k..], l, r) == Rounds(psbox, salt, ks[k + 1..], r, BitXor(F(psbox, salt, ks[k], r), l))
  {
    hide F, BitXor, BoxesOk;
    assert ks[k..][1..] == ks[k + 1..];
  }

  lemma RoundsDone(psbox: Boxes, salt: nat, ks: seq<RoundKey>, l: nat, r: nat)
    requires BoxesOk(psbox) && ks == []
    ensures Rounds(psbox, salt, ks, l, r) == (l, r)
  {
  }
}
