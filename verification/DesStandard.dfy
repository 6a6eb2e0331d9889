/**
 What __do_des and encrypt compute, bit by bit and in the standard's terms: FIPS 46's tables E and IP, the 48 bits of a
 round key, the eight groups of six bits, and the halves of a run.
 */
module DesStandard {
  import opened Words
  import opened DesTables
  import opened DesCipher
  import opened Encrypt

  // ---- the round function ------------------------------------------------------------------------

  /** Bit `i` of the 48 of a round key, counted from the left. */
  predicate KeyBit(key: RoundKey, i: nat)
    requires i < 48
  {
    if i < 24 then Bit(key.0, 23 - i) else Bit(key.1, 47 - i)
  }

  /** Bit `i` of the 48 that enter the boxes.  Where the salt has a one, the halves of the expansion are exchanged. */
  predicate Fed(salt: nat, key: RoundKey, r: nat, i: nat)
    requires i < 48
  {
    var from := if Bit(salt, 23 - i % 24) then (i + 24) % 48 else i;
    Bit(r, EAt(from)) != KeyBit(key, i)
  }

  function Weight(b: bool, n: nat): nat {
    if b then n else 0
  }

  /** The number that the six bits of group `b` spell. */
  function Group(salt: nat, key: RoundKey, r: nat, b: nat): (n: nat)
    requires b < 8
    ensures n < 64
  {
    Weight(Fed(salt, key, r, 6 * b), 32) + Weight(Fed(salt, key, r, 6 * b + 1), 16)
    + Weight(Fed(salt, key, r, 6 * b + 2), 8) + Weight(Fed(salt, key, r, 6 * b + 3), 4)
    + Weight(Fed(salt, key, r, 6 * b + 4), 2) + Weight(Fed(salt, key, r, 6 * b + 5), 1)
  }

  lemma SixBits(b5: bool, b4: bool, b3: bool, b2: bool, b1: bool, b0: bool)
    ensures var n := Weight(b5, 32) + Weight(b4, 16) + Weight(b3, 8) + Weight(b2, 4) + Weight(b1, 2) + Weight(b0, 1);
            && (Bit(n, 0) <==> b0) && (Bit(n, 1) <==> b1) && (Bit(n, 2) <==> b2)
            && (Bit(n, 3) <==> b3) && (Bit(n, 4) <==> b4) && (Bit(n, 5) <==> b5)
  {
    Powers();
    LowPowers();
    Fourfold(2);
    hide TwoTo;
  }

  lemma KeyedBits(salt: nat, key: RoundKey, r: nat, k: nat)
    requires k < 24
    ensures var f := Exchanged(r, salt);
            && (Bit(Keyed(ExpandL(r), f, key.0), k) <==> Fed(salt, key, r, 23 - k))
            && (Bit(Keyed(ExpandR(r), f, key.1), k) <==> Fed(salt, key, r, 47 - k))
  {
    hide Bit, BitXor, BitAnd, ExpandL, ExpandR, EAt;
    var f := Exchanged(r, salt);
    ExpandLBits(r, k);
    ExpandRBits(r, k);
    BitOfXor(ExpandL(r), ExpandR(r), k);
    BitOfAnd(BitXor(ExpandL(r), ExpandR(r)), salt, k);
    BitOfXor(f, key.0, k);
    BitOfXor(f, key.1, k);
    BitOfXor(ExpandL(r), BitXor(f, key.0), k);
    BitOfXor(ExpandR(r), BitXor(f, key.1), k);
  }

  /** The index of a box: six bits of a half. */
  lemma IndexBit(x: nat, sh: nat, k: nat)
    ensures Bit(BitAnd(Shr(x, sh), 0x3f), k) <==> k < 6 && Bit(x, sh + k)
  {
    Powers();
    LowPowers();
    hide Bit, BitAnd, Shr, TwoTo;
    BitOfAnd(Shr(x, sh), 0x3f, k);
    BitOfShift(x, sh, k);
    BitOfRange(6, 0, 0x3f, k);
  }

  /** The half of the expansion that group `b` is in, salted and keyed, and where in it. */
  function HalfOf(salt: nat, key: RoundKey, r: nat, b: nat): nat {
    var f := Exchanged(r, salt);
    if b < 4 then Keyed(ExpandL(r), f, key.0) else Keyed(ExpandR(r), f, key.1)
  }

  lemma GroupIs(salt: nat, key: RoundKey, r: nat, b: nat)
    requires b < 8
    ensures BitAnd(Shr(HalfOf(salt, key, r, b), 18 - 6 * (b % 4)), 0x3f) == Group(salt, key, r, b)
  {
    hide Bit, BitAnd, Shr, TwoTo, HalfOf, Group, Fed, Rem;
    var x, sh := HalfOf(salt, key, r, b), 18 - 6 * (b % 4);
    var n, g := BitAnd(Shr(x, sh), 0x3f), Group(salt, key, r, b);
    forall k | 0 <= k < 6
      ensures Bit(n, k) <==> Bit(g, k)
    {
      IndexBit(x, sh, k);
      HalfBit(salt, key, r, b, sh + k);
      GroupBit(salt, key, r, b, k);
    }
    Powers();
    MaskLow(Shr(x, sh), 6);
    SameBits(n, g, 6);
  }

  lemma HalfBit(salt: nat, key: RoundKey, r: nat, b: nat, k: nat)
    requires b < 8 && k < 24
    ensures Bit(HalfOf(salt, key, r, b), k) <==> Fed(salt, key, r, if b < 4 then 23 - k else 47 - k)
  {
    hide Bit, Fed, Keyed, Exchanged, ExpandL, ExpandR;
    KeyedBits(salt, key, r, k);
  }

  lemma GroupBit(salt: nat, key: RoundKey, r: nat, b: nat, k: nat)
    requires b < 8 && k < 6
    ensures Bit(Group(salt, key, r, b), k) <==> Fed(salt, key, r, 6 * b + 5 - k)
  {
    hide Bit, Fed, Weight;
    SixBits(Fed(salt, key, r, 6 * b), Fed(salt, key, r, 6 * b + 1), Fed(salt, key, r, 6 * b + 2),
            Fed(salt, key, r, 6 * b + 3), Fed(salt, key, r, 6 * b + 4), Fed(salt, key, r, 6 * b + 5));
  }

  lemma BoxedBit(psbox: Boxes, x: nat, y: nat, k: nat)
    requires BoxesOk(psbox)
    ensures Bit(Boxed(psbox, x, y), k) <==>
            || Bit(Box(psbox, 0, x, 18), k) || Bit(Box(psbox, 1, x, 12), k) || Bit(Box(psbox, 2, x, 6), k)
            || Bit(Box(psbox, 3, x, 0), k) || Bit(Box(psbox, 4, y, 18), k) || Bit(Box(psbox, 5, y, 12), k)
            || Bit(Box(psbox, 6, y, 6), k) || Bit(Box(psbox, 7, y, 0), k)
  {
    hide BoxesOk, Bit, BitOr, Box, Or5;
    var a := Or5(Box(psbox, 0, x, 18), Box(psbox, 1, x, 12), Box(psbox, 2, x, 6), Box(psbox, 3, x, 0),
                 Box(psbox, 4, y, 18));
    Or5Bit(Box(psbox, 0, x, 18), Box(psbox, 1, x, 12), Box(psbox, 2, x, 6), Box(psbox, 3, x, 0),
           Box(psbox, 4, y, 18), k);
    BitOfOr(a, Box(psbox, 5, y, 12), k);
    BitOfOr(BitOr(a, Box(psbox, 5, y, 12)), Box(psbox, 6, y, 6), k);
    BitOfOr(BitOr(BitOr(a, Box(psbox, 5, y, 12)), Box(psbox, 6, y, 6)), Box(psbox, 7, y, 0), k);
  }

  /** What box `b` gives. */
  function Given(psbox: Boxes, salt: nat, key: RoundKey, r: nat, b: nat): nat
    requires BoxesOk(psbox) && b < 8
  {
    psbox[b][Group(salt, key, r, b)]
  }

  lemma BoxGiven(psbox: Boxes, salt: nat, key: RoundKey, r: nat, b: nat)
    requires BoxesOk(psbox) && b < 8
    ensures Box(psbox, b, HalfOf(salt, key, r, b), 18 - 6 * (b % 4)) == Given(psbox, salt, key, r, b)
  {
    hide BoxesOk, BitAnd, Shr, HalfOf, Group;
    GroupIs(salt, key, r, b);
  }

  /** The round function: each box is entered at the group of six that bears its number; the outputs are joined. */
  lemma RoundBits(psbox: Boxes, salt: nat, key: RoundKey, r: nat, k: nat)
    requires BoxesOk(psbox)
    ensures Bit(F(psbox, salt, key, r), k) <==> exists b :: 0 <= b < 8 && Bit(Given(psbox, salt, key, r, b), k)
  {
    hide BoxesOk, Bit, Given, Keyed, Exchanged, ExpandL, ExpandR, BitOr, Box, Or5;
    BoxGiven(psbox, salt, key, r, 0);
    BoxGiven(psbox, salt, key, r, 1);
    BoxGiven(psbox, salt, key, r, 2);
    BoxGiven(psbox, salt, key, r, 3);
    BoxGiven(psbox, salt, key, r, 4);
    BoxGiven(psbox, salt, key, r, 5);
    BoxGiven(psbox, salt, key, r, 6);
    BoxGiven(psbox, salt, key, r, 7);
    var f := Exchanged(r, salt);
    var x, y := Keyed(ExpandL(r), f, key.0), Keyed(ExpandR(r), f, key.1);
    BoxedBit(psbox, x, y, k);
  }

  // ---- a run ---------------------------------------------------------------------------------------

  /** The halves of a run: each round keeps one and makes the next of the one before it. */
  ghost predicate Halves(psbox: Boxes, salt: nat, ks: seq<RoundKey>, xs: seq<nat>)
    requires BoxesOk(psbox)
  {
    |xs| == |ks| + 2 && forall i :: 0 <= i < |ks| ==> NextHalf(psbox, salt, ks[i], xs, i)
  }

  ghost predicate NextHalf(psbox: Boxes, salt: nat, key: RoundKey, xs: seq<nat>, i: nat)
    requires BoxesOk(psbox) && i + 2 < |xs|
  {
    xs[i + 2] == BitXor(F(psbox, salt, key, xs[i + 1]), xs[i])
  }

  /** The rounds end with the last two halves. */
  lemma {:induction false} RoundsEnd(psbox: Boxes, salt: nat, ks: seq<RoundKey>, xs: seq<nat>)
    requires BoxesOk(psbox) && Halves(psbox, salt, ks, xs)
    ensures Rounds(psbox, salt, ks, xs[0], xs[1]) == (xs[|ks|], xs[|ks| + 1])
    decreases |ks|
  {
    hide F, BitXor, BoxesOk;
    if ks != [] {
      assert NextHalf(psbox, salt, ks[0], xs, 0);
      forall i | 0 <= i < |ks| - 1
        ensures NextHalf(psbox, salt, ks[1..][i], xs[1..], i)
      {
        assert NextHalf(psbox, salt, ks[i + 1], xs, i + 1);
      }
      RoundsEnd(psbox, salt, ks[1..], xs[1..]);
    }
  }

  /** The first two halves are the block under the table IP. */
  ghost predicate Enters(block: seq<int>, xs: seq<nat>)
    requires |block| == 64 && |xs| >= 2
  {
    && xs[0] < TwoTo(32) && xs[1] < TwoTo(32)
    && forall n :: 0 <= n < 64 ==> (Bit(xs[if n < 32 then 0 else 1], 31 - n % 32) <==> block[IpTableAt(n) - 1] % 2 == 1)
  }

  /** The schedule as encrypt takes it: in order to encipher, backwards to decipher. */
  ghost predicate Schedule(ks: seq<RoundKey>, edflag: int, taken: seq<RoundKey>) {
    |taken| == |ks| && forall i :: 0 <= i < |ks| ==> taken[i] == ks[if edflag == 0 then i else |ks| - 1 - i]
  }

  /** encrypt's block is the last two halves, exchanged, under the inverse of IP. */
  lemma EncryptIsDes(psbox: Boxes, ks: seq<RoundKey>, block: seq<int>, edflag: int,
                     taken: seq<RoundKey>, xs: seq<nat>, n: nat)
    requires BoxesOk(psbox) && |block| == 64 && n < 64
    requires Schedule(ks, edflag, taken) && Halves(psbox, 0, taken, xs) && Enters(block, xs)
    ensures Encrypted(psbox, ks, block, edflag)[IpTableAt(n) - 1] ==
            if Bit(xs[if n < 32 then |ks| + 1 else |ks|], 31 - n % 32) then 1 else 0
  {
    hide BoxesOk, Bit, Ip, Fp, Packed, Unpacked, TwoTo, IpTableAt, Cipher, NextHalf, Enters, Schedule, BlockBit;
    var l, r := Packed(block[..32], 32), Packed(block[32..], 32);
    ScheduleIs(ks, edflag, taken);
    EntersIp(block, xs);
    var q := Cipher(psbox, 0, taken, 1, l, r);
    CipherEnds(psbox, taken, xs, l, r);
    IpIsStandard(q.0, q.1, n);
    UnpackedBit(q.0, q.1, IpTableAt(n));
  }

  lemma CipherEnds(psbox: Boxes, taken: seq<RoundKey>, xs: seq<nat>, l: nat, r: nat)
    requires BoxesOk(psbox) && Halves(psbox, 0, taken, xs) && Ip(l, r) == (xs[0], xs[1])
    ensures var q := Cipher(psbox, 0, taken, 1, l, r); Ip(q.0, q.1) == (xs[|taken| + 1], xs[|taken|])
  {
    hide BoxesOk, Ip, Fp, TwoTo, Rounds, NextHalf;
    RoundsEnd(psbox, 0, taken, xs);
    var p := Pass(psbox, 0, taken, Ip(l, r));
    assert Passes(psbox, 0, taken, 1, Ip(l, r)) == p == (xs[|taken| + 1], xs[|taken|]);
    PermutedSmall(l, r);
    PassesSmall(psbox, 0, taken, 1, Ip(l, r));
    IpAfterFp(p.0, p.1);
  }

  lemma ScheduleIs(ks: seq<RoundKey>, edflag: int, taken: seq<RoundKey>)
    requires Schedule(ks, edflag, taken)
    ensures taken == if edflag != 0 then Reversed(ks) else ks
  {
    hide Reversed;
    forall i | 0 <= i < |ks|
      ensures Reversed(ks)[i] == ks[|ks| - 1 - i]
    {
      ReversedAt(ks, i);
    }
  }

  lemma EntersIp(block: seq<int>, xs: seq<nat>)
    requires |block| == 64 && |xs| >= 2 && Enters(block, xs)
    ensures Ip(Packed(block[..32], 32), Packed(block[32..], 32)) == (xs[0], xs[1])
  {
    hide Bit, Ip, Packed, TwoTo, Enters;
    var l, r := Packed(block[..32], 32), Packed(block[32..], 32);
    PermutedSmall(l, r);
    EntersSmall(block, xs);
    EntersHalf(block, xs, 0, Ip(l, r).0);
    EntersHalf(block, xs, 1, Ip(l, r).1);
  }

  lemma EntersHalf(block: seq<int>, xs: seq<nat>, h: nat, w: nat)
    requires |block| == 64 && |xs| >= 2 && Enters(block, xs) && h < 2 && w < TwoTo(32)
    requires var p := Ip(Packed(block[..32], 32), Packed(block[32..], 32)); w == if h == 0 then p.0 else p.1
    ensures w == xs[h]
  {
    hide Bit, Ip, Packed, TwoTo, Enters;
    EntersSmall(block, xs);
    forall k | 0 <= k < 32
      ensures Bit(w, k) <==> Bit(xs[h], k)
    {
      EntersBit(block, xs, 32 * h + 31 - k);
    }
    SameBits(w, xs[h], 32);
  }

  lemma EntersSmall(block: seq<int>, xs: seq<nat>)
    requires |block| == 64 && |xs| >= 2 && Enters(block, xs)
    ensures xs[0] < TwoTo(32) && xs[1] < TwoTo(32)
  {
  }

  lemma EntersBit(block: seq<int>, xs: seq<nat>, n: nat)
    requires |block| == 64 && |xs| >= 2 && Enters(block, xs) && n < 64
    ensures var p := Ip(Packed(block[..32], 32), Packed(block[32..], 32));
            Bit(if n < 32 then p.0 else p.1, 31 - n % 32) <==> Bit(xs[if n < 32 then 0 else 1], 31 - n % 32)
  {
    hide Bit, Ip, Packed, TwoTo, IpTableAt;
    IpOfBlock(block, n);
  }

  lemma IpOfBlock(block: seq<int>, n: nat)
    requires |block| == 64 && n < 64
    ensures var p := Ip(Packed(block[..32], 32), Packed(block[32..], 32));
            Bit(if n < 32 then p.0 else p.1, 31 - n % 32) <==> block[IpTableAt(n) - 1] % 2 == 1
  {
    hide Bit, Ip, Packed, IpTableAt;
    IpIsStandard(Packed(block[..32], 32), Packed(block[32..], 32), n);
    var m := IpTableAt(n);
    if m <= 32 {
      PackedBit(block[..32], 32, 32 - m);
    } else {
      PackedBit(block[32..], 32, 64 - m);
    }
  }

  /** Every call has its run. */
  lemma RunExists(psbox: Boxes, ks: seq<RoundKey>, block: seq<int>, edflag: int)
    returns (taken: seq<RoundKey>, xs: seq<nat>)
    requires BoxesOk(psbox) && |block| == 64
    ensures Schedule(ks, edflag, taken) && Halves(psbox, 0, taken, xs) && Enters(block, xs)
  {
    hide BoxesOk, Ip, Packed, Enters, NextHalf;
    taken := seq(|ks|, i requires 0 <= i < |ks| => ks[if edflag == 0 then i else |ks| - 1 - i]);
    var l, r := Packed(block[..32], 32), Packed(block[32..], 32);
    xs := HalvesFrom(psbox, 0, taken, Ip(l, r).0, Ip(l, r).1);
    EntersFrom(block, xs);
  }

  lemma EntersFrom(block: seq<int>, xs: seq<nat>)
    requires |block| == 64 && |xs| >= 2 && Ip(Packed(block[..32], 32), Packed(block[32..], 32)) == (xs[0], xs[1])
    ensures Enters(block, xs)
  {
    hide Bit, Ip, Packed, TwoTo, IpTableAt;
    PermutedSmall(Packed(block[..32], 32), Packed(block[32..], 32));
    forall n | 0 <= n < 64
      ensures Bit(xs[if n < 32 then 0 else 1], 31 - n % 32) <==> block[IpTableAt(n) - 1] % 2 == 1
    {
      IpOfBlock(block, n);
    }
  }

  lemma {:induction false} HalvesFrom(psbox: Boxes, salt: nat, ks: seq<RoundKey>, l: nat, r: nat) returns (xs: seq<nat>)
    requires BoxesOk(psbox)
    ensures Halves(psbox, salt, ks, xs) && xs[0] == l && xs[1] == r
    decreases |ks|
  {
    hide F, BitXor, BoxesOk;
    xs := [l, r];
    if ks != [] {
      var ys := HalvesFrom(psbox, salt, ks[1..], r, BitXor(F(psbox, salt, ks[0], r), l));
      xs := [l] + ys;
      forall i | 0 <= i < |ks|
        ensures NextHalf(psbox, salt, ks[i], xs, i)
      {
        if i > 0 {
          assert NextHalf(psbox, salt, ks[1..][i - 1], ys, i - 1);
        }
      }
    }
  }

  lemma UnpackedBit(l: nat, r: nat, m: nat)
    requires 1 <= m <= 64
    ensures (Unpacked(l) + Unpacked(r))[m - 1] == if BlockBit(l, r, m) then 1 else 0
  {
    hide Bit, LowBit;
    if m <= 32 {
      LowBitIs(l, 32 - m);
    } else {
      LowBitIs(r, 64 - m);
    }
  }
}
