/**
 encrypt: a block of 64 entries, of which only the low bits count, enciphered or
 deciphered in place.
 */
module Encrypt {
  import opened Words
  import opened DesCipher

  /** The word of the first `n` entries' low bits, first entry in bit 31. */
  function Packed(s: seq<int>, n: nat): nat
    requires n <= |s| <= 32
  {
    if n == 0 then 0 else BitOr(Packed(s, n - 1), s[n - 1] % 2 * TwoTo(32 - n))
  }

  /** A word as 32 entries. */
  function Unpacked(w: nat): (s: seq<int>)
    ensures |s| == 32
  {
    seq(32, i requires 0 <= i < 32 => LowBit(w, 31 - i))
  }

  function LowBit(w: nat, j: nat): int {
    Shr(w, j) % 2
  }

  lemma LowBitIs(w: nat, j: nat)
    ensures LowBit(w, j) == if Bit(w, j) then 1 else 0
  {
  }

  lemma {:induction false} PackedBit(s: seq<int>, n: nat, k: nat)
    requires n <= |s| == 32 && k < 32
    ensures Bit(Packed(s, n), k) <==> 32 - n <= k && s[31 - k] % 2 == 1
  {
    hide Bit, BitOr, TwoTo;
    BitOfPower(0, k);
    if n > 0 {
      PackedBit(s, n - 1, k);
      var b := s[n - 1] % 2;
      BitOfPower(32 - n, k);
      Scaled(b, TwoTo(32 - n));
      BitOfOr(Packed(s, n - 1), b * TwoTo(32 - n), k);
    }
  }

  lemma Scaled(b: int, m: int)
    requires b == 0 || b == 1
    ensures b * m == if b == 1 then m else 0
  {
  }

  lemma {:induction false} PackedSmall(s: seq<int>, n: nat)
    requires n <= |s| == 32
    ensures Packed(s, n) < TwoTo(32)
  {
    hide BitOr, TwoTo;
    if n > 0 {
      PackedSmall(s, n - 1);
      Scaled(s[n - 1] % 2, TwoTo(32 - n));
      TwoToMonotone(32 - n, 31);
      assert TwoTo(31) < TwoTo(32) by { TopPower(); }
      BitOrBound(Packed(s, n - 1), s[n - 1] % 2 * TwoTo(32 - n), 32);
    }
  }

  lemma TopPower()
    ensures TwoTo(31) < TwoTo(32)
  {
  }

  lemma UnpackPacked(s: seq<int>)
    requires |s| == 32
    ensures Unpacked(Packed(s, 32)) == seq(32, i requires 0 <= i < 32 => s[i] % 2)
  {
    hide Bit, Packed, LowBit;
    forall i | 0 <= i < 32
      ensures LowBit(Packed(s, 32), 31 - i) == s[i] % 2
    {
      PackedBit(s, 32, 31 - i);
      LowBitIs(Packed(s, 32), 31 - i);
    }
  }

  lemma PackUnpacked(w: nat)
    requires w < TwoTo(32)
    ensures Packed(Unpacked(w), 32) == w
  {
    hide Bit, Packed, LowBit, TwoTo;
    var s := Unpacked(w);
    PackedSmall(s, 32);
    forall k | 0 <= k < 32
      ensures Bit(Packed(s, 32), k) <==> Bit(w, k)
    {
      PackedBit(s, 32, k);
      assert s[31 - k] == LowBit(w, k);
      LowBitIs(w, k);
    }
    SameBits(Packed(s, 32), w, 32);
  }

  /** What encrypt leaves in the block. */
  function Encrypted(psbox: Boxes, ks: seq<RoundKey>, block: seq<int>, edflag: int): (s: seq<int>)
    requires BoxesOk(psbox) && |block| == 64
    ensures |s| == 64
  {
    var p := Cipher(psbox, 0, if edflag != 0 then Reversed(ks) else ks, 1, Packed(block[..32], 32), Packed(block[32..], 32));
    Unpacked(p.0) + Unpacked(p.1)
  }

  function LowBits(block: seq<int>): (s: seq<int>)
    ensures |s| == |block|
  {
    seq(|block|, i requires 0 <= i < |block| => block[i] % 2)
  }

  lemma CipherSmall(psbox: Boxes, salt: nat, ks: seq<RoundKey>, count: nat, l: nat, r: nat)
    requires BoxesOk(psbox)
    ensures var p := Cipher(psbox, salt, ks, count, l, r); p.0 < TwoTo(32) && p.1 < TwoTo(32)
  {
    hide BoxesOk, TwoTo, Passes, DesTables.Ip, DesTables.Fp;
    var p := Passes(psbox, salt, ks, count, DesTables.Ip(l, r));
    DesTables.PermutedSmall(p.0, p.1);
  }

  /** Enciphering and deciphering with the same key, in either order, gives the low bits of the block back. */
  lemma EncryptUndone(psbox: Boxes, ks: seq<RoundKey>, block: seq<int>, edflag: int, back: int)
    requires BoxesOk(psbox) && |block| == 64 && (edflag == 0 <==> back != 0)
    ensures Encrypted(psbox, ks, Encrypted(psbox, ks, block, edflag), back) == LowBits(block)
  {
    hide BoxesOk, TwoTo, Cipher, Packed, Unpacked;
    var l, r := Packed(block[..32], 32), Packed(block[32..], 32);
    PackedSmall(block[..32], 32);
    PackedSmall(block[32..], 32);
    var keys := if edflag != 0 then Reversed(ks) else ks;
    var p := Cipher(psbox, 0, keys, 1, l, r);
    CipherSmall(psbox, 0, keys, 1, l, r);
    var mid := Unpacked(p.0) + Unpacked(p.1);
    assert mid[..32] == Unpacked(p.0) && mid[32..] == Unpacked(p.1);
    PackUnpacked(p.0);
    PackUnpacked(p.1);
    DesUndone(psbox, 0, keys, 1, l, r);
    ReversedTwice(ks);
    UnpackPacked(block[..32]);
    UnpackPacked(block[32..]);
    assert LowBits(block) == Unpacked(l) + Unpacked(r);
  }

  lemma ReversedTwice(ks: seq<RoundKey>)
    ensures Reversed(Reversed(ks)) == ks
  {
    var rs := Reversed(ks);
    forall i | 0 <= i < |ks|
      ensures Reversed(rs)[i] == ks[i]
    {
      ReversedAt(rs, i);
      ReversedAt(ks, |ks| - 1 - i);
    }
  }

  /** The block itself comes back exactly if its entries were 0 or 1. */
  lemma RestoredIff(psbox: Boxes, ks: seq<RoundKey>, block: seq<int>)
    requires BoxesOk(psbox) && |block| == 64
    ensures Encrypted(psbox, ks, Encrypted(psbox, ks, block, 0), 1) == block
            <==> forall i :: 0 <= i < 64 ==> block[i] == 0 || block[i] == 1
  {
    hide BoxesOk, Encrypted;
    EncryptUndone(psbox, ks, block, 0, 1);
    var bits := LowBits(block);
    assert forall i :: 0 <= i < 64 ==> bits[i] == block[i] % 2;
    if bits == block {
      assert forall i :: 0 <= i < 64 ==> block[i] == bits[i];
    }
  }

  /** A block that does not come back: its first entry is 2. */
  lemma NotRestored(psbox: Boxes, ks: seq<RoundKey>)
    requires BoxesOk(psbox)
    ensures var block := seq(64, i => if i == 0 then 2 else 0);
            Encrypted(psbox, ks, Encrypted(psbox, ks, block, 0), 1) != block
  {
    hide BoxesOk, Encrypted;
    var block := seq(64, i => if i == 0 then 2 else 0);
    assert block[0] == 2;
    RestoredIff(psbox, ks, block);
  }

  /** The key schedule that setkey leaves for encrypt. */
  class Crypt {
    const psbox: Boxes
    var encryptKey: seq<RoundKey>

    ghost predicate Valid()
      reads this
    {
      BoxesOk(psbox) && |encryptKey| == 16 && KeysOk(encryptKey)
    }

    constructor (psbox: Boxes, key: seq<RoundKey>)
      requires BoxesOk(psbox) && |key| == 16 && KeysOk(key)
      ensures Valid() && this.psbox == psbox && encryptKey == key
    {
      this.psbox := psbox;
      encryptKey := key;
    }

    /** encrypt. */
    method Encrypt(block: array<int>, edflag: int)
      requires Valid() && block.Length == 64
      modifies block
      ensures block[..] == Encrypted(psbox, encryptKey, old(block[..]), edflag)
    {
      hide BoxesOk, KeyOk, Packed, Cipher, Unpacked;
      ghost var was := block[..];
      assert block[0..0 + 32] == was[..32] && block[32..32 + 32] == was[32..];
      var b0 := Pack(block, 0);
      var b1 := Pack(block, 32);
      var key := encryptKey;
      if edflag != 0 {
        key := Turned(encryptKey);
      }
      b0, b1 := DoDes(psbox, b0, b1, 1, 0, key);
      Unpack(block, 0, b0);
      assert block[..32] == block[0..0 + 32];
      Unpack(block, 32, b1);
      assert block[32..] == block[32..32 + 32] && block[..] == block[..32] + block[32..];
    }
  }

  method Pack(block: array<int>, from: nat) returns (b: nat)
    requires block.Length == 64 && (from == 0 || from == 32)
    ensures b == Packed(block[from..from + 32], 32)
  {
    hide BitOr, TwoTo;
    b := 0;
    var p, j := from, 31;
    ghost var s := block[from..from + 32];
    while j >= 0
      invariant -1 <= j <= 31 && p == from + 31 - j && b == Packed(s, 31 - j)
    {
      assert s[31 - j] == block[p];
      b := BitOr(b, block[p] % 2 * TwoTo(j));
      p, j := p + 1, j - 1;
    }
  }

  /** decrypt_key: the round keys in reverse order. */
  method Turned(ks: seq<RoundKey>) returns (rs: seq<RoundKey>)
    requires |ks| == 16 && KeysOk(ks)
    ensures rs == Reversed(ks) && KeysOk(rs)
  {
    hide KeyOk, Reversed;
    rs := [];
    var i := 0;
    while i < 16
      invariant 0 <= i <= 16 && |rs| == i
      invariant forall k :: 0 <= k < i ==> rs[k] == ks[15 - k]
    {
      rs := rs + [ks[15 - i]];
      i := i + 1;
    }
    forall k | 0 <= k < 16
      ensures rs[k] == Reversed(ks)[k]
    {
      ReversedAt(ks, k);
    }
  }

  method Unpack(block: array<int>, from: nat, b: nat)
    requires block.Length == 64 && (from == 0 || from == 32)
    modifies block
    ensures block[from..from + 32] == Unpacked(b)
    ensures from == 0 ==> block[32..] == old(block[32..])
    ensures from == 32 ==> block[..32] == old(block[..32])
  {
    hide LowBit;
    var p, j := from, 31;
    while j >= 0
      invariant -1 <= j <= 31 && p == from + 31 - j
      invariant forall k :: from <= k < p ==> block[k] == LowBit(b, 31 - (k - from))
      invariant forall k :: 0 <= k < 64 && !(from <= k < from + 32) ==> block[k] == old(block[k])
    {
      block[p] := LowBit(b, j);
      p, j := p + 1, j - 1;
    }
  }
}
