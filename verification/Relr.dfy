/**
 Packed relative relocations (DT_RELR): the two loops that apply them, and an
 encoder to hold them against.
 */
module Relr {
  import opened Words

  /** Memory as far as it matters here: the words at aligned offsets from the load address. */
  type Image = map<nat, nat>

  /** Bits of a bitmap entry that stand for words; the lowest marks it as a bitmap. */
  function Window(w: nat): nat
    requires w > 0
  {
    8 * w - 1
  }

  /** Bytes it covers. */
  function Skip(w: nat): nat
    requires w > 0
  {
    Times(Window(w), w)
  }

  // ---- what a stream means --------------------------------------------------------------------------

  /** The words that the bits of a bitmap select from `at` on. */
  function Selected(bits: nat, at: nat, w: nat): seq<nat>
    decreases bits
  {
    if bits == 0 then []
    else (if bits % 2 == 1 then [at] else []) + Selected(bits / 2, at + w, w)
  }

  /** An even entry names a word, an odd one selects from the words that follow. */
  function Decode(stream: seq<nat>, next: nat, w: nat): seq<nat>
    requires w > 0
    decreases |stream|
  {
    if stream == [] then []
    else if stream[0] % 2 == 0 then [stream[0]] + Decode(stream[1..], stream[0] + w, w)
    else Selected(stream[0] / 2, next, w) + Decode(stream[1..], next + Skip(w), w)
  }

  // ---- where the bitmaps of a run stand ---------------------------------------------------------------

  lemma {:induction false} SelectedHas(bits: nat, at: nat, w: nat, j: nat)
    requires Bit(bits, j)
    ensures at + w * j in Selected(bits, at, w)
    decreases j
  {
    hide Bit;
    BitStep(bits, j);
    BitOfPower(0, j);
    if j > 0 {
      SelectedHas(bits / 2, at + w, w, j - 1);
      assert at + w + w * (j - 1) == at + w * j;
    }
  }

  lemma {:induction false} SelectedOnly(bits: nat, at: nat, w: nat, x: nat) returns (j: nat)
    requires x in Selected(bits, at, w)
    ensures Bit(bits, j) && x == at + w * j
    decreases bits
  {
    hide Bit;
    if bits % 2 == 1 && x == at {
      j := 0;
      BitStep(bits, 0);
    } else {
      var k := SelectedOnly(bits / 2, at + w, w, x);
      j := k + 1;
      BitStep(bits, j);
      assert at + w + w * k == at + w * j;
    }
  }

  /** Bit j + 1 of the `i`th of a run of bitmaps stands for this word. */
  ghost predicate Names(bitmaps: seq<nat>, next: nat, w: nat, x: nat, i: nat, j: nat)
    requires w > 0
  {
    i < |bitmaps| && Bit(bitmaps[i], j + 1) && x == next + w * ((8 * w - 1) * i + j)
  }

  ghost predicate AllOdd(s: seq<nat>) {
    forall i :: 0 <= i < |s| ==> s[i] % 2 == 1
  }

  lemma Further(next: nat, w: nat, i: nat, j: nat)
    requires w > 0
    ensures next + Skip(w) + w * ((8 * w - 1) * i + j) == next + w * ((8 * w - 1) * (i + 1) + j)
  {
    var n := 8 * w - 1;
    assert n * (i + 1) == n * i + n;
    assert w * (n * i + n + j) == w * (n * i + j) + w * n;
  }

  lemma {:induction false} RunHas(bitmaps: seq<nat>, next: nat, w: nat, x: nat, i: nat, j: nat)
    requires w > 0 && AllOdd(bitmaps) && Names(bitmaps, next, w, x, i, j)
    ensures x in Decode(bitmaps, next, w)
    decreases i
  {
    hide Bit, Skip, Selected;
    if i == 0 {
      BitStep(bitmaps[0], j + 1);
      SelectedHas(bitmaps[0] / 2, next, w, j);
    } else {
      Further(next, w, i - 1, j);
      RunHas(bitmaps[1..], next + Skip(w), w, x, i - 1, j);
    }
  }

  lemma {:induction false} RunOnly(bitmaps: seq<nat>, next: nat, w: nat, x: nat) returns (i: nat, j: nat)
    requires w > 0 && AllOdd(bitmaps) && x in Decode(bitmaps, next, w)
    ensures Names(bitmaps, next, w, x, i, j)
    decreases |bitmaps|
  {
    hide Bit, Skip, Selected;
    if x in Selected(bitmaps[0] / 2, next, w) {
      i := 0;
      j := SelectedOnly(bitmaps[0] / 2, next, w, x);
      BitStep(bitmaps[0], j + 1);
    } else {
      var k;
      k, j := RunOnly(bitmaps[1..], next + Skip(w), w, x);
      i := k + 1;
      Further(next, w, k, j);
    }
  }

  ghost predicate Named(bitmaps: seq<nat>, next: nat, w: nat, x: nat)
    requires w > 0
  {
    exists i: nat, j: nat :: Names(bitmaps, next, w, x, i, j)
  }

  lemma RunNames(bitmaps: seq<nat>, next: nat, w: nat, x: nat)
    requires w > 0 && AllOdd(bitmaps)
    ensures x in Decode(bitmaps, next, w) <==> Named(bitmaps, next, w, x)
  {
    hide Names;
    if x in Decode(bitmaps, next, w) {
      var i, j := RunOnly(bitmaps, next, w, x);
    }
    if i: nat, j: nat :| Names(bitmaps, next, w, x, i, j) {
      RunHas(bitmaps, next, w, x, i, j);
    }
  }

  /** An address and the bitmaps behind it name the address, and the words whose bits are set: each bitmap stands for
      the 8w - 1 words behind those of the bitmap before it. */
  lemma BitmapsName(a: nat, bitmaps: seq<nat>, next: nat, w: nat, x: nat)
    requires w > 0 && a % 2 == 0 && AllOdd(bitmaps)
    ensures x in Decode([a] + bitmaps, next, w) <==> x == a || Named(bitmaps, a + w, w, x)
  {
    assert ([a] + bitmaps)[1..] == bitmaps;
    RunNames(bitmaps, a + w, w, x);
  }

  /** One word moved by the load address. */
  function Moved(m: Image, a: nat, base: nat, w: nat): (r: Image)
    ensures r.Keys == m.Keys
  {
    if a in m then m[a := Word(8 * w, m[a] + base)] else m
  }

  /** All of them, in order. */
  function MovedAll(m: Image, addrs: seq<nat>, base: nat, w: nat): (r: Image)
    ensures r.Keys == m.Keys
  {
    if addrs == [] then m else Moved(MovedAll(m, addrs[..|addrs| - 1], base, w), addrs[|addrs| - 1], base, w)
  }

  lemma {:induction false} MovedJoin(m: Image, s: seq<nat>, t: seq<nat>, base: nat, w: nat)
    ensures MovedAll(m, s + t, base, w) == MovedAll(MovedAll(m, s, base, w), t, base, w)
    decreases |t|
  {
    hide Moved;
    if t == [] {
      assert s + t == s;
    } else {
      var t' := t[..|t| - 1];
      assert (s + t)[..|s + t| - 1] == s + t';
      MovedJoin(m, s, t', base, w);
    }
  }

  lemma MovedOne(m: Image, a: nat, base: nat, w: nat)
    ensures MovedAll(m, [a], base, w) == Moved(m, a, base, w)
  {
    assert [a][..0] == [];
  }

  /** How often a word is named. */
  function Count(s: seq<nat>, a: nat): nat {
    if s == [] then 0 else Count(s[..|s| - 1], a) + (if s[|s| - 1] == a then 1 else 0)
  }

  /** A word is moved once for every time it is named, and other words stay. */
  lemma {:induction false} MovedAt(m: Image, addrs: seq<nat>, base: nat, w: nat, a: nat)
    requires a in m && m[a] < TwoTo(8 * w)
    ensures MovedAll(m, addrs, base, w)[a] == Word(8 * w, m[a] + Times(Count(addrs, a), base))
  {
    hide Times, TwoTo;
    if addrs == [] {
      DivUnique(m[a], TwoTo(8 * w), 0, m[a]);
      assert Times(0, base) == 0 by { NoTimes(base); }
    } else {
      var rest, last := addrs[..|addrs| - 1], addrs[|addrs| - 1];
      MovedAt(m, rest, base, w, a);
      assert addrs == rest + [last];
      var n := Count(rest, a);
      if last == a {
        OneMore(n, base);
        WordTwice(8 * w, m[a] + Times(n, base), base);
      }
    }
  }

  lemma NoTimes(b: nat)
    ensures Times(0, b) == 0
  {
  }

  lemma OneMore(n: nat, b: nat)
    ensures Times(n + 1, b) == Times(n, b) + b
  {
  }

  lemma WordTwice(k: nat, x: int, y: int)
    ensures Word(k, Word(k, x) + y) == Word(k, x + y)
  {
    var m := TwoTo(k);
    hide Rem;
    ModShift(x % m + y, m, x / m);
    RemWord(k, x % m + y);
    RemWord(k, x + y);
    assert x % m + y + m * (x / m) == x + y;
  }

  lemma RemWord(k: nat, x: int)
    ensures Rem(x, TwoTo(k)) == Word(k, x)
  {
  }

  ghost predicate Increasing(s: seq<nat>) {
    forall i, j :: 0 <= i < j < |s| ==> s[i] < s[j]
  }

  /** In a well-formed stream every word named is moved exactly once, and nothing else changes. */
  lemma MovedExactlyOnce(m: Image, addrs: seq<nat>, base: nat, w: nat, a: nat)
    requires Increasing(addrs) && a in m && m[a] < TwoTo(8 * w)
    ensures MovedAll(m, addrs, base, w)[a] == if a in addrs then Word(8 * w, m[a] + base) else m[a]
  {
    hide TwoTo, Word;
    MovedAt(m, addrs, base, w, a);
    CountOne(addrs, a);
    NoTimes(base);
    OneMore(0, base);
    assert Word(8 * w, m[a]) == m[a] by { WordSame(8 * w, m[a]); }
  }

  lemma WordSame(k: nat, x: nat)
    requires x < TwoTo(k)
    ensures Word(k, x) == x
  {
    DivUnique(x, TwoTo(k), 0, x);
  }

  lemma {:induction false} CountOne(s: seq<nat>, a: nat)
    requires Increasing(s)
    ensures Count(s, a) == if a in s then 1 else 0
  {
    if s != [] {
      var t := s[..|s| - 1];
      CountOne(t, a);
      assert s == t + [s[|s| - 1]];
      assert s[|s| - 1] !in t;
    }
  }

  // ---- the loops -------------------------------------------------------------------------------------------

  class Object {
    var words: Image

    constructor (words: Image)
      ensures this.words == words
    {
      this.words := words;
    }

    /** The inner loop: shift first, stop when no bits are left. */
    method MoveSelected(entry: nat, addr: nat, base: nat, w: nat)
      modifies this
      ensures words == MovedAll(old(words), Selected(entry / 2, addr, w), base, w)
    {
      hide Moved;
      var bitmap: nat, at: nat := entry / 2, addr;
      assert MovedAll(words, [], base, w) == words;
      while bitmap != 0
        invariant MovedAll(words, Selected(bitmap, at, w), base, w) == MovedAll(old(words), Selected(entry / 2, addr, w), base, w)
        decreases bitmap
      {
        SelectedStep(words, bitmap, at, base, w);
        if bitmap % 2 == 1 {
          words := Moved(words, at, base, w);
        }
        bitmap, at := bitmap / 2, at + w;
      }
    }

    /** do_relr_relocs; the dynamic linker itself has been relocated before. */
    method DoRelrRelocs(self: bool, relr: seq<nat>, base: nat, w: nat)
      requires w > 0 && (relr != [] ==> relr[0] % 2 == 0)
      modifies this
      ensures words == if self then old(words) else MovedAll(old(words), Decode(relr, 0, w), base, w)
    {
      hide Moved, MovedAll, Decode, Selected, Skip;
      if self {
        return;
      }
      var addr: nat, k := 0, 0;
      assert relr[0..] == relr;
      while k < |relr|
        invariant 0 <= k <= |relr|
        invariant MovedAll(words, Decode(relr[k..], addr, w), base, w) == MovedAll(old(words), Decode(relr, 0, w), base, w)
      {
        DecodeStep(words, relr, k, addr, base, w);
        if relr[k] % 2 == 0 {
          addr := relr[k];
          words := Moved(words, addr, base, w);
          addr := addr + w;
        } else {
          MoveSelected(relr[k], addr, base, w);
          addr := addr + Skip(w);
        }
        k := k + 1;
      }
      NothingLeft(words, relr[k..], addr, base, w);
    }

    /** The loop of _dlstart_c. */
    method StartRelocs(rel: seq<nat>, base: nat, w: nat)
      requires w > 0 && (rel != [] ==> rel[0] % 2 == 0)
      modifies this
      ensures words == MovedAll(old(words), Decode(rel, 0, w), base, w)
    {
      hide Moved, MovedAll, Decode, Selected, Skip;
      var relSize, relrAddr: nat, k := |rel| * w, 0, 0;
      assert rel[0..] == rel;
      while relSize != 0
        invariant 0 <= k <= |rel| && relSize == (|rel| - k) * w
        invariant MovedAll(words, Decode(rel[k..], relrAddr, w), base, w) == MovedAll(old(words), Decode(rel, 0, w), base, w)
        decreases |rel| - k
      {
        DecodeStep(words, rel, k, relrAddr, base, w);
        if rel[k] % 2 == 0 {
          words := Moved(words, rel[k], base, w);
          relrAddr := rel[k] + w;
        } else {
          MoveSelected(rel[k], relrAddr, base, w);
          relrAddr := relrAddr + Skip(w);
        }
        k, relSize := k + 1, relSize - w;
      }
      NothingLeft(words, rel[k..], relrAddr, base, w);
    }
  }

  lemma SelectedStep(m: Image, bits: nat, at: nat, base: nat, w: nat)
    requires bits != 0
    ensures MovedAll(m, Selected(bits, at, w), base, w) ==
            MovedAll(if bits % 2 == 1 then Moved(m, at, base, w) else m, Selected(bits / 2, at + w, w), base, w)
  {
    hide Moved, MovedAll;
    var rest := Selected(bits / 2, at + w, w);
    if bits % 2 == 1 {
      MovedJoin(m, [at], rest, base, w);
      MovedOne(m, at, base, w);
    } else {
      assert Selected(bits, at, w) == rest;
    }
  }

  lemma DecodeStep(m: Image, stream: seq<nat>, k: nat, next: nat, base: nat, w: nat)
    requires w > 0 && k < |stream|
    ensures var e := stream[k];
            MovedAll(m, Decode(stream[k..], next, w), base, w) ==
            if e % 2 == 0 then MovedAll(Moved(m, e, base, w), Decode(stream[k + 1..], e + w, w), base, w)
            else MovedAll(MovedAll(m, Selected(e / 2, next, w), base, w),
                          Decode(stream[k + 1..], next + Skip(w), w), base, w)
  {
    hide Moved, MovedAll, Selected, Skip;
    var e := stream[k];
    assert stream[k..][1..] == stream[k + 1..];
    if e % 2 == 0 {
      MovedJoin(m, [e], Decode(stream[k + 1..], e + w, w), base, w);
      MovedOne(m, e, base, w);
    } else {
      MovedJoin(m, Selected(e / 2, next, w), Decode(stream[k + 1..], next + Skip(w), w), base, w);
    }
  }

  lemma NothingLeft(m: Image, stream: seq<nat>, next: nat, base: nat, w: nat)
    requires w > 0 && stream == []
    ensures MovedAll(m, Decode(stream, next, w), base, w) == m
  {
  }

  // ---- encoding ----------------------------------------------------------------------------------------------

  /** The bits for those of `addrs` among the `k` words from `next` on. */
  function BitsOf(addrs: seq<nat>, next: nat, k: nat, w: nat): nat
    decreases k
  {
    if k == 0 then 0
    else if addrs != [] && addrs[0] == next then 1 + 2 * BitsOf(addrs[1..], next + w, k - 1, w)
    else 2 * BitsOf(addrs, next + w, k - 1, w)
  }

  /** The addresses past those words. */
  function Beyond(addrs: seq<nat>, next: nat, k: nat, w: nat): (r: seq<nat>)
    ensures |r| <= |addrs|
    decreases k
  {
    if k == 0 then addrs
    else if addrs != [] && addrs[0] == next then Beyond(addrs[1..], next + w, k - 1, w)
    else Beyond(addrs, next + w, k - 1, w)
  }

  /** The reference encoder: an address, then bitmaps for as long as they have any bits. */
  function Encode(addrs: seq<nat>, w: nat): seq<nat>
    requires w > 0
    decreases |addrs|, 1
  {
    if addrs == [] then [] else [addrs[0]] + EncodeFrom(addrs[1..], addrs[0] + w, w)
  }

  function EncodeFrom(addrs: seq<nat>, next: nat, w: nat): seq<nat>
    requires w > 0
    decreases |addrs|, 2
  {
    if addrs == [] then []
    else if |Beyond(addrs, next, Window(w), w)| == |addrs| then Encode(addrs, w)
    else [2 * BitsOf(addrs, next, Window(w), w) + 1]
         + EncodeFrom(Beyond(addrs, next, Window(w), w), next + Skip(w), w)
  }

  /** A window's bits select exactly the addresses taken out of it. */
  lemma {:induction false} WindowDecodes(addrs: seq<nat>, next: nat, k: nat, w: nat)
    requires w > 0
    ensures addrs == Selected(BitsOf(addrs, next, k, w), next, w) + Beyond(addrs, next, k, w)
    decreases k
  {
    if k > 0 {
      if addrs != [] && addrs[0] == next {
        var b := BitsOf(addrs[1..], next + w, k - 1, w);
        WindowDecodes(addrs[1..], next + w, k - 1, w);
        SelectedOdd(b, next, w);
        assert addrs == [next] + addrs[1..];
      } else {
        var b := BitsOf(addrs, next + w, k - 1, w);
        WindowDecodes(addrs, next + w, k - 1, w);
        SelectedEven(b, next, w);
      }
    }
  }

  lemma SelectedOdd(b: nat, at: nat, w: nat)
    ensures Selected(1 + 2 * b, at, w) == [at] + Selected(b, at + w, w)
  {
    assert (1 + 2 * b) / 2 == b;
  }

  lemma SelectedEven(b: nat, at: nat, w: nat)
    ensures Selected(2 * b, at, w) == Selected(b, at + w, w)
  {
    assert [] + Selected(b, at + w, w) == Selected(b, at + w, w);
  }

  lemma {:induction false} BitsSmall(addrs: seq<nat>, next: nat, k: nat, w: nat)
    ensures BitsOf(addrs, next, k, w) < TwoTo(k)
    decreases k
  {
    if k > 0 {
      if addrs != [] && addrs[0] == next {
        BitsSmall(addrs[1..], next + w, k - 1, w);
      } else {
        BitsSmall(addrs, next + w, k - 1, w);
      }
    }
  }

  /** Decoding undoes encoding, from whatever word the encoder says it is at. */
  lemma {:induction false} DecodeEncodeFrom(addrs: seq<nat>, next: nat, w: nat)
    requires w > 0 && Even(addrs)
    ensures Decode(EncodeFrom(addrs, next, w), next, w) == addrs
    decreases |addrs|, 2
  {
    hide Selected, Skip;
    if addrs != [] {
      var bits, rest := BitsOf(addrs, next, Window(w), w), Beyond(addrs, next, Window(w), w);
      if |rest| == |addrs| {
        DecodeEncode(addrs, next, w);
      } else {
        WindowDecodes(addrs, next, Window(w), w);
        assert Even(rest) by { assert forall i :: 0 <= i < |rest| ==> rest[i] == addrs[|addrs| - |rest| + i]; }
        DecodeEncodeFrom(rest, next + Skip(w), w);
        DecodeBitmap(bits, EncodeFrom(rest, next + Skip(w), w), next, w);
      }
    }
  }

  /** Decoding undoes encoding: any sequence of even addresses, in particular any set of aligned ones. */
  lemma {:induction false} DecodeEncode(addrs: seq<nat>, next: nat, w: nat)
    requires w > 0 && Even(addrs)
    ensures Decode(Encode(addrs, w), next, w) == addrs
    decreases |addrs|, 1
  {
    if addrs != [] {
      DecodeEncodeFrom(addrs[1..], addrs[0] + w, w);
      var rest := EncodeFrom(addrs[1..], addrs[0] + w, w);
      assert ([addrs[0]] + rest)[1..] == rest;
    }
  }

  lemma DecodeBitmap(bits: nat, rest: seq<nat>, next: nat, w: nat)
    requires w > 0
    ensures Decode([2 * bits + 1] + rest, next, w) == Selected(bits, next, w) + Decode(rest, next + Skip(w), w)
  {
    hide Selected, Skip;
    assert ([2 * bits + 1] + rest)[1..] == rest;
    assert (2 * bits + 1) / 2 == bits;
  }

  ghost predicate Even(addrs: seq<nat>) {
    forall i :: 0 <= i < |addrs| ==> addrs[i] % 2 == 0
  }
}
