/**
 Byte-addressed memory: what a store leaves readable where, and words as
 little-endian byte strings.
 */
module Memory {
  import opened Words

  type Byte = x: int | 0 <= x < 256

  type Cells = map<nat, Byte>

  /** Every byte from `at` on, `n` of them, exists. */
  ghost predicate Mapped(m: Cells, at: nat, n: nat) {
    forall a :: at <= a < at + n ==> a in m
  }

  ghost predicate Apart(at: int, n: int, at': int, n': int) {
    at + n <= at' || at' + n' <= at
  }

  function Get(m: Cells, at: nat, n: nat): (s: seq<Byte>)
    requires Mapped(m, at, n)
    ensures |s| == n
  {
    seq(n, i requires 0 <= i < n => m[at + i])
  }

  function Put(m: Cells, at: nat, s: seq<Byte>): (r: Cells)
    ensures r.Keys == m.Keys
  {
    map a | a in m :: if at <= a < at + |s| then s[a - at] else m[a]
  }

  lemma GetPut(m: Cells, at: nat, s: seq<Byte>)
    requires Mapped(m, at, |s|)
    ensures Mapped(Put(m, at, s), at, |s|) && Get(Put(m, at, s), at, |s|) == s
  {
  }

  lemma GetPutApart(m: Cells, at: nat, s: seq<Byte>, at': nat, n: nat)
    requires Mapped(m, at', n) && Apart(at, |s|, at', n)
    ensures Mapped(Put(m, at, s), at', n) && Get(Put(m, at, s), at', n) == Get(m, at', n)
  {
  }

  /** A part of what was copied. */
  lemma GetPutPart(m: Cells, at: nat, from: nat, n: nat, off: nat, k: nat)
    requires Mapped(m, at, n) && Mapped(m, from, n) && off + k <= n
    ensures Mapped(Put(m, at, Get(m, from, n)), at + off, k) && Mapped(m, from + off, k)
    ensures Get(Put(m, at, Get(m, from, n)), at + off, k) == Get(m, from + off, k)
  {
  }

  lemma PutAt(m: Cells, at: nat, s: seq<Byte>, a: nat)
    requires a in m && (a < at || at + |s| <= a)
    ensures Put(m, at, s)[a] == m[a]
  {
  }

  lemma MappedInside(m: Cells, at: nat, n: nat, at': nat, n': nat)
    requires Mapped(m, at, n) && at <= at' && at' + n' <= at + n
    ensures Mapped(m, at', n')
  {
  }

  lemma MappedKeys(m: Cells, m': Cells, at: nat, n: nat)
    requires Mapped(m, at, n) && m.Keys == m'.Keys
    ensures Mapped(m', at, n)
  {
  }

  /** `n` bytes of a word, least significant first. */
  function BytesOf(v: nat, n: nat): (s: seq<Byte>)
    ensures |s| == n
  {
    if n == 0 then [] else [v % 256] + BytesOf(v / 256, n - 1)
  }

  function WordOf(s: seq<Byte>): nat {
    if s == [] then 0 else s[0] + 256 * WordOf(s[1..])
  }

  lemma {:induction false} WordOfBytes(v: nat, n: nat)
    requires v < TwoTo(8 * n)
    ensures WordOf(BytesOf(v, n)) == v
  {
    if n == 0 {
    } else {
      TwoToEight(8 * n - 8);
      WordOfBytes(v / 256, n - 1);
      assert BytesOf(v, n)[1..] == BytesOf(v / 256, n - 1);
    }
  }

  lemma TwoToEight(n: nat)
    ensures TwoTo(n + 8) == 256 * TwoTo(n)
  {
    TwoToAdd(n, 8);
    assert TwoTo(4) == 16 && TwoTo(8) == 256;
  }

  /** The word of `n` bytes at `at`. */
  function Load(m: Cells, at: nat, n: nat): nat
    requires Mapped(m, at, n)
  {
    WordOf(Get(m, at, n))
  }

  /** An address space that is stored into. */
  class Space {
    var cells: Cells

    constructor (cells: Cells)
      ensures this.cells == cells
    {
      this.cells := cells;
    }

    method Store(at: nat, v: nat, n: nat)
      requires Mapped(cells, at, n)
      modifies this
      ensures cells == Put(old(cells), at, BytesOf(v, n))
    {
      cells := Put(cells, at, BytesOf(v, n));
    }

    /** memcpy. */
    method Copy(to: nat, from: nat, n: nat)
      requires Mapped(cells, to, n) && Mapped(cells, from, n)
      modifies this
      ensures cells == Put(old(cells), to, Get(old(cells), from, n))
    {
      cells := Put(cells, to, Get(cells, from, n));
    }
  }

  lemma LoadPut(m: Cells, at: nat, v: nat, n: nat)
    requires Mapped(m, at, n) && v < TwoTo(8 * n)
    ensures Mapped(Put(m, at, BytesOf(v, n)), at, n) && Load(Put(m, at, BytesOf(v, n)), at, n) == v
  {
    GetPut(m, at, BytesOf(v, n));
    WordOfBytes(v, n);
  }
}
