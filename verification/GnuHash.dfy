/**
 Symbol lookup through the two hash sections of a DSO, and the search of a scope
 of DSOs.  A section is the array of 32-bit words it is in memory.
 */
module GnuHash {
  import opened Words

  datatype Option<+T> = None | Some(value: T)

  /** A C string: the bytes before the terminator. */
  type Name = seq<bv8>

  /** st_name resolved, st_shndx, st_value and st_info. */
  datatype Sym = Sym(name: Name, shndx: nat, value: nat, info: nat)

  /** The symbol table, DT_VERSYM if present, and the two hash sections, either of which may be absent. */
  datatype Lib = Lib(syms: seq<Sym>, versym: Option<seq<int>>, ghashtab: Option<seq<nat>>, hashtab: Option<seq<nat>>)

  // ---- the two hash functions --------------------------------------------------------------------

  const WORD: nat := 0x1_0000_0000

  function Code(c: bv8): (n: nat)
    ensures n < 256
  {
    c as nat
  }

  function Pow33(n: nat): nat {
    if n == 0 then 1 else 33 * Pow33(n - 1)
  }

  /** The bytes from place `i` on, each times 33 to the power of the number of bytes behind it. */
  function Weights(s: Name, i: nat): nat
    requires i <= |s|
    decreases |s| - i
  {
    if i == |s| then 0 else Code(s[i]) * Pow33(|s| - 1 - i) + Weights(s, i + 1)
  }

  /** The number in base 33 whose digits are the start value and all the bytes. */
  function Polynomial(s: Name): nat {
    5381 * Pow33(|s|) + Weights(s, 0)
  }

  lemma {:induction false} WeightsMore(s: Name, c: bv8, i: nat)
    requires i <= |s|
    ensures Weights(s + [c], i) == 33 * Weights(s, i) + Code(c)
    decreases |s| - i
  {
    hide Code;
    if i < |s| {
      WeightsMore(s, c, i + 1);
      OneMore(Code(s[i]), Pow33(|s| - 1 - i), Weights(s, i + 1));
    }
  }

  lemma OneMore(x: nat, p: nat, r: nat)
    ensures x * (33 * p) + 33 * r == 33 * (x * p + r)
  {
  }

  lemma PolynomialMore(s: Name, c: bv8)
    ensures Polynomial([]) == 5381 && Polynomial(s + [c]) == 33 * Polynomial(s) + Code(c)
  {
    hide Code;
    WeightsMore(s, c, 0);
  }

  /** gnu_hash as a step: the empty name hashes to 5381, and one more byte is added to 33 times the hash so far. */
  lemma GnuTakes(s: Name, c: bv8)
    ensures NameHash([]) == 5381
    ensures NameHash(s + [c]) == (33 * NameHash(s) + Code(c)) % WORD
  {
    hide Code, Polynomial;
    PolynomialMore(s, c);
    WrapStep(Polynomial(s), Code(c));
  }

  /** Wrapping around first makes no difference. */
  lemma WrapStep(n: nat, c: nat)
    ensures (33 * n + c) % WORD == (33 * (n % WORD) + c) % WORD
    ensures (n % WORD + (n % WORD * 32 % WORD + c)) % WORD == (33 * n + c) % WORD
  {
    var q, r := n / WORD, n % WORD;
    assert n == WORD * q + r;
    ModShift(33 * r + c, WORD, 33 * q);
    var t := r * 32 / WORD;
    assert r * 32 == WORD * t + r * 32 % WORD;
    ModShift(33 * r + c, WORD, -t);
  }

  /** Bits 28 to 31, in place and moved to bits 4 to 7. */
  function Top(h: bv32): bv32 {
    h & 0xf0000000
  }

  function Nibble(h: bv32): bv32 {
    (h >> 24) & 0xf0
  }

  /** The state with the next byte added. */
  function Push(h: bv32, c: bv8): bv32 {
    Sixteen(h) + c as bv32
  }

  function Sixteen(h: bv32): bv32 {
    16 * h
  }

  function Xor(h: bv32, x: bv32): bv32 {
    h ^ x
  }

  function Clear(h: bv32, g: bv32): bv32 {
    h & !g
  }

  /** One step of sysv_hash: bits 28 to 31 are folded into bits 4 to 7, and stay. */
  function SysvNext(h: bv32, c: bv8): bv32 {
    Xor(Push(h, c), Nibble(Push(h, c)))
  }

  function SysvHashFrom(h: bv32, s: Name): bv32
    decreases |s|
  {
    if s == [] then h else SysvHashFrom(SysvNext(h, s[0]), s[1..])
  }

  /** One step of elf_hash of the System V gABI: they are folded and cleared. */
  function ElfNext(h: bv32, c: bv8): bv32 {
    var h1 := (h << 4) + c as bv32;
    var g := Top(h1);
    Clear(if g != 0 then Xor(h1, g >> 24) else h1, g)
  }

  function ElfHashFrom(h: bv32, s: Name): bv32
    decreases |s|
  {
    if s == [] then h else ElfHashFrom(ElfNext(h, s[0]), s[1..])
  }

  /** The gABI's function takes every byte, in order. */
  lemma {:induction false} ElfTakes(h: bv32, s: Name, c: bv8)
    ensures ElfHashFrom(h, []) == h
    ensures ElfHashFrom(h, s + [c]) == ElfNext(ElfHashFrom(h, s), c)
    decreases |s|
  {
    hide ElfNext;
    if s == [] {
      assert s + [c] == [c] && [c][1..] == [];
    } else {
      assert (s + [c])[1..] == s[1..] + [c];
      ElfTakes(ElfNext(h, s[0]), s[1..], c);
    }
  }

  function Low28(h: bv32): bv32 {
    h & 0xfffffff
  }

  lemma TopMoved(h: bv32)
    ensures Top(h) >> 24 == Nibble(h)
  {
  }

  lemma FoldCleared(h: bv32)
    ensures Clear(Xor(h, Nibble(h)), Top(h)) == Low28(Xor(h, Nibble(h)))
  {
  }

  lemma NothingToFold(h: bv32)
    requires Top(h) == 0
    ensures Xor(h, Nibble(h)) == h
  {
    TopMoved(h);
  }

  lemma NibbleIs(h: bv32)
    ensures Nibble(h) == (h >> 28) << 4
  {
  }

  lemma LowOfFold(h: bv32)
    ensures Low28(Xor(h, Nibble(h))) == Xor(Low28(h), Nibble(h))
  {
  }

  /** A step of the gABI's function: 16 times the state plus the byte, of which the bits beyond 28 are folded into bits 4
      to 7. */
  lemma ElfStep(h: bv32, c: bv8)
    ensures var h1 := (h << 4) + c as bv32; ElfNext(h, c) == Xor(Low28(h1), (h1 >> 28) << 4)
  {
    hide Top, Nibble, Xor, Clear, Low28;
    var h1 := (h << 4) + c as bv32;
    TopMoved(h1);
    FoldCleared(h1);
    LowOfFold(h1);
    NibbleIs(h1);
    if Top(h1) == 0 {
      NothingToFold(h1);
    }
  }

  lemma ShiftedOut(h: bv32)
    ensures Sixteen(h) == Low28(h) << 4
  {
  }

  lemma Pushed(h: bv32, c: bv8)
    ensures Push(h, c) == (Low28(h) << 4) + c as bv32
  {
    hide Sixteen, Low28;
    ShiftedOut(h);
  }

  lemma StepsAlike(h: bv32, c: bv8)
    ensures Low28(SysvNext(h, c)) == ElfNext(Low28(h), c)
  {
    hide Top, Nibble, Xor, Clear, Low28, Push;
    var h1 := Push(h, c);
    Pushed(h, c);
    TopMoved(h1);
    FoldCleared(h1);
    if Top(h1) == 0 {
      NothingToFold(h1);
    }
  }

  /** Leaving the top bits in until the end makes no difference: the next step shifts them out. */
  lemma {:induction false} SysvIsElf(h: bv32, s: Name)
    ensures Low28(SysvHashFrom(h, s)) == ElfHashFrom(Low28(h), s)
    decreases |s|
  {
    hide SysvNext, ElfNext, Low28;
    if s == [] {
    } else {
      StepsAlike(h, s[0]);
      SysvIsElf(SysvNext(h, s[0]), s[1..]);
    }
  }

  /** gnu_hash: the polynomial of all the bytes, modulo 2^32. */
  method Gnu(s: Name) returns (h: nat)
    ensures h == Polynomial(s) % WORD
  {
    hide Code, Polynomial;
    h := 5381;
    var i := 0;
    PolynomialMore([], 0);
    assert s[..0] == [];
    while i < |s|
      invariant 0 <= i <= |s| && h == Polynomial(s[..i]) % WORD
    {
      assert s[..i + 1] == s[..i] + [s[i]];
      PolynomialMore(s[..i], s[i]);
      WrapStep(Polynomial(s[..i]), Code(s[i]));
      h := (h + (h * 32 % WORD + Code(s[i]))) % WORD;
      i := i + 1;
    }
    assert s[..i] == s;
  }

  /** sysv_hash is the gABI's function. */
  method Sysv(s: Name) returns (h: bv32)
    ensures h == ElfHashFrom(0, s)
  {
    hide SysvNext, ElfNext, Low28;
    h := 0;
    var i := 0;
    while i < |s|
      invariant 0 <= i <= |s| && SysvHashFrom(h, s[i..]) == SysvHashFrom(0, s)
    {
      assert s[i..][1..] == s[i + 1..];
      h := SysvNext(h, s[i]);
      i := i + 1;
    }
    SysvIsElf(0, s);
    assert Low28(0) == 0 by { LowZero(); }
    h := Low28(h);
  }

  lemma LowZero()
    ensures Low28(0) == 0
  {
  }

  // ---- what a lookup is for --------------------------------------------------------------------------

  /** The version does not hide symbol `i`. */
  predicate Visible(lib: Lib, i: nat)
    requires lib.versym.Some? ==> i < |lib.versym.value|
  {
    lib.versym.None? || lib.versym.value[i] >= 0
  }

  ghost predicate Matches(lib: Lib, i: int, name: Name) {
    0 <= i < |lib.syms| && (lib.versym.Some? ==> i < |lib.versym.value| && lib.versym.value[i] >= 0) && lib.syms[i].name == name
  }

  /** The first match of a linear scan from index `from` on. */
  ghost function Scan(lib: Lib, name: Name, from: nat): (r: Option<nat>)
    ensures r.Some? ==> from <= r.value < |lib.syms| && Matches(lib, r.value, name)
    ensures r.Some? ==> forall i :: from <= i < r.value ==> !Matches(lib, i, name)
    ensures r.None? ==> forall i :: from <= i ==> !Matches(lib, i, name)
    decreases |lib.syms| - from
  {
    if from >= |lib.syms| then None
    else if Matches(lib, from, name) then Some(from)
    else Scan(lib, name, from + 1)
  }

  lemma ScanIs(lib: Lib, name: Name, from: nat, i: nat)
    requires from <= i && Matches(lib, i, name) && forall k :: from <= k < i ==> !Matches(lib, k, name)
    ensures Scan(lib, name, from) == Some(i)
  {
  }

  ghost predicate HasVersions(lib: Lib) {
    lib.versym.Some? ==> |lib.syms| <= |lib.versym.value|
  }

  // ---- DT_GNU_HASH -------------------------------------------------------------------------------------

  /** A GNU hash section: number of buckets, first hashed symbol, filter size and shift, filter words (each of
      `wide` 32-bit words: 1 or 2), buckets, and a hash value for every hashed symbol. */
  datatype Section = Section(t: seq<nat>, wide: nat, n: nat) {

    predicate Shaped() {
      && wide > 0 && |t| >= 4 && t[0] > 0 && t[2] > 0 && 1 <= t[1] <= n
      && |t| >= Values() + (n - t[1])
    }

    function Buckets(): nat
      requires |t| >= 4
    {
      4 + Times(t[2], wide)
    }

    function Values(): nat
      requires |t| >= 4
    {
      Buckets() + t[0]
    }

    function Bucket(b: nat): nat
      requires Shaped() && b < t[0]
    {
      t[Buckets() + b]
    }

    function Value(i: nat): nat
      requires Shaped() && t[1] <= i < n
    {
      t[Values() + (i - t[1])]
    }

    /** Filter word `k`, read as a size_t. */
    function Filter(k: nat): nat
      requires Shaped() && k < t[2]
    {
      FilterInside(this, k);
      Wide(t[4 + Times(k, wide)..4 + Times(k, wide) + wide])
    }
  }

  /** The little-endian number of a sequence of 32-bit words. */
  function Wide(s: seq<nat>): nat {
    if s == [] then 0 else s[0] + 0x1_0000_0000 * Wide(s[1..])
  }

  lemma FilterInside(h: Section, k: nat)
    requires h.Shaped() && k < h.t[2]
    ensures 4 + Times(k, h.wide) + h.wide <= |h.t|
  {
    hide Times;
    TimesOrder(k, h.t[2] - k - 1, h.wide);
  }

  /** The GNU hash of symbol `i`'s name. */
  function HashOf(lib: Lib, i: nat): nat
    requires i < |lib.syms|
  {
    NameHash(lib.syms[i].name)
  }

  function NameHash(name: Name): nat {
    Polynomial(name) % WORD
  }

  ghost predicate InBucket(lib: Lib, h: Section, i: nat, b: int)
    requires h.Shaped()
  {
    i < |lib.syms| && HashOf(lib, i) % h.t[0] == b
  }

  /** The values are the hashes, except that the low bit marks the last symbol of a chain. */
  ghost predicate ValuesOk(lib: Lib, h: Section)
    requires h.Shaped() && h.n == |lib.syms|
  {
    forall i :: h.t[1] <= i < h.n ==>
      && h.Value(i) / 2 == HashOf(lib, i) / 2
      && (h.Value(i) % 2 == 1 <==> i + 1 == h.n || !InBucket(lib, h, i + 1, HashOf(lib, i) % h.t[0]))
  }

  /** Symbols of one bucket stand together, and the bucket names the first of them, or 0. */
  ghost predicate BucketsOk(lib: Lib, h: Section)
    requires h.Shaped() && h.n == |lib.syms|
  {
    && (forall i, j, b :: h.t[1] <= i < j < h.n && InBucket(lib, h, i, b) && InBucket(lib, h, j, b) ==> InBucket(lib, h, j - 1, b))
    && (forall b :: 0 <= b < h.t[0] ==>
          if h.Bucket(b) == 0 then forall i :: h.t[1] <= i < h.n ==> !InBucket(lib, h, i, b)
          else h.t[1] <= h.Bucket(b) < h.n && InBucket(lib, h, h.Bucket(b), b)
               && (h.Bucket(b) > h.t[1] ==> !InBucket(lib, h, h.Bucket(b) - 1, b)))
  }

  ghost predicate TableOk(lib: Lib, h: Section) {
    h.Shaped() && h.n == |lib.syms| && HasVersions(lib) && ValuesOk(lib, h) && BucketsOk(lib, h)
  }

  /** A bucket names its first symbol. */
  lemma StartIsFirst(lib: Lib, h: Section, b: nat, i: nat)
    requires TableOk(lib, h) && b < h.t[0] && h.t[1] <= i < h.n && InBucket(lib, h, i, b)
    ensures 0 < h.Bucket(b) <= i
  {
    hide InBucket, ValuesOk;
  }

  /** Past the end of its chain a bucket has no symbols. */
  lemma {:induction false} ChainEnds(lib: Lib, h: Section, b: nat, i: nat, j: nat)
    requires TableOk(lib, h) && h.t[1] <= i < j < h.n && InBucket(lib, h, i, b) && !InBucket(lib, h, i + 1, b)
    ensures !InBucket(lib, h, j, b)
  {
    hide InBucket, ValuesOk;
    if i + 1 < j {
      ChainEnds(lib, h, b, i, j - 1);
    }
  }

  lemma MatchHash(lib: Lib, h: Section, i: nat, name: Name)
    requires h.Shaped() && Matches(lib, i, name)
    ensures HashOf(lib, i) == NameHash(name) && InBucket(lib, h, i, NameHash(name) % h.t[0])
  {
  }

  /** Nothing before the bucket's first symbol matches. */
  lemma NoneBefore(lib: Lib, h: Section, name: Name, i: nat)
    requires TableOk(lib, h) && h.t[1] <= i < h.n
    requires var start := h.Bucket(NameHash(name) % h.t[0]); start == 0 || i < start
    ensures !Matches(lib, i, name)
  {
    hide ValuesOk, BucketsOk;
    var b := NameHash(name) % h.t[0];
    if Matches(lib, i, name) {
      MatchHash(lib, h, i, name);
      StartIsFirst(lib, h, b, i);
    }
  }

  /** gnu_lookup. */
  method GnuLookup(lib: Lib, h: Section, h1: nat, name: Name) returns (r: Option<nat>)
    requires TableOk(lib, h) && h1 == NameHash(name)
    ensures r == Scan(lib, name, h.t[1])
  {
    hide ValuesOk, BucketsOk, NameHash, InBucket, BitOr, Scan;
    ghost var b := h1 % h.t[0];
    var i := h.Bucket(h1 % h.t[0]);
    if i == 0 {
      forall k | h.t[1] <= k < h.n
        ensures !Matches(lib, k, name)
      {
        NoneBefore(lib, h, name, k);
      }
      return None;
    }
    StartInside(lib, h, b);
    forall k | h.t[1] <= k < i
      ensures !Matches(lib, k, name)
    {
      NoneBefore(lib, h, name, k);
    }
    var p := h.Values() + (i - h.t[1]);
    while true
      invariant h.t[1] <= i < h.n && InBucket(lib, h, i, b) && p == h.Values() + (i - h.t[1])
      invariant forall k :: h.t[1] <= k < i ==> !Matches(lib, k, name)
      decreases h.n - i
    {
      var h2 := h.t[p];
      p := p + 1;
      ValueAt(lib, h, i, b);
      LowBitSet(h1, h2);
      if BitOr(h1, 1) == BitOr(h2, 1) && Visible(lib, i) && lib.syms[i].name == name {
        ScanIs(lib, name, h.t[1], i);
        return Some(i);
      }
      NoMatch(lib, h, i, name);
      if h2 % 2 == 1 {
        break;
      }
      i := i + 1;
    }
    forall k | i < k < h.n
      ensures !Matches(lib, k, name)
    {
      PastEnd(lib, h, b, i, k, name);
    }
    return None;
  }

  lemma StartInside(lib: Lib, h: Section, b: nat)
    requires TableOk(lib, h) && b < h.t[0] && h.Bucket(b) != 0
    ensures h.t[1] <= h.Bucket(b) < h.n && InBucket(lib, h, h.Bucket(b), b)
  {
  }

  lemma ValueAt(lib: Lib, h: Section, i: nat, b: nat)
    requires TableOk(lib, h) && h.t[1] <= i < h.n && InBucket(lib, h, i, b)
    ensures h.Value(i) / 2 == HashOf(lib, i) / 2
    ensures h.Value(i) % 2 == 1 <==> i + 1 == h.n || !InBucket(lib, h, i + 1, b)
  {
    hide BucketsOk, NameHash;
  }

  lemma NoMatch(lib: Lib, h: Section, i: nat, name: Name)
    requires TableOk(lib, h) && h.t[1] <= i < h.n
    requires !(h.Value(i) / 2 == NameHash(name) / 2 && Visible(lib, i) && lib.syms[i].name == name)
    ensures !Matches(lib, i, name)
  {
    hide BucketsOk, NameHash;
  }

  lemma PastEnd(lib: Lib, h: Section, b: nat, i: nat, k: nat, name: Name)
    requires TableOk(lib, h) && h.t[1] <= i < k < h.n && InBucket(lib, h, i, b) && !InBucket(lib, h, i + 1, b)
    requires b == NameHash(name) % h.t[0]
    ensures !Matches(lib, k, name)
  {
    hide ValuesOk, BucketsOk, NameHash, InBucket;
    ChainEnds(lib, h, b, i, k);
    if Matches(lib, k, name) {
      MatchHash(lib, h, k, name);
    }
  }

  // ---- the filter ------------------------------------------------------------------------------------------

  /** Bits of a size_t. */
  function WordBits(h: Section): (bits: nat)
    ensures h.wide > 0 ==> bits > 0
  {
    32 * h.wide
  }

  /** Both filter bits of every hashed symbol are set. */
  ghost predicate FilterOk(lib: Lib, h: Section)
    requires h.Shaped() && h.n == |lib.syms|
  {
    PowerOfTwo(h.t[2]) && forall i :: h.t[1] <= i < h.n ==> Passes(h, HashOf(lib, i))
  }

  ghost predicate Passes(h: Section, hash: nat)
    requires h.Shaped()
  {
    var word := h.Filter(hash / WordBits(h) % h.t[2]);
    Bit(word, hash % WordBits(h)) && Bit(word, hash / TwoTo(h.t[3]) % WordBits(h))
  }

  /** gnu_lookup_filtered: the filter never turns a hashed name away.  `fofs` and `fmask` come from find_sym2. */
  method GnuLookupFiltered(lib: Lib, h: Section, h1: nat, name: Name, fofs: nat, fmask: nat) returns (r: Option<nat>)
    requires TableOk(lib, h) && FilterOk(lib, h) && h1 == NameHash(name)
    requires fofs == h1 / WordBits(h) && fmask == TwoTo(h1 % WordBits(h))
    ensures r == Scan(lib, name, h.t[1])
  {
    hide NameHash, BitAnd, Bit, TwoTo, ValuesOk, BucketsOk, Scan, Wide, Times;
    FilterIndex(h, fofs);
    var f := h.Filter(BitAnd(fofs, h.t[2] - 1));
    BitTest(f, h1 % WordBits(h));
    if BitAnd(f, fmask) == 0 {
      TurnedAway(lib, h, name);
      return None;
    }
    ShiftTest(f, h1 / TwoTo(h.t[3]) % WordBits(h));
    f := f / TwoTo(h1 / TwoTo(h.t[3]) % WordBits(h));
    if f % 2 == 0 {
      TurnedAway(lib, h, name);
      return None;
    }
    r := GnuLookup(lib, h, h1, name);
  }

  lemma FilterIndex(h: Section, x: nat)
    requires h.Shaped() && PowerOfTwo(h.t[2])
    ensures BitAnd(x, h.t[2] - 1) == x % h.t[2]
  {
    var k: nat :| h.t[2] == TwoTo(k);
    hide BitAnd, TwoTo;
    MaskLow(x, k);
  }

  lemma ShiftTest(f: nat, k: nat)
    ensures f / TwoTo(k) % 2 == 1 <==> Bit(f, k)
  {
  }

  lemma TurnedAway(lib: Lib, h: Section, name: Name)
    requires TableOk(lib, h) && FilterOk(lib, h) && !Passes(h, NameHash(name))
    ensures Scan(lib, name, h.t[1]) == None
  {
    hide NameHash, ValuesOk, BucketsOk, Passes;
    forall i | h.t[1] <= i < h.n
      ensures !Matches(lib, i, name)
    {
      assert Passes(h, HashOf(lib, i));
    }
  }

  // ---- DT_HASH ------------------------------------------------------------------------------------------------

  function Link(chain: seq<nat>, k: nat): nat {
    if k < |chain| then chain[k] else 0
  }

  function ElfHash(name: Name): nat {
    ElfHashFrom(0, name) as nat
  }

  /** A System V section: `chains` lists the symbols of each bucket as linked; every symbol but the first is on
      the chain of its hash. */
  ghost predicate SysvOk(lib: Lib, t: seq<nat>, chains: seq<seq<nat>>) {
    && |t| >= 2 && t[0] > 0 && t[1] == |lib.syms| && |t| >= 2 + t[0] + t[1] && |chains| == t[0] && HasVersions(lib)
    && (forall b :: 0 <= b < t[0] ==> ChainOk(t, chains[b], b))
    && (forall i :: 0 < i < |lib.syms| ==> i in chains[ElfHash(lib.syms[i].name) % t[0]])
  }

  ghost predicate ChainOk(t: seq<nat>, chain: seq<nat>, b: nat)
    requires |t| >= 2 && |t| >= 2 + t[0] + t[1] && b < t[0]
  {
    && t[2 + b] == Link(chain, 0)
    && forall k :: 0 <= k < |chain| ==> 0 < chain[k] < t[1] && t[2 + t[0] + chain[k]] == Link(chain, k + 1)
  }

  /** What a lookup in either section promises: a match if there is one. */
  ghost predicate Found(lib: Lib, name: Name, r: Option<nat>) {
    && (r.Some? ==> r.value > 0 && Matches(lib, r.value, name))
    && (r.None? ==> forall i :: 0 < i ==> !Matches(lib, i, name))
  }

  /** The first match along a chain. */
  ghost function FirstOn(lib: Lib, chain: seq<nat>, name: Name): Option<nat> {
    if chain == [] then None else if Matches(lib, chain[0], name) then Some(chain[0]) else FirstOn(lib, chain[1..], name)
  }

  lemma {:induction false} FirstOnIs(lib: Lib, chain: seq<nat>, name: Name, k: nat)
    requires k <= |chain| && forall m :: 0 <= m < k ==> !Matches(lib, chain[m], name)
    requires k < |chain| ==> Matches(lib, chain[k], name)
    ensures FirstOn(lib, chain, name) == if k < |chain| then Some(chain[k]) else None
  {
    if k > 0 {
      FirstOnIs(lib, chain[1..], name, k - 1);
    }
  }

  /** sysv_lookup: the first match along the chain of the name's hash, which is a match if there is one. */
  method SysvLookup(name: Name, h: nat, lib: Lib, t: seq<nat>, ghost chains: seq<seq<nat>>) returns (r: Option<nat>)
    requires SysvOk(lib, t, chains) && h == ElfHash(name)
    ensures Found(lib, name, r) && r == FirstOn(lib, chains[ElfHash(name) % t[0]], name)
  {
    hide ElfHash, SysvOk, ChainOk, FirstOn;
    SysvShape(lib, t, chains);
    var b := h % t[0];
    ghost var chain := chains[b];
    ghost var k := 0;
    ChainStep(lib, t, chains, b, 0);
    var i := t[2 + b];
    while i != 0
      invariant 0 <= k <= |chain| && i == Link(chain, k)
      invariant forall m :: 0 <= m < k ==> !Matches(lib, chain[m], name)
      decreases |chain| - k
    {
      ChainStep(lib, t, chains, b, k);
      if Visible(lib, i) && lib.syms[i].name == name {
        FirstOnIs(lib, chain, name, k);
        return Some(i);
      }
      i := t[2 + t[0] + i];
      k := k + 1;
    }
    assert k == |chain| by { ChainStep(lib, t, chains, b, k); }
    FirstOnIs(lib, chain, name, k);
    NotOnChain(lib, t, chains, name);
    return None;
  }

  lemma SysvShape(lib: Lib, t: seq<nat>, chains: seq<seq<nat>>)
    requires SysvOk(lib, t, chains)
    ensures |t| >= 2 && t[0] > 0 && t[1] == |lib.syms| && |t| >= 2 + t[0] + t[1] && |chains| == t[0] && HasVersions(lib)
  {
  }

  lemma ChainStep(lib: Lib, t: seq<nat>, chains: seq<seq<nat>>, b: nat, k: nat)
    requires SysvOk(lib, t, chains) && b < t[0]
    ensures t[2 + b] == Link(chains[b], 0)
    ensures k < |chains[b]| ==> 0 < chains[b][k] < t[1] && t[2 + t[0] + chains[b][k]] == Link(chains[b], k + 1)
  {
    assert ChainOk(t, chains[b], b);
  }

  lemma NotOnChain(lib: Lib, t: seq<nat>, chains: seq<seq<nat>>, name: Name)
    requires SysvOk(lib, t, chains)
    requires var chain := chains[ElfHash(name) % t[0]]; forall m :: 0 <= m < |chain| ==> !Matches(lib, chain[m], name)
    ensures Found(lib, name, None)
  {
    hide ElfHash, ChainOk;
    var chain := chains[ElfHash(name) % t[0]];
    forall j | 0 < j < |lib.syms|
      ensures !Matches(lib, j, name)
    {
      assert lib.syms[j].name == name ==> j in chain;
    }
  }

  /** With unique names, none of them below the first hashed symbol, both sections give the same answer. */
  lemma LookupsAgree(lib: Lib, h: Section, name: Name, gnu: Option<nat>, sysv: Option<nat>)
    requires TableOk(lib, h) && gnu == Scan(lib, name, h.t[1]) && Found(lib, name, sysv)
    requires forall i, j :: 0 < i < j && Matches(lib, i, name) ==> !Matches(lib, j, name)
    requires forall i :: 0 < i < h.t[1] ==> !Matches(lib, i, name)
    ensures gnu == sysv
  {
    hide ValuesOk, BucketsOk;
  }

  // ---- count_syms ------------------------------------------------------------------------------------------------

  /** Where one chain ends the next symbol, if any, starts another. */
  lemma NextStarts(lib: Lib, h: Section, i: nat, b: nat)
    requires TableOk(lib, h) && h.t[1] <= i && i + 1 < h.n && InBucket(lib, h, i, b) && !InBucket(lib, h, i + 1, b)
    ensures h.Bucket(HashOf(lib, i + 1) % h.t[0]) == i + 1
  {
    hide NameHash, ValuesOk;
    var b' := HashOf(lib, i + 1) % h.t[0];
    assert InBucket(lib, h, i + 1, b') && !InBucket(lib, h, i, b');
    StartIsFirst(lib, h, b', i + 1);
    StartInside(lib, h, b');
  }

  /** count_syms: the number of symbols from DT_HASH; else from DT_GNU_HASH, and then exactly if any symbol is hashed. */
  method CountSyms(lib: Lib, wide: nat, ghost chains: seq<seq<nat>>) returns (nsym: nat)
    requires if lib.hashtab.Some? then SysvOk(lib, lib.hashtab.value, chains)
             else lib.ghashtab.Some? && TableOk(lib, SectionOf(lib, wide))
    ensures nsym == |lib.syms| <==> lib.hashtab.Some? || lib.ghashtab.value[1] < |lib.syms|
    ensures nsym == |lib.syms| || nsym == 0
  {
    hide ValuesOk, BucketsOk, ChainOk;
    if lib.hashtab.Some? {
      nsym := lib.hashtab.value[1];
    } else {
      nsym := CountHashed(lib, SectionOf(lib, wide));
    }
  }

  /** Without DT_HASH: the number of symbols exactly when there are hashed ones; a table whose buckets are all empty
      gives 0, although the table then still has its first `t[1]` symbols. */
  method CountHashed(lib: Lib, h: Section) returns (nsym: nat)
    requires TableOk(lib, h)
    ensures nsym == |lib.syms| <==> exists b :: 0 <= b < h.t[0] && h.Bucket(b) != 0
    ensures nsym == if h.t[1] < h.n then |lib.syms| else 0
  {
    hide NameHash, ValuesOk, BucketsOk, InBucket, Times;
    var i := 0;
    nsym := 0;
    ghost var b := 0;
    while i < h.t[0]
      invariant 0 <= i <= h.t[0] && (nsym != 0 ==> 0 <= b < i && h.Bucket(b) == nsym)
      invariant forall k :: 0 <= k < i ==> h.Bucket(k) <= nsym
    {
      if h.Bucket(i) > nsym {
        nsym := h.Bucket(i);
        b := i;
      }
      i := i + 1;
    }
    if nsym != 0 {
      StartInside(lib, h, b);
      var p := h.Values() + (nsym - h.t[1]);
      ghost var start := nsym;
      var last := false;
      while !last
        invariant start <= nsym <= h.n && p == h.Values() + (nsym - h.t[1])
        invariant if last then nsym == h.n else nsym < h.n && InBucket(lib, h, nsym, b)
        decreases !last, h.n - nsym
      {
        ValueAt(lib, h, nsym, b);
        last := h.t[p] % 2 == 1;
        if last && nsym + 1 < h.n {
          NextStarts(lib, h, nsym, b);
          assert false;
        }
        nsym := nsym + 1;
        p := p + 1;
      }
    } else {
      AllEmpty(lib, h);
    }
  }

  lemma AllEmpty(lib: Lib, h: Section)
    requires TableOk(lib, h) && forall b :: 0 <= b < h.t[0] ==> h.Bucket(b) == 0
    ensures h.t[1] == h.n
  {
    hide NameHash, ValuesOk, Times;
    if h.t[1] < h.n {
      var b := HashOf(lib, h.t[1]) % h.t[0];
      assert InBucket(lib, h, h.t[1], b);
      StartIsFirst(lib, h, b, h.t[1]);
    }
  }

  /** Such a table: one bucket, empty, and the null symbol alone. */
  lemma NothingHashed()
    ensures var lib := Lib([Sym([], 0, 0, 0)], None, Some([1, 1, 1, 0, 0, 0]), None);
            var h := Section([1, 1, 1, 0, 0, 0], 1, 1);
            TableOk(lib, h) && h.t[1] == |lib.syms| == 1
  {
  }

  // ---- find_sym2 ---------------------------------------------------------------------------------------------------

  const OK_TYPES: nat := 103  // NOTYPE, OBJECT, FUNC, COMMON, TLS
  const OK_BINDS: nat := 1030 // GLOBAL, WEAK, GNU_UNIQUE
  const STT_TLS: nat := 6

  /** A definition another DSO may bind to. */
  predicate Acceptable(sym: Sym, needDef: bool) {
    var kind, bind := sym.info % 16, sym.info / 16;
    && kind in {0, 1, 2, 5, 6} && bind in {1, 2, 10}
    && (sym.shndx != 0 || (!needDef && kind != STT_TLS))
    && (sym.value != 0 || kind == STT_TLS)
  }

  lemma OkMask(mask: nat, k: nat)
    requires k < 16
    ensures BitAnd(TwoTo(k), mask) != 0 <==> Bit(mask, k)
  {
    hide BitAnd, Bit;
    BitAndSwap(TwoTo(k), mask);
    BitTest(mask, k);
  }

  lemma OkTypes(k: nat)
    requires k < 16
    ensures Bit(OK_TYPES, k) <==> k in {0, 1, 2, 5, 6}
  {
    if k >= 7 {
      assert TwoTo(7) == 128;
      TwoToMonotone(7, k);
      DivUnique(OK_TYPES, TwoTo(k), 0, OK_TYPES);
    } else {
      assert TwoTo(1) == 2 && TwoTo(2) == 4 && TwoTo(3) == 8 && TwoTo(4) == 16 && TwoTo(5) == 32 && TwoTo(6) == 64;
    }
  }

  lemma OkBinds(k: nat)
    requires k < 16
    ensures Bit(OK_BINDS, k) <==> k in {1, 2, 10}
  {
    if k >= 11 {
      assert TwoTo(6) == 64 && TwoTo(11) == 2048;
      TwoToMonotone(11, k);
      DivUnique(OK_BINDS, TwoTo(k), 0, OK_BINDS);
    } else {
      assert TwoTo(1) == 2 && TwoTo(2) == 4 && TwoTo(3) == 8 && TwoTo(4) == 16 && TwoTo(5) == 32 && TwoTo(6) == 64;
      assert TwoTo(7) == 128 && TwoTo(8) == 256 && TwoTo(9) == 512 && TwoTo(10) == 1024;
    }
  }

  /** The branches of find_sym2 that pass a symbol over. */
  method Accepts(sym: Sym, needDef: bool) returns (ok: bool)
    requires sym.info < 256
    ensures ok <==> Acceptable(sym, needDef)
  {
    hide BitAnd, Bit, TwoTo;
    OkMask(OK_TYPES, sym.info % 16);
    OkTypes(sym.info % 16);
    OkMask(OK_BINDS, sym.info / 16);
    OkBinds(sym.info / 16);
    if sym.shndx == 0 {
      if needDef || sym.info % 16 == STT_TLS {
        return false;
      }
    }
    if sym.value == 0 {
      if sym.info % 16 != STT_TLS {
        return false;
      }
    }
    if BitAnd(TwoTo(sym.info % 16), OK_TYPES) == 0 {
      return false;
    }
    if BitAnd(TwoTo(sym.info / 16), OK_BINDS) == 0 {
      return false;
    }
    return true;
  }

  function SectionOf(lib: Lib, wide: nat): Section
    requires lib.ghashtab.Some?
  {
    Section(lib.ghashtab.value, wide, |lib.syms|)
  }

  /** A DSO has a well-formed GNU section, or else a well-formed System V one. */
  ghost predicate LibOk(lib: Lib, wide: nat, chains: seq<seq<nat>>) {
    && (forall i :: 0 <= i < |lib.syms| ==> lib.syms[i].info < 256)
    && if lib.ghashtab.Some? then TableOk(lib, SectionOf(lib, wide)) && FilterOk(lib, SectionOf(lib, wide))
       else lib.hashtab.Some? && SysvOk(lib, lib.hashtab.value, chains)
  }

  /** What looking `name` up in one DSO answers: the first match among the hashed symbols, or along the chain. */
  ghost function Answer(lib: Lib, wide: nat, name: Name, chains: seq<seq<nat>>): Option<nat>
    requires LibOk(lib, wide, chains)
  {
    if lib.ghashtab.Some? then Scan(lib, name, lib.ghashtab.value[1])
    else FirstOn(lib, chains[ElfHash(name) % lib.hashtab.value[0]], name)
  }

  /** A DSO settles the search if its answer is acceptable. */
  ghost predicate Resolves(lib: Lib, wide: nat, name: Name, needDef: bool, chains: seq<seq<nat>>)
    requires LibOk(lib, wide, chains)
  {
    var r := Answer(lib, wide, name, chains);
    r.Some? && r.value < |lib.syms| && Acceptable(lib.syms[r.value], needDef)
  }

  method HashName(name: Name) returns (hash: nat)
    ensures hash == NameHash(name)
  {
    hash := Gnu(name);
  }

  method SysvHashName(name: Name) returns (hash: nat)
    ensures hash == ElfHash(name)
  {
    var h := Sysv(name);
    hash := h as nat;
  }

  method Lookup(lib: Lib, wide: nat, name: Name, ghost chains: seq<seq<nat>>) returns (r: Option<nat>)
    requires LibOk(lib, wide, chains) && wide > 0
    ensures r == Answer(lib, wide, name, chains) && (r.Some? ==> r.value < |lib.syms|)
  {
    hide TableOk, FilterOk, SysvOk, Scan, TwoTo, NameHash, ElfHash, WordBits, Times, Found, FirstOn;
    if lib.ghashtab.Some? {
      var h := SectionOf(lib, wide);
      Shape(lib, h);
      var hash := HashName(name);
      r := GnuLookupFiltered(lib, h, hash, name, hash / WordBits(h), TwoTo(hash % WordBits(h)));
      ScanInside(lib, name, h.t[1]);
    } else {
      var hash := SysvHashName(name);
      r := SysvLookup(name, hash, lib, lib.hashtab.value, chains);
      FoundInside(lib, name, r);
    }
  }

  lemma Shape(lib: Lib, h: Section)
    requires TableOk(lib, h)
    ensures h.Shaped() && h.n == |lib.syms|
  {
  }

  /** find_sym2: the first usable answer along the scope. */
  method FindSym(scope: seq<Lib>, wide: nat, name: Name, needDef: bool, ghost chains: seq<seq<seq<nat>>>)
    returns (def: Option<(nat, nat)>)
    requires wide > 0 && |chains| == |scope| && forall k :: 0 <= k < |scope| ==> LibOk(scope[k], wide, chains[k])
    ensures def.None? ==> forall k :: 0 <= k < |scope| ==> !Resolves(scope[k], wide, name, needDef, chains[k])
    ensures def.Some? ==> var (k, i) := def.value;
              && k < |scope| && Resolves(scope[k], wide, name, needDef, chains[k])
              && Answer(scope[k], wide, name, chains[k]) == Some(i)
              && forall j :: 0 <= j < k ==> !Resolves(scope[j], wide, name, needDef, chains[j])
  {
    hide LibOk, Answer, Acceptable;
    var k := 0;
    while k < |scope|
      invariant 0 <= k <= |scope|
      invariant forall j :: 0 <= j < k ==> !Resolves(scope[j], wide, name, needDef, chains[j])
    {
      var r := Lookup(scope[k], wide, name, chains[k]);
      if r.Some? {
        InfoSmall(scope[k], wide, chains[k], r.value);
        var ok := Accepts(scope[k].syms[r.value], needDef);
        if ok {
          return Some((k, r.value));
        }
      }
      k := k + 1;
    }
    return None;
  }

  lemma ScanInside(lib: Lib, name: Name, from: nat)
    ensures Scan(lib, name, from).Some? ==> Scan(lib, name, from).value < |lib.syms|
  {
  }

  lemma FoundInside(lib: Lib, name: Name, r: Option<nat>)
    requires Found(lib, name, r)
    ensures r.Some? ==> r.value < |lib.syms|
  {
  }

  lemma InfoSmall(lib: Lib, wide: nat, chains: seq<seq<nat>>, i: nat)
    requires LibOk(lib, wide, chains) && i < |lib.syms|
    ensures lib.syms[i].info < 256
  {
  }
}
