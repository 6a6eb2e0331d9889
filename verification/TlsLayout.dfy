/**
 Where the thread-local blocks of a set of modules go: the offsets the loader
 hands out below the thread pointer, the size it reserves per thread, and the
 set-up of a new thread's area.
 */
module TlsLayout {
  import opened Words
  import opened Memory

  /** sizeof(void *), sizeof(struct pthread) and MIN_TLS_ALIGN. */
  datatype Machine = Machine(word: nat, pthread: nat, minAlign: nat) {

    function Bits(): nat {
      8 * word
    }

    ghost predicate Ok() {
      word > 0 && PowerOfTwo(minAlign) && minAlign < TwoTo(Bits())
    }
  }

  /** A module's initial image and where its block goes: `offset` below the thread pointer. */
  datatype Module = Module(image: nat, len: nat, size: nat, align: nat, offset: nat)

  // ---- the arithmetic as the code does it -----------------------------------------------------

  function Maxp2(w: nat, a: nat, b: nat): nat {
    Word(w, 0 - BitAnd(Word(w, 0 - a), Word(w, 0 - b)))
  }

  function AlignUp(w: nat, x: nat, y: nat): nat {
    BitAnd(Word(w, x + y - 1), Word(w, 0 - y))
  }

  /** The offset of a module loaded on top of `top` bytes of other blocks. */
  function NextOffset(w: nat, top: nat, image: nat, size: nat, align: nat): nat {
    var t := Word(w, top + size + align - 1);
    Word(w, t - BitAnd(Word(w, t + image), Word(w, align - 1)))
  }

  /** The application's. */
  function AppOffset(w: nat, image: nat, size: nat, align: nat): nat {
    Word(w, size + BitAnd(Word(w, -(image + size)), Word(w, align - 1)))
  }

  function ThreadAt(w: nat, base: nat, size: nat, pthread: nat, align: nat): nat {
    var t := Word(w, base + size - pthread);
    Word(w, t - BitAnd(t, Word(w, align - 1)))
  }

  // ---- what it computes --------------------------------------------------------------------------

  lemma WordIs(w: nat, x: int)
    requires 0 <= x < TwoTo(w)
    ensures Word(w, x) == x
  {
    DivUnique(x, TwoTo(w), 0, x);
  }

  lemma WordNegated(w: nat, x: int)
    requires 0 < x < TwoTo(w)
    ensures Word(w, -x) == TwoTo(w) - x
  {
    var m := TwoTo(w);
    DivUnique(-x, m, -1, m - x);
  }

  lemma BelowWord(k: nat, w: nat)
    requires TwoTo(k) < TwoTo(w)
    ensures k < w
  {
    if w <= k {
      TwoToMonotone(w, k);
    }
  }

  /** Wrapping around does not disturb remainders by a power of two. */
  lemma WordMod(w: nat, x: int, k: nat)
    requires k <= w
    ensures Rem(Word(w, x), TwoTo(k)) == Rem(x, TwoTo(k))
  {
    hide TwoTo, Rem;
    var a, b := TwoTo(k), TwoTo(w - k);
    TwoToAdd(k, w - k);
    WrapMod(x, a, b);
  }

  /** Masking a wrapped word with align - 1. */
  lemma MaskWord(w: nat, x: int, align: int)
    requires PowerOfTwo(align) && align < TwoTo(w)
    ensures BitAnd(Word(w, x), Word(w, align - 1)) == Rem(x, align)
  {
    hide BitAnd, TwoTo, Word, Rem;
    var k: nat :| align == TwoTo(k);
    BelowWord(k, w);
    WordIs(w, align - 1);
    MaskLow(Word(w, x), k);
    WordMod(w, x, k);
  }

  lemma Maxp2IsMax(w: nat, a: int, b: int)
    requires PowerOfTwo(a) && PowerOfTwo(b) && a < TwoTo(w) && b < TwoTo(w)
    ensures Maxp2(w, a, b) == if a < b then b else a
  {
    hide BitAnd, TwoTo, Word, Rem;
    var i: nat :| a == TwoTo(i);
    var j: nat :| b == TwoTo(j);
    BelowWord(i, w);
    BelowWord(j, w);
    var m := TwoTo(w);
    WordNegated(w, a);
    WordNegated(w, b);
    MaskHigh(m - a, w, j, m - b);
    TwoToMonotone(j, w);
    if j <= i {
      TwoToMonotone(j, i);
      RemDifference(m, a, b);
      WordNegated(w, m - a);
    } else {
      TwoToMonotone(i, j);
      RemBelow(m, a, b);
      WordNegated(w, m - b);
    }
  }

  lemma RemDifference(x: int, y: int, m: int)
    requires m > 0 && Rem(x, m) == 0 && Rem(y, m) == 0
    ensures Rem(x - y, m) == 0
  {
    hide Rem;
    var p := RemQuotient(x, m);
    var q := RemQuotient(y, m);
    assert x - y == m * (p - q) + 0;
    RemIs(x - y, m, p - q, 0);
  }

  lemma RemBelow(x: int, y: int, m: int)
    requires 0 < y <= m && Rem(x, m) == 0
    ensures y < m ==> Rem(x - y, m) == m - y
    ensures y == m ==> Rem(x - y, m) == 0
  {
    hide Rem;
    var p := RemQuotient(x, m);
    assert x - y == m * (p - 1) + (m - y);
    if y < m {
      RemIs(x - y, m, p - 1, m - y);
    } else {
      RemIs(x - y, m, p - 1, 0);
    }
  }

  lemma RemOff(t: int, m: int)
    requires m > 0
    ensures Rem(t - Rem(t, m), m) == 0
  {
    hide Rem;
    var a := RemQuotient(t, m);
    RemIs(t - Rem(t, m), m, a, 0);
  }

  lemma AlignUpFacts(w: nat, x: nat, y: int)
    requires PowerOfTwo(y) && x + y - 1 < TwoTo(w) && y < TwoTo(w)
    ensures x <= AlignUp(w, x, y) < x + y && Rem(AlignUp(w, x, y), y) == 0
  {
    hide BitAnd, TwoTo, Word, Rem;
    var k: nat :| y == TwoTo(k);
    BelowWord(k, w);
    var t := x + y - 1;
    WordIs(w, t);
    WordNegated(w, y);
    MaskHigh(t, w, k, TwoTo(w) - y);
    RemOff(t, y);
  }

  /** The least r from `lo` on with r + image divisible by `align`. */
  ghost predicate Least(r: int, lo: int, image: int, align: int)
    requires align > 0
  {
    lo <= r < lo + align && Rem(r + image, align) == 0
  }

  lemma LeastIsLeast(r: int, lo: int, image: int, align: int, s: int)
    requires align > 0 && Least(r, lo, image, align) && lo <= s && Rem(s + image, align) == 0
    ensures r <= s
  {
    hide Rem;
    var p := RemQuotient(r + image, align);
    var q := RemQuotient(s + image, align);
    assert align * (q - p) == s - r;
    MultipleAbove(align, q - p);
  }

  lemma NextOffsetLeast(w: nat, top: nat, image: nat, size: nat, align: nat)
    requires PowerOfTwo(align) && align < TwoTo(w) && top + size + align - 1 < TwoTo(w)
    ensures Least(NextOffset(w, top, image, size, align), top + size, image, align)
  {
    hide BitAnd, TwoTo, Word, Rem;
    var t := top + size + align - 1;
    WordIs(w, t);
    MaskWord(w, t + image, align);
    var d := Rem(t + image, align);
    WordIs(w, t - d);
    RemOff(t + image, align);
    assert t - d + image == t + image - d;
  }

  lemma AppOffsetLeast(w: nat, image: nat, size: nat, align: nat)
    requires PowerOfTwo(align) && align < TwoTo(w) && size + align - 1 < TwoTo(w)
    ensures Least(AppOffset(w, image, size, align), size, image, align)
  {
    hide BitAnd, TwoTo, Word, Rem;
    var n := -(image + size);
    MaskWord(w, n, align);
    var d := Rem(n, align);
    WordIs(w, size + d);
    RemOff(n, align);
    RemIs(0, align, 0, 0);
    RemDifference(0, n - d, align);
    assert size + d + image == 0 - (n - d);
  }

  /** Loading the application is like loading any module first. */
  lemma AppIsFirst(w: nat, image: nat, size: nat, align: nat)
    requires PowerOfTwo(align) && align < TwoTo(w) && size + align - 1 < TwoTo(w)
    ensures AppOffset(w, image, size, align) == NextOffset(w, 0, image, size, align)
  {
    hide AppOffset, NextOffset, Rem;
    AppOffsetLeast(w, image, size, align);
    NextOffsetLeast(w, 0, image, size, align);
    var r, s := AppOffset(w, image, size, align), NextOffset(w, 0, image, size, align);
    LeastIsLeast(r, size, image, align, s);
    LeastIsLeast(s, size, image, align, r);
  }

  lemma ThreadAtFacts(w: nat, base: nat, size: nat, pthread: nat, align: nat)
    requires PowerOfTwo(align) && align < TwoTo(w) && base + size <= TwoTo(w) && align - 1 + pthread <= base + size
    requires pthread > 0
    ensures var td := ThreadAt(w, base, size, pthread, align);
            base + size - pthread - align < td <= base + size - pthread && Rem(td, align) == 0
  {
    hide BitAnd, TwoTo, Word, Rem;
    var t := base + size - pthread;
    WordIs(w, t);
    MaskWord(w, t, align);
    WordIs(w, t - Rem(t, align));
    RemOff(t, align);
  }

  // ---- alignment 0 ------------------------------------------------------------------------------

  /** The mask of alignment 0 is all ones. */
  lemma MaskOnes(w: nat, x: int)
    ensures BitAnd(Word(w, x), Word(w, -1)) == Word(w, x)
  {
    hide BitAnd, TwoTo, Rem, Word;
    assert Word(w, -1) == TwoTo(w) - 1 by {
      if w == 0 {
        WordRange(0, -1);
      } else {
        WordNegated(w, 1) by { TwoToMonotone(1, w); TwoToOne(); }
      }
    }
    MaskLow(Word(w, x), w);
    RemIs(Word(w, x), TwoTo(w), 0, Word(w, x));
  }

  lemma WordRange(w: nat, x: int)
    ensures 0 <= Word(w, x) < TwoTo(w) && (w == 0 ==> TwoTo(w) == 1)
  {
  }

  lemma TwoToOne()
    ensures TwoTo(1) == 2
  {
  }

  /** Wrapping twice is wrapping once. */
  lemma WordTwice(w: nat, x: int, y: int)
    ensures Word(w, Word(w, x) - Word(w, y)) == Word(w, x - y) && Word(w, x + Word(w, y)) == Word(w, x + y)
  {
    hide TwoTo, Rem, Word;
    var m := TwoTo(w);
    var p := RemQuotient(x, m);
    var q := RemQuotient(y, m);
    RemIsWord(w, x);
    RemIsWord(w, y);
    RemIsWord(w, x - y);
    RemIsWord(w, x + y);
    RemIsWord(w, Rem(x, m) - Rem(y, m));
    RemIsWord(w, x + Rem(y, m));
    assert m * (q - p) == m * q - m * p && m * (-q) == -(m * q);
    ModShift(x - y, m, q - p);
    ModShift(x + y, m, -q);
    assert x - y + m * (q - p) == Rem(x, m) - Rem(y, m) && x + y + m * (-q) == x + Rem(y, m);
  }

  lemma RemIsWord(w: nat, x: int)
    ensures Word(w, x) == Rem(x, TwoTo(w))
  {
  }

  /** A header with alignment 0 puts a module minus its image below the thread pointer, whatever its size. */
  lemma ZeroAlignOffset(w: nat, top: nat, image: nat, size: nat)
    ensures NextOffset(w, top, image, size, 0) == Word(w, 0 - image)
    ensures AppOffset(w, image, size, 0) == Word(w, 0 - image)
  {
    hide BitAnd, TwoTo, Word;
    var t := Word(w, top + size - 1);
    MaskOnes(w, t + image);
    WordTwice(w, 0, t + image);
    WordTwice(w, t, t + image);
    WordIs(w, t);
    assert t - (t + image) == 0 - image;
    MaskOnes(w, -(image + size));
    WordTwice(w, size, -(image + size));
    assert size + -(image + size) == 0 - image;
  }

  /** The alignment of all modules becomes 0 and stays so; then no size is published and the thread structure goes to
      address 0. */
  lemma ZeroAlign(w: nat, a: nat, x: nat)
    ensures Maxp2(w, a, 0) == 0 && Maxp2(w, 0, a) == 0
    ensures AlignUp(w, x, 0) == 0
    ensures forall base: nat, size: nat, pthread: nat :: ThreadAt(w, base, size, pthread, 0) == 0
  {
    hide TwoTo, Word;
    WordZero(w);
    forall base: nat, size: nat, pthread: nat
      ensures ThreadAt(w, base, size, pthread, 0) == 0
    {
      MaskOnes(w, base + size - pthread);
    }
  }

  lemma WordZero(w: nat)
    ensures Word(w, 0) == 0
  {
  }

  // ---- a laid-out list of modules ----------------------------------------------------------------

  /** The offset the module at place `i` is stacked on. */
  function Below(ms: seq<Module>, i: nat): nat
    requires i <= |ms|
  {
    if i == 0 then 0 else ms[i - 1].offset
  }

  ghost predicate Placed(ms: seq<Module>, i: nat, align: nat)
    requires i < |ms|
  {
    var m := ms[i];
    PowerOfTwo(m.align) && m.align <= align && m.len <= m.size
    && Below(ms, i) + m.size <= m.offset && Rem(m.offset + m.image, m.align) == 0
  }

  /** The modules' blocks are stacked without overlap to a height of `top`; `align` suits them all. */
  ghost predicate Laid(ms: seq<Module>, top: nat, align: nat) {
    PowerOfTwo(align) && top == Below(ms, |ms|) && forall i :: 0 <= i < |ms| ==> Placed(ms, i, align)
  }

  lemma LaidOn(ms: seq<Module>, top: nat, align: nat, m: Module, align': nat)
    requires Laid(ms, top, align) && align <= align' && PowerOfTwo(align')
    requires PowerOfTwo(m.align) && m.align <= align' && m.len <= m.size && Least(m.offset, top + m.size, m.image, m.align)
    ensures Laid(ms + [m], m.offset, align')
  {
    var ms' := ms + [m];
    forall i | 0 <= i < |ms'|
      ensures Placed(ms', i, align')
    {
      if i < |ms| {
        assert Placed(ms, i, align);
        assert Below(ms', i) == Below(ms, i);
      }
    }
  }

  /** The loader's globals: tls_cnt, tls_offset, tls_align, the list from libc.tls_head, and the three
      values libc publishes for new threads. */
  class Loader {
    const mach: Machine
    var cnt: nat
    var offset: nat
    var align: nat
    var modules: seq<Module>
    var libcCnt: nat
    var libcAlign: nat
    var libcSize: nat

    ghost predicate Valid()
      reads this
    {
      mach.Ok() && cnt == |modules| && align < TwoTo(mach.Bits()) && Laid(modules, offset, align)
    }

    /** A module with alignment 0 has been loaded. */
    ghost predicate Broken()
      reads this
    {
      mach.Ok() && cnt == |modules| && align == 0 && HasZeroAlign(modules)
    }

    constructor (mach: Machine)
      requires mach.Ok()
      ensures Valid() && modules == [] && align == mach.minAlign && this.mach == mach
    {
      this.mach := mach;
      cnt, offset, align, modules := 0, 0, mach.minAlign, [];
      libcCnt, libcAlign, libcSize := 0, mach.minAlign, 0;
    }

    /** The application, if it has a TLS segment. */
    method AddApplication(image: nat, len: nat, size: nat, align0: nat)
      requires Valid() && modules == []
      requires size > 0 ==> (align0 == 0 || PowerOfTwo(align0)) && len <= size
      requires size + align0 - 1 < TwoTo(mach.Bits()) && align0 < TwoTo(mach.Bits())
      modifies this`cnt, this`offset, this`align, this`modules
      ensures Valid() <==> size == 0 || align0 != 0
      ensures Valid() || Broken()
      ensures if size == 0 then modules == [] && offset == 0 && align == old(align)
              else |modules| == 1 && modules[0] == Module(image, len, size, align0, offset)
                   && if align0 == 0 then offset == Word(mach.Bits(), 0 - image)
                      else Least(offset, size, image, align0) && align == if align0 > old(align) then align0 else old(align)
    {
      hide Laid, TwoTo, Rem, AppOffset, Maxp2, PowerOfTwo, Word;
      LaidAlign(modules, offset, align);
      if size != 0 {
        ghost var align1 := align;
        cnt := 1;
        offset := AppOffset(mach.Bits(), image, size, align0);
        modules := [Module(image, len, size, align0, offset)];
        align := Maxp2(mach.Bits(), align, align0);
        if align0 == 0 {
          ZeroAlignOffset(mach.Bits(), 0, image, size);
          ZeroAlign(mach.Bits(), align1, 0);
          ZeroFound(modules, 0);
          NotLaid(modules, offset, align);
        } else {
          AppOffsetLeast(mach.Bits(), image, size, align0);
          Maxp2IsMax(mach.Bits(), align1, align0);
          LaidOn([], 0, align1, modules[0], align) by { LaidNothing(align1); }
          assert [] + [modules[0]] == modules;
        }
      }
    }

    /** The TLS part of load_library.  One header with alignment 0 makes the common alignment 0 for good, and its block
        clears the ones below it only if they and its image fit the address space together. */
    method AddModule(image: nat, len: nat, size: nat, align0: nat)
      requires Valid() || Broken()
      requires image != 0 ==> (align0 == 0 || PowerOfTwo(align0)) && len <= size
      requires Valid() ==> offset + size + align0 - 1 < TwoTo(mach.Bits()) && align0 < TwoTo(mach.Bits())
      modifies this`cnt, this`offset, this`align, this`modules
      ensures Valid() <==> old(Valid()) && (image == 0 || align0 != 0)
      ensures Valid() || Broken()
      ensures if image == 0 then modules == old(modules) && offset == old(offset) && align == old(align)
              else modules == old(modules) + [Module(image, len, size, align0, offset)]
      ensures align == 0 <==> old(align == 0) || (image != 0 && align0 == 0)
      ensures image != 0 && align0 == 0 ==> offset == Word(mach.Bits(), 0 - image)
      ensures old(Valid()) && 0 < image < TwoTo(mach.Bits()) ==>
                (old(offset) + size <= offset <==> align0 != 0 || old(offset) + size + image <= TwoTo(mach.Bits()))
      ensures image != 0 && Valid() ==>
                && Least(offset, old(offset) + size, image, align0)
                && align == if align0 > old(align) then align0 else old(align)
    {
      hide Laid, TwoTo, Rem, NextOffset, Maxp2, PowerOfTwo, Word;
      ghost var valid, top, align1, before := Valid(), offset, align, modules;
      if valid {
        LaidAlign(modules, offset, align);
      } else {
        NotLaid(modules, offset, align);
      }
      if image != 0 {
        cnt := cnt + 1;
        align := Maxp2(mach.Bits(), align, align0);
        offset := NextOffset(mach.Bits(), offset, image, size, align0);
        modules := modules + [Module(image, len, size, align0, offset)];
        if align0 == 0 {
          ZeroAlignOffset(mach.Bits(), top, image, size);
          ZeroFound(modules, |before|);
          if image < TwoTo(mach.Bits()) {
            WordNegated(mach.Bits(), image);
          }
        }
        if valid && align0 != 0 {
          NextOffsetLeast(mach.Bits(), top, image, size, align0);
          Maxp2IsMax(mach.Bits(), align1, align0);
          LaidOn(before, top, align1, Module(image, len, size, align0, offset), align);
        } else {
          ZeroAlign(mach.Bits(), if valid then align1 else align0, 0);
          ZeroStays(before, modules);
          NotLaid(modules, offset, align);
        }
      }
    }

    /** update_tls_size.  The size suffices if and only if no module has alignment 0. */
    method UpdateTlsSize()
      requires Valid() || Broken()
      requires (1 + cnt) * mach.word + offset + mach.pthread + 3 * align < TwoTo(mach.Bits())
      modifies this`libcCnt, this`libcAlign, this`libcSize
      ensures libcCnt == cnt && libcAlign == align
      ensures Enough(mach, modules, offset, align, libcSize) <==> Valid()
      ensures if Valid() then Rem(libcSize, align) == 0 else libcSize == 0
    {
      hide Laid, AlignUp, TwoTo, Rem, PowerOfTwo;
      libcCnt := cnt;
      libcAlign := align;
      libcSize := AlignUp(mach.Bits(), (1 + cnt) * mach.word + offset + mach.pthread + align * 2, align);
      if Valid() {
        LaidAlign(modules, offset, align);
        AlignUpFacts(mach.Bits(), (1 + cnt) * mach.word + offset + mach.pthread + align * 2, align);
      } else {
        NotLaid(modules, offset, align);
        ZeroAlign(mach.Bits(), 0, (1 + cnt) * mach.word + offset + mach.pthread + align * 2);
        TwoWords(cnt, mach.word);
      }
    }
  }

  ghost predicate HasZeroAlign(ms: seq<Module>) {
    exists i :: 0 <= i < |ms| && ms[i].align == 0
  }

  lemma ZeroFound(ms: seq<Module>, i: nat)
    requires i < |ms| && ms[i].align == 0
    ensures HasZeroAlign(ms)
  {
  }

  lemma ZeroStays(ms: seq<Module>, ms': seq<Module>)
    requires ms <= ms'
    ensures HasZeroAlign(ms) ==> HasZeroAlign(ms')
  {
    if HasZeroAlign(ms) {
      var i :| 0 <= i < |ms| && ms[i].align == 0;
      assert ms'[i] == ms[i];
    }
  }

  lemma NotLaid(ms: seq<Module>, top: nat, align: nat)
    ensures HasZeroAlign(ms) ==> ms != [] && !Laid(ms, top, align)
  {
    if HasZeroAlign(ms) {
      var i :| 0 <= i < |ms| && ms[i].align == 0;
      assert !Placed(ms, i, align) by { ZeroIsNone(ms[i].align); }
    }
  }

  lemma ZeroIsNone(x: nat)
    ensures PowerOfTwo(x) ==> x > 0
  {
  }

  lemma TwoWords(cnt: nat, word: nat)
    requires cnt >= 1 && word >= 1
    ensures (1 + cnt) * word > 1
  {
  }

  lemma LaidAlign(ms: seq<Module>, top: nat, align: nat)
    requires Laid(ms, top, align)
    ensures PowerOfTwo(align) && align > 0 && top == Below(ms, |ms|)
  {
  }

  lemma LaidNothing(align: nat)
    requires PowerOfTwo(align)
    ensures Laid([], 0, align)
  {
  }

  /** `size` bytes hold the DTV, the blocks and the thread structure, however the area is aligned. */
  ghost predicate Enough(mach: Machine, ms: seq<Module>, top: nat, align: nat, size: nat) {
    (1 + |ms|) * mach.word + top + mach.pthread + align <= size + 1
  }

  // ---- placement in a thread's area ------------------------------------------------------------------

  /** Where the block of the module at place `i` starts when the thread structure is at `td`. */
  function Block(ms: seq<Module>, td: int, i: nat): int
    requires i < |ms|
  {
    td - ms[i].offset
  }

  lemma {:induction false} Stacked(ms: seq<Module>, top: nat, align: nat, i: nat, j: nat)
    requires Laid(ms, top, align) && i < j <= |ms|
    ensures ms[i].offset <= Below(ms, j)
  {
    if i + 1 < j {
      Stacked(ms, top, align, i, j - 1);
      assert Placed(ms, j - 1, align);
    }
  }

  /** Thread pointer and blocks all lie in the area behind the DTV, apart from each other and congruent to
      their images. */
  ghost predicate WellPlaced(mach: Machine, ms: seq<Module>, base: int, size: int, align: nat, td: int)
    requires align > 0
  {
    && base + (1 + |ms|) * mach.word <= td && td + mach.pthread <= base + size && Rem(td, align) == 0
    && (forall i :: 0 <= i < |ms| ==> BlockInside(mach, ms, base, td, i))
    && (forall i, j :: 0 <= i < j < |ms| ==> Block(ms, td, j) + ms[j].size <= Block(ms, td, i))
  }

  ghost predicate BlockInside(mach: Machine, ms: seq<Module>, base: int, td: int, i: nat)
    requires i < |ms|
  {
    && base + (1 + |ms|) * mach.word <= Block(ms, td, i) && Block(ms, td, i) + ms[i].size <= td
    && ms[i].align > 0 && Rem(Block(ms, td, i) - ms[i].image, ms[i].align) == 0
  }

  lemma Placement(mach: Machine, ms: seq<Module>, top: nat, align: nat, base: nat, size: nat)
    requires mach.Ok() && mach.pthread > 0 && Laid(ms, top, align) && align < TwoTo(mach.Bits())
    requires Enough(mach, ms, top, align, size) && base + size <= TwoTo(mach.Bits())
    ensures align > 0 && WellPlaced(mach, ms, base, size, align, ThreadAt(mach.Bits(), base, size, mach.pthread, align))
  {
    hide TwoTo, ThreadAt, Rem;
    LaidAlign(ms, top, align);
    WordsOf(mach, |ms|);
    ThreadAtFacts(mach.Bits(), base, size, mach.pthread, align);
    var td := ThreadAt(mach.Bits(), base, size, mach.pthread, align);
    forall i | 0 <= i < |ms|
      ensures BlockInside(mach, ms, base, td, i)
    {
      Stacked(ms, top, align, i, |ms|);
      BlockPlaced(mach, ms, top, align, base, td, i);
    }
    forall i, j | 0 <= i < j < |ms|
      ensures Block(ms, td, j) + ms[j].size <= Block(ms, td, i)
    {
      Stacked(ms, top, align, i, j);
      assert Placed(ms, j, align);
    }
  }

  lemma WordsOf(mach: Machine, n: nat)
    ensures (1 + n) * mach.word >= mach.word
  {
  }

  lemma BlockPlaced(mach: Machine, ms: seq<Module>, top: nat, align: nat, base: int, td: int, i: nat)
    requires Laid(ms, top, align) && i < |ms| && ms[i].offset <= top && align > 0 && Rem(td, align) == 0
    requires base + (1 + |ms|) * mach.word <= td - top
    ensures BlockInside(mach, ms, base, td, i)
  {
    hide TwoTo, Rem;
    assert Placed(ms, i, align);
    var m := ms[i];
    RemDivides(td, align, m.align);
    RemDifference(td, m.offset + m.image, m.align);
    assert td - m.offset - m.image == td - (m.offset + m.image);
  }

  /** The larger of two powers of two is a multiple of the other. */
  lemma RemDivides(x: int, a: int, b: int)
    requires PowerOfTwo(a) && PowerOfTwo(b) && b <= a && a > 0 && b > 0 && Rem(x, a) == 0
    ensures Rem(x, b) == 0
  {
    hide TwoTo, Rem;
    var i: nat :| a == TwoTo(i);
    var j: nat :| b == TwoTo(j);
    if j <= i {
      TwoToMonotone(j, i);
    } else {
      TwoToMonotone(i, j);
      RemIs(a, b, 1, 0);
    }
    var p := RemQuotient(x, a);
    var q := RemQuotient(a, b);
    MulRegroup(b, q, p);
    RemIs(x, b, q * p, 0);
  }

  // ---- __copy_tls --------------------------------------------------------------------------------------

  /** The DTV entry of module `i` + 1. */
  function Slot(mach: Machine, base: nat, i: nat): nat {
    base + i * mach.word
  }

  /** What of the area is set up once `n` modules have been copied; `old` is the memory before. */
  ghost predicate Copied(mach: Machine, was: Cells, now: Cells, ms: seq<Module>, base: nat, td: nat, n: nat)
    requires n <= |ms|
  {
    && now.Keys == was.Keys
    && (forall i :: 0 <= i < n ==> EntrySet(mach, was, now, ms, base, td, i))
    && (forall a :: a in was && Untouched(mach, ms, base, td, n, a) ==> now[a] == was[a])
  }

  /** DTV entry and block of one module. */
  ghost predicate EntrySet(mach: Machine, was: Cells, now: Cells, ms: seq<Module>, base: nat, td: nat, i: nat)
    requires i < |ms|
  {
    && Block(ms, td, i) >= 0
    && Mapped(now, Slot(mach, base, i + 1), mach.word) && Load(now, Slot(mach, base, i + 1), mach.word) == Block(ms, td, i)
    && Mapped(now, Block(ms, td, i), ms[i].len) && Mapped(was, ms[i].image, ms[i].len)
    && Get(now, Block(ms, td, i), ms[i].len) == Get(was, ms[i].image, ms[i].len)
  }

  /** Address `a` is neither in the DTV nor in the image part of a block. */
  ghost predicate Untouched(mach: Machine, ms: seq<Module>, base: nat, td: nat, n: nat, a: nat)
    requires n <= |ms|
  {
    && (a < base || Slot(mach, base, |ms| + 1) <= a)
    && forall i :: 0 <= i < n ==> OutsideBlock(ms, td, i, a)
  }

  ghost predicate OutsideBlock(ms: seq<Module>, td: nat, i: nat, a: nat)
    requires i < |ms|
  {
    a < Block(ms, td, i) || Block(ms, td, i) + ms[i].len <= a
  }

  /** The area and the images are there, and apart. */
  ghost predicate Ready(cells: Cells, ms: seq<Module>, base: nat, size: nat) {
    && Mapped(cells, base, size)
    && forall i :: 0 <= i < |ms| ==> Mapped(cells, ms[i].image, ms[i].len) && Apart(ms[i].image, ms[i].len, base, size)
  }

  /** Everything __copy_tls leaves behind: DTV entries and blocks, the count, the thread's pointer to its DTV `dtvAt`
      bytes into the thread structure, and nothing else changed. */
  ghost predicate SetUp(mach: Machine, was: Cells, now: Cells, ms: seq<Module>, base: nat, td: nat, dtvAt: nat) {
    && now.Keys == was.Keys
    && (forall i :: 0 <= i < |ms| ==> EntrySet(mach, was, now, ms, base, td, i))
    && Mapped(now, base, mach.word) && Load(now, base, mach.word) == |ms|
    && Mapped(now, td + dtvAt, mach.word) && Load(now, td + dtvAt, mach.word) == base
    && forall a :: a in was && Untouched(mach, ms, base, td, |ms|, a) && (a < td + dtvAt || td + dtvAt + mach.word <= a)
                   ==> now[a] == was[a]
  }

  /** __copy_tls. */
  method CopyTls(space: Space, mach: Machine, ms: seq<Module>, ghost top: nat, align: nat, base: nat, size: nat, dtvAt: nat)
    returns (td: nat)
    requires mach.Ok() && dtvAt + mach.word <= mach.pthread && Laid(ms, top, align) && align < TwoTo(mach.Bits())
    requires Enough(mach, ms, top, align, size) && base + size <= TwoTo(mach.Bits()) && |ms| < TwoTo(mach.Bits())
    requires Ready(space.cells, ms, base, size)
    modifies space
    ensures align > 0 && WellPlaced(mach, ms, base, size, align, td)
    ensures SetUp(mach, old(space.cells), space.cells, ms, base, td, dtvAt)
  {
    hide TwoTo, Laid, ThreadAt, Rem, WellPlaced, Copied, Ready, Mapped, Put, Get, Load, Enough, SetUp;
    Placement(mach, ms, top, align, base, size);
    td := ThreadAt(mach.Bits(), base, size, mach.pthread, align);
    ghost var was := space.cells;
    var i := 0;
    CopiedNothing(mach, was, ms, base, td);
    while i < |ms|
      invariant 0 <= i <= |ms|
      invariant Copied(mach, was, space.cells, ms, base, td, i)
    {
      CopyStep(mach, was, space.cells, ms, top, align, base, size, td, i);
      space.Store(Slot(mach, base, i + 1), td - ms[i].offset, mach.word);
      space.Copy(td - ms[i].offset, ms[i].image, ms[i].len);
      i := i + 1;
    }
    CopyCount(mach, was, space.cells, ms, top, align, base, size, td);
    space.Store(Slot(mach, base, 0), |ms|, mach.word);
    CopyDtv(mach, was, space.cells, ms, top, align, base, size, td, dtvAt);
    space.Store(td + dtvAt, base, mach.word);
  }

  /** The very last store: the thread's pointer to its DTV. */
  lemma CopyDtv(mach: Machine, was: Cells, now: Cells, ms: seq<Module>, top: nat, align: nat, base: nat, size: nat, td: nat,
                dtvAt: nat)
    requires align > 0 && Laid(ms, top, align) && WellPlaced(mach, ms, base, size, align, td) && mach.word > 0
    requires dtvAt + mach.word <= mach.pthread && base + size <= TwoTo(mach.Bits())
    requires Ready(was, ms, base, size) && Copied(mach, was, now, ms, base, td, |ms|)
    requires Mapped(now, base, mach.word) && Load(now, base, mach.word) == |ms|
    ensures Mapped(now, td + dtvAt, mach.word)
    ensures SetUp(mach, was, Put(now, td + dtvAt, BytesOf(base, mach.word)), ms, base, td, dtvAt)
  {
    hide Laid, WellPlaced, Mapped, Get, Put, Slot, Block, TwoTo, EntrySet, BytesOf, Untouched;
    ThreadBehind(mach, ms, align, base, size, td);
    var at, s := td + dtvAt, BytesOf(base, mach.word);
    var now1 := Put(now, at, s);
    MappedKeys(was, now, base, size);
    MappedInside(now, base, size, at, mach.word);
    LoadPut(now, at, base, mach.word);
    GetPutApart(now, at, s, base, mach.word);
    EntriesKept(mach, was, now, ms, top, align, base, size, td, at, s);
    forall a | a in was && Untouched(mach, ms, base, td, |ms|, a) && (a < at || at + mach.word <= a)
      ensures now1[a] == was[a]
    {
      PutAt(now, at, s, a);
    }
  }

  /** A word in front of the entries or in the thread structure disturbs no entry and no block. */
  lemma EntriesKept(mach: Machine, was: Cells, now: Cells, ms: seq<Module>, top: nat, align: nat, base: nat, size: nat,
                    td: nat, at: nat, s: seq<Byte>)
    requires align > 0 && Laid(ms, top, align) && WellPlaced(mach, ms, base, size, align, td)
    requires |s| == mach.word && (at == base || td <= at) && forall i :: 0 <= i < |ms| ==> EntrySet(mach, was, now, ms, base, td, i)
    ensures forall i :: 0 <= i < |ms| ==> EntrySet(mach, was, Put(now, at, s), ms, base, td, i)
  {
    assert Slot(mach, base, 0) == base;
    hide Laid, WellPlaced, Put, Slot, Block, EntrySet;
    forall i | 0 <= i < |ms|
      ensures EntrySet(mach, was, Put(now, at, s), ms, base, td, i)
    {
      InArea(mach, ms, top, align, base, size, td, i);
      SlotOrder(mach, base, 0, i + 1);
      EntryKept(mach, was, now, ms, base, td, i, at, s);
    }
  }

  lemma ThreadBehind(mach: Machine, ms: seq<Module>, align: nat, base: nat, size: nat, td: nat)
    requires align > 0 && WellPlaced(mach, ms, base, size, align, td)
    ensures base + mach.word <= td && td + mach.pthread <= base + size
  {
    WordsOf(mach, |ms|);
  }

  lemma CopiedNothing(mach: Machine, was: Cells, ms: seq<Module>, base: nat, td: nat)
    ensures Copied(mach, was, was, ms, base, td, 0)
  {
  }

  lemma SlotOrder(mach: Machine, base: nat, i: nat, j: nat)
    requires i < j
    ensures Slot(mach, base, i) + mach.word <= Slot(mach, base, j)
  {
    TimesOrder(i, j - i - 1, mach.word);
  }

  lemma EntryKept(mach: Machine, was: Cells, now: Cells, ms: seq<Module>, base: nat, td: nat, i: nat, at: nat, s: seq<Byte>)
    requires i < |ms| && EntrySet(mach, was, now, ms, base, td, i)
    requires Apart(at, |s|, Slot(mach, base, i + 1), mach.word) && Apart(at, |s|, Block(ms, td, i), ms[i].len)
    ensures EntrySet(mach, was, Put(now, at, s), ms, base, td, i)
  {
    hide Mapped, Get, Put, Slot, Block;
    GetPutApart(now, at, s, Slot(mach, base, i + 1), mach.word);
    GetPutApart(now, at, s, Block(ms, td, i), ms[i].len);
  }

  /** DTV, block and thread structure of module `i` in order, all in the area. */
  lemma InArea(mach: Machine, ms: seq<Module>, top: nat, align: nat, base: nat, size: nat, td: nat, i: nat)
    requires i < |ms| && align > 0 && Laid(ms, top, align) && WellPlaced(mach, ms, base, size, align, td)
    ensures base <= Slot(mach, base, i + 1)
    ensures Slot(mach, base, i + 1) + mach.word <= Slot(mach, base, |ms| + 1) <= Block(ms, td, i)
    ensures ms[i].len <= ms[i].size && Block(ms, td, i) + ms[i].size <= td && td + mach.pthread <= base + size
  {
    hide Rem, PowerOfTwo;
    assert Placed(ms, i, align) && BlockInside(mach, ms, base, td, i);
    SlotOrder(mach, base, i + 1, |ms| + 1) by { assert i + 1 < |ms| + 1; }
  }

  lemma UntouchedOutside(mach: Machine, ms: seq<Module>, top: nat, align: nat, base: nat, size: nat, td: nat, n: nat, a: nat)
    requires n <= |ms| && align > 0 && Laid(ms, top, align) && WellPlaced(mach, ms, base, size, align, td)
    requires a < base || base + size <= a
    ensures Untouched(mach, ms, base, td, n, a)
  {
    hide Laid, WellPlaced, Slot, Block;
    forall i | 0 <= i < n
      ensures OutsideBlock(ms, td, i, a)
    {
      InArea(mach, ms, top, align, base, size, td, i);
    }
    DtvInside(mach, ms, top, align, base, size, td);
  }

  lemma DtvInside(mach: Machine, ms: seq<Module>, top: nat, align: nat, base: nat, size: nat, td: nat)
    requires align > 0 && Laid(ms, top, align) && WellPlaced(mach, ms, base, size, align, td)
    ensures Slot(mach, base, |ms| + 1) <= base + size
  {
  }

  lemma ImageKept(mach: Machine, was: Cells, now: Cells, ms: seq<Module>, top: nat, align: nat, base: nat, size: nat,
                  td: nat, n: nat, i: nat)
    requires n <= |ms| && i < |ms| && align > 0 && Laid(ms, top, align) && WellPlaced(mach, ms, base, size, align, td)
    requires Ready(was, ms, base, size) && Copied(mach, was, now, ms, base, td, n)
    ensures Mapped(was, ms[i].image, ms[i].len) && Mapped(now, ms[i].image, ms[i].len)
    ensures Get(now, ms[i].image, ms[i].len) == Get(was, ms[i].image, ms[i].len)
  {
    hide Laid, WellPlaced, EntrySet, Untouched;
    var at, len := ms[i].image, ms[i].len;
    assert Mapped(was, at, len);
    forall a | a in was && at <= a < at + len
      ensures now[a] == was[a]
    {
      UntouchedOutside(mach, ms, top, align, base, size, td, n, a);
    }
  }

  /** One round of the loop. */
  lemma CopyStep(mach: Machine, was: Cells, now: Cells, ms: seq<Module>, top: nat, align: nat, base: nat, size: nat,
                 td: nat, i: nat)
    requires i < |ms| && align > 0 && Laid(ms, top, align) && WellPlaced(mach, ms, base, size, align, td)
    requires Ready(was, ms, base, size) && Copied(mach, was, now, ms, base, td, i) && base + size <= TwoTo(mach.Bits())
    requires mach.pthread > 0
    ensures Block(ms, td, i) >= 0 && Mapped(now, Slot(mach, base, i + 1), mach.word)
    ensures var now1 := Put(now, Slot(mach, base, i + 1), BytesOf(Block(ms, td, i), mach.word));
            && Mapped(now1, Block(ms, td, i), ms[i].len) && Mapped(now1, ms[i].image, ms[i].len)
            && Copied(mach, was, Put(now1, Block(ms, td, i), Get(now1, ms[i].image, ms[i].len)), ms, base, td, i + 1)
  {
    hide Laid, WellPlaced, Mapped, Get, Put, Slot, Block, TwoTo, EntrySet, Untouched, Load, BytesOf;
    InArea(mach, ms, top, align, base, size, td, i);
    var slot, block, image, len := Slot(mach, base, i + 1), Block(ms, td, i), ms[i].image, ms[i].len;
    MappedKeys(was, now, base, size);
    MappedInside(now, base, size, slot, mach.word);
    MappedInside(now, base, size, block, len);
    ImageKept(mach, was, now, ms, top, align, base, size, td, i, i);
    var s1 := BytesOf(block, mach.word);
    var now1 := Put(now, slot, s1);
    GetPutApart(now, slot, s1, image, len);
    MappedKeys(now, now1, block, len);
    var s2 := Get(now1, image, len);
    var now2 := Put(now1, block, s2);
    EntryMade(mach, was, now, ms, base, td, i);
    forall k | 0 <= k < i
      ensures EntrySet(mach, was, now2, ms, base, td, k)
    {
      OtherEntry(mach, was, now, ms, top, align, base, size, td, i, k, s1, s2);
    }
    FrameKept(mach, was, now, ms, top, align, base, size, td, i, s1, s2);
  }

  lemma EntryMade(mach: Machine, was: Cells, now: Cells, ms: seq<Module>, base: nat, td: nat, i: nat)
    requires i < |ms| && Block(ms, td, i) >= 0 && Mapped(was, ms[i].image, ms[i].len)
    requires Mapped(now, Slot(mach, base, i + 1), mach.word) && Block(ms, td, i) < TwoTo(mach.Bits())
    requires var now1 := Put(now, Slot(mach, base, i + 1), BytesOf(Block(ms, td, i), mach.word));
             Mapped(now1, Block(ms, td, i), ms[i].len)
    requires Slot(mach, base, i + 1) + mach.word <= Block(ms, td, i)
    ensures var now1 := Put(now, Slot(mach, base, i + 1), BytesOf(Block(ms, td, i), mach.word));
            EntrySet(mach, was, Put(now1, Block(ms, td, i), Get(was, ms[i].image, ms[i].len)), ms, base, td, i)
  {
    hide Mapped, Get, Put, Slot, Block, TwoTo, BytesOf;
    var slot, block := Slot(mach, base, i + 1), Block(ms, td, i);
    var now1 := Put(now, slot, BytesOf(block, mach.word));
    var s := Get(was, ms[i].image, ms[i].len);
    LoadPut(now, slot, block, mach.word);
    GetPut(now1, block, s);
    GetPutApart(now1, block, s, slot, mach.word);
  }

  lemma OtherEntry(mach: Machine, was: Cells, now: Cells, ms: seq<Module>, top: nat, align: nat, base: nat, size: nat,
                   td: nat, i: nat, k: nat, s1: seq<Byte>, s2: seq<Byte>)
    requires k < i < |ms| && align > 0 && Laid(ms, top, align) && WellPlaced(mach, ms, base, size, align, td)
    requires |s1| == mach.word && |s2| == ms[i].len && EntrySet(mach, was, now, ms, base, td, k) && Block(ms, td, i) >= 0
    ensures EntrySet(mach, was, Put(Put(now, Slot(mach, base, i + 1), s1), Block(ms, td, i), s2), ms, base, td, k)
  {
    InArea(mach, ms, top, align, base, size, td, i);
    InArea(mach, ms, top, align, base, size, td, k);
    assert Block(ms, td, i) + ms[i].size <= Block(ms, td, k);
    hide Laid, WellPlaced, Put, Slot, Block, EntrySet;
    SlotOrder(mach, base, k + 1, i + 1);
    EntryKept(mach, was, now, ms, base, td, k, Slot(mach, base, i + 1), s1);
    EntryKept(mach, was, Put(now, Slot(mach, base, i + 1), s1), ms, base, td, k, Block(ms, td, i), s2);
  }

  lemma FrameKept(mach: Machine, was: Cells, now: Cells, ms: seq<Module>, top: nat, align: nat, base: nat, size: nat,
                  td: nat, i: nat, s1: seq<Byte>, s2: seq<Byte>)
    requires i < |ms| && align > 0 && Laid(ms, top, align) && WellPlaced(mach, ms, base, size, align, td)
    requires |s1| == mach.word && |s2| == ms[i].len && Block(ms, td, i) >= 0
    requires now.Keys == was.Keys && forall a :: a in was && Untouched(mach, ms, base, td, i, a) ==> now[a] == was[a]
    ensures var now2 := Put(Put(now, Slot(mach, base, i + 1), s1), Block(ms, td, i), s2);
            forall a :: a in was && Untouched(mach, ms, base, td, i + 1, a) ==> now2[a] == was[a]
  {
    hide Laid, WellPlaced, Put, Slot, Block;
    InArea(mach, ms, top, align, base, size, td, i);
    var now1 := Put(now, Slot(mach, base, i + 1), s1);
    var now2 := Put(now1, Block(ms, td, i), s2);
    forall a | a in was && Untouched(mach, ms, base, td, i + 1, a)
      ensures now2[a] == was[a]
    {
      assert OutsideBlock(ms, td, i, a);
      assert Untouched(mach, ms, base, td, i, a);
      PutAt(now, Slot(mach, base, i + 1), s1, a);
      PutAt(now1, Block(ms, td, i), s2, a);
    }
  }

  /** The last store: the number of modules. */
  lemma CopyCount(mach: Machine, was: Cells, now: Cells, ms: seq<Module>, top: nat, align: nat, base: nat, size: nat, td: nat)
    requires align > 0 && Laid(ms, top, align) && WellPlaced(mach, ms, base, size, align, td)
    requires Ready(was, ms, base, size) && Copied(mach, was, now, ms, base, td, |ms|) && |ms| < TwoTo(mach.Bits())
    ensures Slot(mach, base, 0) == base && Mapped(now, base, mach.word)
    ensures var now1 := Put(now, base, BytesOf(|ms|, mach.word));
            && Copied(mach, was, now1, ms, base, td, |ms|)
            && Mapped(now1, base, mach.word) && Load(now1, base, mach.word) == |ms|
  {
    assert Slot(mach, base, 0) == base;
    hide Laid, WellPlaced, Mapped, Get, Put, Slot, Block, TwoTo, EntrySet, Load, BytesOf;
    var s := BytesOf(|ms|, mach.word);
    var now1 := Put(now, base, s);
    SlotOrder(mach, base, 0, |ms| + 1);
    DtvInside(mach, ms, top, align, base, size, td);
    MappedKeys(was, now, base, size);
    MappedInside(now, base, size, base, mach.word);
    LoadPut(now, base, |ms|, mach.word);
    EntriesKept(mach, was, now, ms, top, align, base, size, td, base, s);
    forall a | a in was && Untouched(mach, ms, base, td, |ms|, a)
      ensures now1[a] == was[a]
    {
      PutAt(now, base, s, a);
    }
  }

  // ---- static_init_tls -----------------------------------------------------------------------------------

  /** The PT_TLS header of a statically linked program, if it has one. */
  datatype Header = NoTls | Tls(image: nat, len: nat, size: nat, align: nat)

  /** The modules of a statically linked program: none, or the one whose block is padded to its own offset. */
  function StaticModules(h: Header, offset: nat): seq<Module> {
    if h.NoTls? then [] else [Module(h.image, h.len, offset, h.align, offset)]
  }

  /** The size arithmetic: with no header all of main_tls is zero, and the mask is all ones, as it is with a header that
      has alignment 0. */
  method StaticLayout(mach: Machine, h: Header) returns (cnt: nat, offset: nat, align: nat, size: nat)
    requires mach.Ok()
    requires h.Tls? ==> (h.align == 0 || PowerOfTwo(h.align)) && h.len <= h.size && h.align < TwoTo(mach.Bits())
    requires var n := if h.Tls? then h.size + 2 * h.align else 0;
             2 * mach.word + mach.pthread + n + 3 * mach.minAlign < TwoTo(mach.Bits())
    ensures cnt == |StaticModules(h, offset)| && align < TwoTo(mach.Bits())
    ensures Laid(StaticModules(h, offset), offset, align) <==> h.NoTls? || h.align != 0
    ensures h.NoTls? || h.align != 0 ==> Enough(mach, StaticModules(h, offset), offset, align, size)
    ensures h.Tls? ==> if h.align == 0 then offset == Word(mach.Bits(), 0 - h.image) else Least(offset, h.size, h.image, h.align)
    ensures align == if h.Tls? && h.align > mach.minAlign then h.align else mach.minAlign
  {
    hide BitAnd, TwoTo, Rem, Word, PowerOfTwo;
    var w := mach.Bits();
    var image, len := 0, 0;
    cnt, offset, align := 0, 0, 0;
    if h.Tls? {
      image, len, offset, align, cnt := h.image, h.len, h.size, h.align, 1;
    } else {
      WordIs(w, 0);
    }
    offset := Word(w, offset + BitAnd(Word(w, 0 - offset - image), Word(w, align - 1)));
    if h.Tls? {
      StaticOffset(w, h.image, h.size, h.align);
    }
    if align < mach.minAlign {
      align := mach.minAlign;
    }
    size := AlignUp(w, 2 * mach.word + mach.pthread + offset + align, mach.minAlign);
    if h.Tls? && h.align == 0 {
      ZeroFound(StaticModules(h, offset), 0);
      NotLaid(StaticModules(h, offset), offset, align);
    } else {
      AlignUpFacts(w, 2 * mach.word + mach.pthread + offset + align, mach.minAlign);
      LaidNothing(align);
      if h.Tls? {
        LaidOn([], 0, align, Module(h.image, h.len, offset, h.align, offset), align);
        assert [] + StaticModules(h, offset) == StaticModules(h, offset);
      }
    }
  }

  /** Padding the size is choosing the application's offset. */
  lemma StaticOffset(w: nat, image: nat, size: nat, align: nat)
    requires (align == 0 || PowerOfTwo(align)) && align < TwoTo(w) && size + align - 1 < TwoTo(w)
    ensures var r := Word(w, size + BitAnd(Word(w, 0 - size - image), Word(w, align - 1)));
            if align == 0 then r == Word(w, 0 - image) else Least(r, size, image, align)
  {
    hide BitAnd, TwoTo, Rem, Word, PowerOfTwo;
    assert 0 - size - image == -(image + size);
    if align == 0 {
      ZeroAlignOffset(w, 0, image, size);
    } else {
      AppOffsetLeast(w, image, size, align);
    }
  }
}
