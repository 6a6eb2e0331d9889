/**
 Thread-local storage of libraries loaded at run time: the space reserved behind
 each new DSO, and the switch of every live thread to a longer DTV.
 */
module TlsInstall {
  import opened Words
  import opened Memory
  import opened TlsLayout

  // ---- reservation in load_library ---------------------------------------------------------------

  /** A DSO as far as its TLS goes.  It lives in a chunk of `chunkSize` bytes at `chunk`; `id` is 0 without
      TLS; `threads` is the number of threads reserved for. */
  datatype Dso = Dso(id: nat, image: nat, len: nat, size: nat, align: nat,
                     chunk: nat, chunkSize: nat, threads: nat, newDtv: nat, newTls: nat)

  /** DTVs and blocks for all threads reserved for lie in the chunk, one after the other. */
  ghost predicate Allotted(mach: Machine, d: Dso) {
    && d.chunk <= d.newDtv
    && d.newTls == d.newDtv + Times(d.threads, Times(d.id + 1, mach.word))
    && d.newTls + Times(d.threads, d.size + d.align) <= d.chunk + d.chunkSize
  }

  /** A division by zero, a failed allocation, or a DSO with its chunk. */
  datatype Reservation = Fault | Refused | Granted(d: Dso)

  /** Bytes of blocks and DTVs that each thread needs. */
  function Needed(mach: Machine, size: nat, align: nat, cnt: nat): nat {
    size + align + mach.word * (cnt + 3)
  }

  /** per_th: the same as the machine adds it up. */
  function PerThread(mach: Machine, size: nat, align: nat, cnt: nat): nat {
    Word(mach.Bits(), Needed(mach, size, align, cnt))
  }

  /** SSIZE_MAX. */
  function Most(mach: Machine): int
    requires mach.word > 0
  {
    TwoTo(mach.Bits() - 1) - 1
  }

  /** The size asked for is not too large, `memory` tells what the allocator answers to it, and the chunk lies in the
      address space. */
  ghost predicate Supplied(mach: Machine, asked: nat, own: nat, chunk: nat, memory: bool)
    requires mach.word > 0
  {
    asked <= Most(mach) && memory ==> chunk + own + asked <= TwoTo(mach.Bits())
  }

  /** Chunk size and pointers as load_library computes them for a module that becomes number `cnt` + 1.
      `fixed` is sizeof(struct dso) and `buf` the offset of the name in it.  What is granted suffices if and only if
      the need of a thread has not wrapped around. */
  method Reserve(mach: Machine, image: nat, len: nat, size: nat, align: nat, cnt: nat, threads: nat,
                 chunk: nat, fixed: nat, buf: nat, nameLen: nat, memory: bool) returns (r: Reservation)
    requires mach.word > 0 && PowerOfTwo(mach.word) && threads >= 1 && buf <= fixed
    requires chunk + buf + nameLen + mach.word < TwoTo(mach.Bits()) && fixed + nameLen + 1 <= Most(mach)
    requires Supplied(mach, threads * PerThread(mach, size, align, cnt), fixed + nameLen + 1, chunk, memory)
    ensures r.Fault? <==> PerThread(mach, size, align, cnt) == 0
    ensures r.Granted? <==> !r.Fault? && threads * PerThread(mach, size, align, cnt) <= Most(mach) && memory
    ensures r.Granted? ==> r.d.(newDtv := 0, newTls := 0, chunkSize := 0) == Dso(cnt + 1, image, len, size, align, chunk, 0, threads, 0, 0)
    ensures r.Granted? ==> chunk + buf + nameLen + 1 <= r.d.newDtv && Rem(r.d.newDtv, mach.word) == 0
    ensures r.Granted? ==> r.d.chunkSize == fixed + nameLen + 1 + threads * PerThread(mach, size, align, cnt)
    ensures r.Granted? ==> (Allotted(mach, r.d) <==> Needed(mach, size, align, cnt) < TwoTo(mach.Bits()))
  {
    hide TwoTo, Rem, BitAnd, Word, Times, Needed, PowerOfTwo;
    var perTh := PerThread(mach, size, align, cnt);
    if perTh == 0 {
      return Fault;
    }
    DivBound(threads, perTh, Most(mach));
    if threads > Most(mach) / perTh || !memory {
      return Refused;
    }
    var end := chunk + buf + nameLen;
    HalfWord(mach);
    AlignDown(mach.Bits(), end + mach.word, mach.word);
    var newDtv := BitAnd(Word(mach.Bits(), 0 - mach.word), end + mach.word);
    var newTls := Word(mach.Bits(), newDtv + threads * ((cnt + 2) * mach.word));
    var d := Dso(cnt + 1, image, len, size, align, chunk, fixed + nameLen + 1 + threads * perTh, threads, newDtv, newTls);
    AllottedIff(mach, d, fixed, buf, nameLen, cnt);
    return Granted(d);
  }

  /** n > m / p tells whether n * p exceeds m. */
  lemma DivBound(n: nat, p: nat, m: nat)
    requires p > 0
    ensures n > m / p <==> n * p > m
  {
    CompareProduct(n, p, m / p, m % p, m);
  }

  lemma CompareProduct(n: nat, p: nat, q: nat, r: nat, m: nat)
    requires m == p * q + r && r < p
    ensures n > q <==> n * p > m
  {
    var d := n - q;
    assert p * d == n * p - p * q;
    assert d >= 1 ==> p * (d - 1) >= 0;
    assert d <= 0 ==> p * (-d) >= 0;
  }

  lemma AlignDown(w: nat, x: nat, y: nat)
    requires PowerOfTwo(y) && 0 < y < TwoTo(w) && x < TwoTo(w)
    ensures BitAnd(Word(w, 0 - y), x) == x - Rem(x, y) && Rem(x - Rem(x, y), y) == 0
  {
    hide TwoTo, Rem, BitAnd, Word;
    var k: nat :| y == TwoTo(k);
    BelowWord(k, w);
    WordNegated(w, y);
    MaskHigh(x, w, k, TwoTo(w) - y);
    BitAndSwap(x, TwoTo(w) - y);
    RemOff(x, y);
  }

  /** A need that wrapped around leaves less than what the blocks and DTVs take up. */
  lemma AllottedIff(mach: Machine, d: Dso, fixed: nat, buf: nat, nameLen: nat, cnt: nat)
    requires mach.word > 0 && buf <= fixed && fixed + nameLen + 1 <= Most(mach) && d.threads >= 1 && d.id == cnt + 1
    requires d.chunk + buf + nameLen + 1 <= d.newDtv <= d.chunk + buf + nameLen + mach.word
    requires d.chunkSize == fixed + nameLen + 1 + d.threads * PerThread(mach, d.size, d.align, cnt)
    requires d.chunk + d.chunkSize <= TwoTo(mach.Bits())
    requires d.newTls == Word(mach.Bits(), d.newDtv + d.threads * ((cnt + 2) * mach.word))
    ensures Allotted(mach, d) <==> Needed(mach, d.size, d.align, cnt) < TwoTo(mach.Bits())
  {
    hide TwoTo, Word;
    var w, n, need, per := mach.Bits(), d.threads, Needed(mach, d.size, d.align, cnt), PerThread(mach, d.size, d.align, cnt);
    Parts(n, d.size + d.align, cnt, mach.word);
    WordWraps(w, need);
    HalfWord(mach);
    if need < TwoTo(w) {
      ScaleUp(n, 1, mach.word);
      WordWraps(w, d.newDtv + n * ((cnt + 2) * mach.word));
    } else {
      ScaleUp(n, TwoTo(w) - mach.word, need - mach.word - per);
      Spread(n, need - mach.word - per, per);
    }
  }

  lemma Parts(n: nat, a: nat, cnt: nat, w: nat)
    ensures Times(n, Times(cnt + 2, w)) == n * ((cnt + 2) * w) && Times(n, a) == n * a
    ensures n * ((cnt + 2) * w) + n * a == n * (a + w * (cnt + 3) - w)
    ensures n * (a + w * (cnt + 3)) == n * (a + w * (cnt + 3) - w) + n * w
  {
    assert w * (cnt + 3) == (cnt + 2) * w + w;
    Spread(n, (cnt + 2) * w, a);
    Spread(n, a + (cnt + 2) * w, w);
  }

  lemma WordWraps(w: nat, x: nat)
    ensures x < TwoTo(w) ==> Word(w, x) == x
    ensures x >= TwoTo(w) ==> Word(w, x) <= x - TwoTo(w)
  {
    hide TwoTo;
    ModAtMost(x, TwoTo(w));
  }

  lemma ModAtMost(x: nat, t: nat)
    requires t > 0
    ensures x < t ==> x % t == x
    ensures x >= t ==> x % t <= x - t
  {
    if x < t {
      DivUnique(x, t, 0, x);
    } else {
      ModShift(x - t, t, 1);
      assert Rem(x - t, t) <= x - t;
    }
  }

  lemma HalfWord(mach: Machine)
    requires mach.word > 0
    ensures TwoTo(mach.Bits()) == 2 * (Most(mach) + 1) && mach.word <= Most(mach)
  {
    TwoToAbove(mach.Bits() - 1);
  }

  lemma {:induction false} TwoToAbove(n: nat)
    ensures n < TwoTo(n)
  {
    if n > 0 {
      TwoToAbove(n - 1);
    }
  }

  lemma ScaleUp(n: nat, least: nat, x: int)
    requires n >= 1 && x >= least
    ensures n * x >= x >= least
  {
    assert (n - 1) * x >= 0;
  }

  lemma Spread(n: nat, a: int, b: int)
    ensures n * (a + b) == n * a + n * b
  {
  }

  /** On 64 bits a header may ask for so much that the need of a thread wraps around to five bytes, which are granted,
      or to none, by which the code divides. */
  lemma WrapWitness(mach: Machine)
    requires mach.word == 8
    ensures TwoTo(mach.Bits()) == 0x1_0000_0000_0000_0000
    ensures PerThread(mach, 0x1_0000_0000_0000_0000 - 20, 1, 0) == 5 && 1 * 5 <= Most(mach)
    ensures PerThread(mach, 0x1_0000_0000_0000_0000 - 25, 1, 0) == 0
  {
    hide TwoTo, Word;
    TwoTo64();
    HalfWord(mach);
    WordOnce(64, 5);
    WordOnce(64, 0);
  }

  lemma WordOnce(w: nat, r: nat)
    requires r < TwoTo(w)
    ensures Word(w, TwoTo(w) + r) == r
  {
    DivUnique(TwoTo(w) + r, TwoTo(w), 1, r);
  }

  // ---- install_new_tls ------------------------------------------------------------------------------

  class Thread {
    var dtv: nat

    constructor (dtv: nat)
      ensures this.dtv == dtv
    {
      this.dtv := dtv;
    }
  }

  /** What stays fixed during one call: the DSO list, tls_cnt, the length `was` of the DTVs so far, where
      they are, and the place in the list of the DSO that tls_tail belongs to. */
  datatype Install = Install(mach: Machine, list: seq<Dso>, cnt: nat, was: nat, dtvs: seq<nat>, last: nat) {

    ghost predicate New(x: int) {
      0 <= x < |list| && list[x].id > was
    }

    function RowSize(): nat {
      Times(cnt + 1, mach.word)
    }

    function OldSize(): nat {
      Times(was + 1, mach.word)
    }

    /** The new DTV of thread `j`. */
    function Row(j: nat): nat
      requires last < |list|
    {
      list[last].newDtv + Times(j, RowSize())
    }

    function Entry(j: nat, id: nat): nat
      requires last < |list|
    {
      Row(j) + Times(id, mach.word)
    }

    /** Where the room for thread `j` of module `x` starts. */
    function Room(x: nat, j: nat): nat
      requires x < |list|
    {
      list[x].newTls + Times(j, list[x].size + list[x].align)
    }

    /** Where its block starts: aligned like the image. */
    function Block(x: nat, j: nat): nat
      requires x < |list| && list[x].align > 0
    {
      Room(x, j) + Rem(list[x].image - Room(x, j), list[x].align)
    }

    /** The call's circumstances: consecutive numbers for the new modules in list order, reservations for at
        least the threads there are, everything in chunks of its own, apart from the images and from the DTVs
        in use. */
    ghost predicate Ok() {
      && mach.word > 0 && was < cnt && cnt < TwoTo(mach.Bits())
      && last < |list| && list[last].id == cnt
      && (forall x :: 0 <= x < |list| ==> list[x].id <= cnt)
      && (forall x, y :: 0 <= x < y < |list| && list[y].id > was ==> list[x].id < list[y].id)
      && (forall x :: New(x) ==> ModuleOk(x))
      && (forall x, y :: New(x) && New(y) && x != y ==> ChunksApart(x, y))
      && (forall x, y :: New(x) && New(y) ==> Apart(list[x].image, list[x].len, list[y].chunk, list[y].chunkSize))
      && (forall j, y :: 0 <= j < |dtvs| && New(y) ==> Apart(dtvs[j], OldSize(), list[y].chunk, list[y].chunkSize))
    }

    ghost predicate ModuleOk(x: nat)
      requires x < |list|
    {
      var d := list[x];
      && Allotted(mach, d) && |dtvs| <= d.threads && PowerOfTwo(d.align) && d.align < TwoTo(mach.Bits())
      && d.len <= d.size && d.chunk + d.chunkSize <= TwoTo(mach.Bits())
    }

    ghost predicate ChunksApart(x: nat, y: nat)
      requires x < |list| && y < |list|
    {
      Apart(list[x].chunk, list[x].chunkSize, list[y].chunk, list[y].chunkSize)
    }

    /** The memory the call works on is there. */
    ghost predicate Present(m: Cells) {
      && (forall x :: New(x) ==> Mapped(m, list[x].chunk, list[x].chunkSize) && Mapped(m, list[x].image, list[x].len))
      && (forall j :: 0 <= j < |dtvs| ==> Mapped(m, dtvs[j], OldSize()))
    }
  }

  // ---- where things are --------------------------------------------------------------------------------

  lemma RowsFit(c: Install, j: nat)
    requires c.Ok() && j < |c.dtvs|
    ensures c.list[c.last].newDtv <= c.Row(j) && c.Row(j) + c.RowSize() <= c.list[c.last].newTls
    ensures c.list[c.last].newTls <= c.list[c.last].chunk + c.list[c.last].chunkSize
    ensures c.list[c.last].chunk <= c.list[c.last].newDtv
  {
    hide Times, TwoTo;
    assert c.New(c.last) && c.ModuleOk(c.last);
    var d := c.list[c.last];
    TimesOrder(j, d.threads - j - 1, c.RowSize());
  }

  lemma EntryFits(c: Install, j: nat, id: nat)
    requires c.Ok() && id <= c.cnt
    ensures c.Row(j) <= c.Entry(j, id) && c.Entry(j, id) + c.mach.word <= c.Row(j) + c.RowSize()
    ensures id > c.was ==> c.Row(j) + c.OldSize() <= c.Entry(j, id)
    ensures c.mach.word <= c.OldSize() <= c.RowSize()
  {
    hide Times, TwoTo;
    TimesOrder(id, c.cnt - id, c.mach.word);
    TimesMonotone(c.was + 1, c.cnt + 1, c.mach.word);
    TimesMonotone(1, c.was + 1, c.mach.word);
    if id > c.was {
      TimesMonotone(c.was + 1, id, c.mach.word);
    }
  }

  lemma RowsApart(c: Install, j: nat, k: nat)
    requires c.last < |c.list| && j < k
    ensures c.Row(j) + c.RowSize() <= c.Row(k)
  {
    hide Times;
    TimesOrder(j, k - j - 1, c.RowSize());
  }

  /** A block lies in its room, congruent to its image, and the room in the chunk behind the new DTVs. */
  lemma BlockFits(c: Install, x: nat, j: nat)
    requires c.Ok() && c.New(x) && j < |c.dtvs|
    ensures var d := c.list[x];
            && d.align > 0 && d.chunk <= d.newDtv <= d.newTls <= c.Room(x, j) <= c.Block(x, j)
            && c.Block(x, j) + d.size < c.Room(x, j) + (d.size + d.align) <= d.chunk + d.chunkSize
            && Rem(c.Block(x, j) - d.image, d.align) == 0
  {
    hide Rem, Times, TwoTo;
    assert c.ModuleOk(x);
    var d := c.list[x];
    TimesOrder(j, d.threads - j - 1, d.size + d.align);
    var k: nat :| d.align == TwoTo(k);
    CongruentTo(d.image, c.Room(x, j), d.align);
  }

  /** With alignment 0 every thread's block is the image itself. */
  lemma ZeroAlignBlock(w: nat, image: nat, mem: nat)
    requires image < TwoTo(w)
    ensures Word(w, mem + BitAnd(Word(w, image - mem), Word(w, -1))) == image
  {
    hide TwoTo, Word, BitAnd;
    MaskOnes(w, image - mem);
    WordTwice(w, mem, image - mem);
    WordIs(w, image);
  }

  lemma CongruentTo(image: int, mem: int, align: int)
    requires align > 0
    ensures Rem(mem + Rem(image - mem, align) - image, align) == 0
  {
    hide Rem;
    RemOff(image - mem, align);
    RemIs(0, align, 0, 0);
    RemDifference(0, image - mem - Rem(image - mem, align), align);
    assert mem + Rem(image - mem, align) - image == 0 - (image - mem - Rem(image - mem, align));
  }

  /** Two blocks of the call never overlap. */
  lemma BlocksApart(c: Install, x: nat, j: nat, y: nat, k: nat)
    requires c.Ok() && c.New(x) && c.New(y) && j < |c.dtvs| && k < |c.dtvs| && (x != y || j != k)
    ensures c.list[x].align > 0 && c.list[y].align > 0
    ensures Apart(c.Block(x, j), c.list[x].size, c.Block(y, k), c.list[y].size)
  {
    hide Times, TwoTo, Rem;
    BlockFits(c, x, j);
    BlockFits(c, y, k);
    if x != y {
      assert c.ChunksApart(x, y);
    } else {
      var s := c.list[x].size + c.list[x].align;
      if j < k {
        TimesOrder(j, k - j - 1, s);
      } else {
        TimesOrder(k, j - k - 1, s);
      }
    }
  }

  /** Nor does a block overlap a new DTV. */
  lemma BlockRowApart(c: Install, x: nat, j: nat, k: nat)
    requires c.Ok() && c.New(x) && j < |c.dtvs| && k < |c.dtvs|
    ensures c.list[x].align > 0 && Apart(c.Block(x, j), c.list[x].size, c.Row(k), c.RowSize())
  {
    hide Times, TwoTo, Rem;
    BlockFits(c, x, j);
    RowsFit(c, k);
    assert c.New(c.last);
    if x != c.last {
      assert c.ChunksApart(x, c.last);
    }
  }

  // ---- what has been done so far ----------------------------------------------------------------------

  /** Thread `j`'s new DTV has the new length and the old entries. */
  ghost predicate RowSet(c: Install, was: Cells, now: Cells, j: nat)
    requires c.last < |c.list| && j < |c.dtvs|
  {
    && Mapped(now, c.Row(j), c.mach.word) && Load(now, c.Row(j), c.mach.word) == c.cnt
    && forall i :: 0 < i <= c.was ==> EntryKept(c, was, now, j, i)
  }

  ghost predicate EntryKept(c: Install, was: Cells, now: Cells, j: nat, i: nat)
    requires c.last < |c.list| && j < |c.dtvs|
  {
    var at := c.dtvs[j] + Times(i, c.mach.word);
    && Mapped(was, at, c.mach.word) && Mapped(now, c.Entry(j, i), c.mach.word)
    && Load(now, c.Entry(j, i), c.mach.word) == Load(was, at, c.mach.word)
  }

  /** Thread `j`'s entry for module `x` points to its block, which holds the image. */
  ghost predicate BlockSet(c: Install, was: Cells, now: Cells, x: nat, j: nat)
    requires c.last < |c.list| && x < |c.list|
  {
    var d := c.list[x];
    && d.align > 0
    && Mapped(now, c.Entry(j, d.id), c.mach.word) && Load(now, c.Entry(j, d.id), c.mach.word) == c.Block(x, j)
    && Mapped(now, c.Block(x, j), d.len) && Mapped(was, d.image, d.len)
    && Get(now, c.Block(x, j), d.len) == Get(was, d.image, d.len)
  }

  /** Only new DTVs and the image parts of new blocks are written. */
  ghost predicate Written(c: Install, a: nat)
    requires c.last < |c.list|
  {
    || (exists j :: 0 <= j < |c.dtvs| && InRow(c, j, a))
    || (exists x, j :: c.New(x) && 0 <= j < |c.dtvs| && InBlock(c, x, j, a))
  }

  ghost predicate InRow(c: Install, j: nat, a: nat)
    requires c.last < |c.list|
  {
    c.Row(j) <= a < c.Row(j) + c.RowSize()
  }

  ghost predicate InBlock(c: Install, x: nat, j: nat, a: nat)
    requires x < |c.list|
  {
    c.list[x].align > 0 && c.Block(x, j) <= a < c.Block(x, j) + c.list[x].len
  }

  ghost predicate Framed(c: Install, was: Cells, now: Cells)
    requires c.last < |c.list|
  {
    now.Keys == was.Keys && forall a :: a in was && !Written(c, a) ==> now[a] == was[a]
  }

  /** Rows below `rows` are set up, and blocks up to thread `j` of module `x`. */
  ghost predicate Progress(c: Install, was: Cells, now: Cells, rows: nat, x: nat, j: nat)
    requires c.last < |c.list| && rows <= |c.dtvs|
  {
    && Framed(c, was, now)
    && (forall k :: 0 <= k < rows ==> RowSet(c, was, now, k))
    && (forall y, k :: c.New(y) && 0 <= k < |c.dtvs| && (y < x || (y == x && k < j)) ==> BlockSet(c, was, now, y, k))
  }

  lemma NotWritten(c: Install, a: nat)
    requires c.Ok() && forall y :: c.New(y) ==> a < c.list[y].chunk || c.list[y].chunk + c.list[y].chunkSize <= a
    ensures !Written(c, a)
  {
    hide Times, TwoTo, Rem;
    forall j | 0 <= j < |c.dtvs|
      ensures !InRow(c, j, a)
    {
      assert c.New(c.last);
      RowsFit(c, j);
    }
    forall x, j | c.New(x) && 0 <= j < |c.dtvs|
      ensures !InBlock(c, x, j, a)
    {
      BlockFits(c, x, j);
      assert c.ModuleOk(x);
    }
  }

  /** Memory apart from all the new chunks reads as before. */
  lemma SourceKept(c: Install, was: Cells, now: Cells, at: nat, n: nat)
    requires c.Ok() && Framed(c, was, now) && Mapped(was, at, n)
    requires forall y :: c.New(y) ==> Apart(at, n, c.list[y].chunk, c.list[y].chunkSize)
    ensures Mapped(now, at, n) && Get(now, at, n) == Get(was, at, n)
  {
    forall a | a in was && at <= a < at + n
      ensures now[a] == was[a]
    {
      NotWritten(c, a);
    }
  }

  lemma FrameStep(c: Install, was: Cells, now: Cells, at: nat, s: seq<Byte>)
    requires c.last < |c.list| && Framed(c, was, now)
    requires forall a :: at <= a < at + |s| ==> Written(c, a)
    ensures Framed(c, was, Put(now, at, s))
  {
    hide Written, Put;
    forall a | a in was && !Written(c, a)
      ensures Put(now, at, s)[a] == was[a]
    {
      PutAt(now, at, s, a);
    }
  }

  lemma RowKept(c: Install, was: Cells, now: Cells, k: nat, at: nat, s: seq<Byte>)
    requires c.Ok() && k < |c.dtvs| && RowSet(c, was, now, k) && Apart(at, |s|, c.Row(k), c.OldSize())
    ensures RowSet(c, was, Put(now, at, s), k)
  {
    hide Times, TwoTo, Mapped, Get, Put;
    RowHead(c, k);
    GetPutApart(now, at, s, c.Row(k), c.mach.word);
    forall i | 0 < i <= c.was
      ensures EntryKept(c, was, Put(now, at, s), k, i)
    {
      assert EntryKept(c, was, now, k, i);
      OldEntryFits(c, k, i);
      GetPutApart(now, at, s, c.Entry(k, i), c.mach.word);
    }
  }

  lemma RowHead(c: Install, k: nat)
    requires c.Ok()
    ensures c.mach.word <= c.OldSize() <= c.RowSize()
  {
    hide Times, TwoTo;
    EntryFits(c, k, 0);
  }

  lemma OldEntryFits(c: Install, j: nat, i: nat)
    requires c.Ok() && 0 < i <= c.was
    ensures Times(i, c.mach.word) + c.mach.word <= c.OldSize() && c.mach.word <= Times(i, c.mach.word)
  {
    hide Times, TwoTo;
    TimesOrder(i, c.was - i, c.mach.word);
    TimesMonotone(1, i, c.mach.word);
  }

  lemma BlockKept(c: Install, was: Cells, now: Cells, y: nat, k: nat, at: nat, s: seq<Byte>)
    requires c.last < |c.list| && y < |c.list| && BlockSet(c, was, now, y, k)
    requires Apart(at, |s|, c.Entry(k, c.list[y].id), c.mach.word) && Apart(at, |s|, c.Block(y, k), c.list[y].len)
    ensures BlockSet(c, was, Put(now, at, s), y, k)
  {
    hide Times, Mapped, Get, Put, Rem;
    GetPutApart(now, at, s, c.Entry(k, c.list[y].id), c.mach.word);
    GetPutApart(now, at, s, c.Block(y, k), c.list[y].len);
  }

  /** Memory after the first loop's round for thread `i`. */
  ghost function RowWritten(c: Install, now: Cells, i: nat): Cells
    requires c.last < |c.list| && i < |c.dtvs| && Mapped(now, c.dtvs[i], c.OldSize())
  {
    Put(Put(now, c.Row(i), Get(now, c.dtvs[i], c.OldSize())), c.Row(i), BytesOf(c.cnt, c.mach.word))
  }

  lemma RowMapped(c: Install, was: Cells, now: Cells, i: nat)
    requires c.Ok() && i < |c.dtvs| && c.Present(was) && now.Keys == was.Keys
    ensures Mapped(now, c.dtvs[i], c.OldSize()) && Mapped(now, c.Row(i), c.RowSize())
    ensures Mapped(now, c.Row(i), c.OldSize()) && Mapped(now, c.Row(i), c.mach.word)
  {
    hide Times, TwoTo, Mapped;
    assert c.New(c.last);
    RowsFit(c, i);
    RowHead(c, i);
    var d := c.list[c.last];
    MappedKeys(was, now, d.chunk, d.chunkSize);
    MappedKeys(was, now, c.dtvs[i], c.OldSize());
    MappedInside(now, d.chunk, d.chunkSize, c.Row(i), c.RowSize());
    MappedInside(now, c.Row(i), c.RowSize(), c.Row(i), c.OldSize());
    MappedInside(now, c.Row(i), c.RowSize(), c.Row(i), c.mach.word);
  }

  lemma RowMade(c: Install, was: Cells, now: Cells, i: nat)
    requires c.Ok() && i < |c.dtvs| && c.Present(was) && Framed(c, was, now) && Mapped(now, c.dtvs[i], c.OldSize())
    ensures RowSet(c, was, RowWritten(c, now, i), i)
  {
    hide Times, TwoTo, Mapped, Get, Put, Load, Written, BytesOf;
    RowMapped(c, was, now, i);
    RowHead(c, i);
    var from, w := c.dtvs[i], c.mach.word;
    var now1 := Put(now, c.Row(i), Get(now, from, c.OldSize()));
    var now2 := Put(now1, c.Row(i), BytesOf(c.cnt, w));
    MappedKeys(now, now1, c.Row(i), w);
    LoadPut(now1, c.Row(i), c.cnt, w);
    forall e | 0 < e <= c.was
      ensures EntryKept(c, was, now2, i, e)
    {
      OldEntryFits(c, i, e);
      GetPutPart(now, c.Row(i), from, c.OldSize(), Times(e, w), w);
      GetPutApart(now1, c.Row(i), BytesOf(c.cnt, w), c.Entry(i, e), w);
      assert Mapped(was, from, c.OldSize());
      MappedInside(was, from, c.OldSize(), from + Times(e, w), w);
      DtvApart(c, i, e);
      SourceKept(c, was, now, from + Times(e, w), w);
      SameLoad(now2, c.Entry(i, e), was, from + Times(e, w), w);
    }
  }

  lemma SameLoad(m: Cells, at: nat, m': Cells, at': nat, n: nat)
    requires Mapped(m, at, n) && Mapped(m', at', n) && Get(m, at, n) == Get(m', at', n)
    ensures Load(m, at, n) == Load(m', at', n)
  {
  }

  lemma DtvApart(c: Install, j: nat, e: nat)
    requires c.Ok() && j < |c.dtvs| && 0 < e <= c.was
    ensures forall y :: c.New(y) ==>
              Apart(c.dtvs[j] + Times(e, c.mach.word), c.mach.word, c.list[y].chunk, c.list[y].chunkSize)
  {
    hide Times, TwoTo;
    OldEntryFits(c, j, e);
  }

  lemma RowStep(c: Install, was: Cells, now: Cells, i: nat)
    requires c.Ok() && i < |c.dtvs| && c.Present(was) && Progress(c, was, now, i, 0, 0)
    ensures Mapped(now, c.dtvs[i], c.OldSize()) && Mapped(now, c.Row(i), c.OldSize()) && Mapped(now, c.Row(i), c.mach.word)
    ensures Progress(c, was, RowWritten(c, now, i), i + 1, 0, 0)
  {
    hide Times, TwoTo, Mapped, Get, Put, Load, RowSet, BlockSet, Written, BytesOf, Rem;
    RowMapped(c, was, now, i);
    RowHead(c, i);
    RowMade(c, was, now, i);
    var s1, s2 := Get(now, c.dtvs[i], c.OldSize()), BytesOf(c.cnt, c.mach.word);
    var now1 := Put(now, c.Row(i), s1);
    forall k | 0 <= k < i
      ensures RowSet(c, was, RowWritten(c, now, i), k)
    {
      RowsApart(c, k, i);
      RowKept(c, was, now, k, c.Row(i), s1);
      RowKept(c, was, now1, k, c.Row(i), s2);
    }
    forall a | c.Row(i) <= a < c.Row(i) + c.RowSize()
      ensures Written(c, a)
    {
      RowWrites(c, i, a);
    }
    FrameStep(c, was, now, c.Row(i), s1);
    FrameStep(c, was, now1, c.Row(i), s2);
  }

  lemma RowWrites(c: Install, i: nat, a: nat)
    requires c.last < |c.list| && i < |c.dtvs| && c.Row(i) <= a < c.Row(i) + c.RowSize()
    ensures Written(c, a)
  {
    assert InRow(c, i, a);
  }

  lemma BlockWrites(c: Install, x: nat, j: nat, a: nat)
    requires c.last < |c.list| && c.New(x) && j < |c.dtvs| && InBlock(c, x, j, a)
    ensures Written(c, a)
  {
  }

  /** Memory after the second loop's round for module `x` and thread `j`. */
  ghost function BlockWritten(c: Install, now: Cells, x: nat, j: nat): Cells
    requires c.last < |c.list| && x < |c.list| && c.list[x].align > 0 && Mapped(now, c.list[x].image, c.list[x].len)
  {
    var d := c.list[x];
    Put(Put(now, c.Block(x, j), Get(now, d.image, d.len)), c.Entry(j, d.id), BytesOf(c.Block(x, j), c.mach.word))
  }

  lemma BlockMapped(c: Install, was: Cells, now: Cells, x: nat, j: nat)
    requires c.Ok() && c.New(x) && j < |c.dtvs| && c.Present(was) && now.Keys == was.Keys
    ensures var d := c.list[x];
            && d.align > 0 && c.Block(x, j) < TwoTo(c.mach.Bits()) && d.len <= d.size && c.was < d.id <= c.cnt
            && Mapped(now, d.image, d.len) && Mapped(now, c.Block(x, j), d.len) && Mapped(now, c.Entry(j, d.id), c.mach.word)
  {
    hide Times, TwoTo, Mapped, Rem;
    assert c.ModuleOk(x);
    var d := c.list[x];
    BlockFits(c, x, j);
    RowMapped(c, was, now, j);
    EntryFits(c, j, d.id);
    MappedKeys(was, now, d.chunk, d.chunkSize);
    MappedKeys(was, now, d.image, d.len);
    MappedInside(now, d.chunk, d.chunkSize, c.Block(x, j), d.len);
    MappedInside(now, c.Row(j), c.RowSize(), c.Entry(j, d.id), c.mach.word);
  }

  lemma BlockMade(c: Install, was: Cells, now: Cells, x: nat, j: nat)
    requires c.Ok() && c.New(x) && j < |c.dtvs| && c.Present(was) && Framed(c, was, now)
    requires c.list[x].align > 0 && Mapped(now, c.list[x].image, c.list[x].len)
    ensures BlockSet(c, was, BlockWritten(c, now, x, j), x, j)
  {
    hide Times, TwoTo, Mapped, Get, Put, Load, Written, BytesOf, Rem;
    BlockMapped(c, was, now, x, j);
    BlockRowApart(c, x, j, j);
    var d := c.list[x];
    EntryFits(c, j, d.id);
    SourceKept(c, was, now, d.image, d.len);
    var s := Get(now, d.image, d.len);
    var now1 := Put(now, c.Block(x, j), s);
    GetPut(now, c.Block(x, j), s);
    MappedKeys(now, now1, c.Entry(j, d.id), c.mach.word);
    GetPutApart(now1, c.Entry(j, d.id), BytesOf(c.Block(x, j), c.mach.word), c.Block(x, j), d.len);
    LoadPut(now1, c.Entry(j, d.id), c.Block(x, j), c.mach.word);
  }

  /** Entries of different modules or threads do not overlap. */
  lemma EntriesApart(c: Install, x: nat, j: nat, y: nat, k: nat)
    requires c.Ok() && c.New(x) && c.New(y) && (x != y || j != k)
    ensures Apart(c.Entry(j, c.list[x].id), c.mach.word, c.Entry(k, c.list[y].id), c.mach.word)
  {
    hide Times, TwoTo, Rem;
    var p, q := c.list[x].id, c.list[y].id;
    EntryFits(c, j, p);
    EntryFits(c, k, q);
    if j < k {
      RowsApart(c, j, k);
    } else if k < j {
      RowsApart(c, k, j);
    } else if p < q {
      TimesOrder(p, q - p - 1, c.mach.word);
    } else {
      TimesOrder(q, p - q - 1, c.mach.word);
    }
  }

  lemma OtherBlock(c: Install, was: Cells, now: Cells, x: nat, j: nat, y: nat, k: nat)
    requires c.Ok() && c.New(x) && c.New(y) && j < |c.dtvs| && k < |c.dtvs| && (x != y || j != k)
    requires c.list[x].align > 0 && Mapped(now, c.list[x].image, c.list[x].len) && BlockSet(c, was, now, y, k)
    ensures BlockSet(c, was, BlockWritten(c, now, x, j), y, k)
  {
    hide Times, TwoTo, Mapped, Get, Put, Rem, BlockSet, BytesOf;
    assert c.ModuleOk(x) && c.ModuleOk(y);
    var d := c.list[x];
    EntryFits(c, k, c.list[y].id);
    EntryFits(c, j, d.id);
    BlocksApart(c, x, j, y, k);
    BlockRowApart(c, x, j, k);
    BlockRowApart(c, y, k, j);
    EntriesApart(c, x, j, y, k);
    BlockKept(c, was, now, y, k, c.Block(x, j), Get(now, d.image, d.len));
    BlockKept(c, was, Put(now, c.Block(x, j), Get(now, d.image, d.len)), y, k, c.Entry(j, d.id),
              BytesOf(c.Block(x, j), c.mach.word));
  }

  lemma OtherRow(c: Install, was: Cells, now: Cells, x: nat, j: nat, k: nat)
    requires c.Ok() && c.New(x) && j < |c.dtvs| && k < |c.dtvs|
    requires c.list[x].align > 0 && Mapped(now, c.list[x].image, c.list[x].len) && RowSet(c, was, now, k)
    ensures RowSet(c, was, BlockWritten(c, now, x, j), k)
  {
    hide Times, TwoTo, Mapped, Get, Put, Rem, RowSet, BytesOf;
    assert c.ModuleOk(x);
    var d := c.list[x];
    EntryFits(c, j, d.id);
    BlockRowApart(c, x, j, k);
    if j < k {
      RowsApart(c, j, k);
    } else if k < j {
      RowsApart(c, k, j);
    }
    RowKept(c, was, now, k, c.Block(x, j), Get(now, d.image, d.len));
    RowKept(c, was, Put(now, c.Block(x, j), Get(now, d.image, d.len)), k, c.Entry(j, d.id),
            BytesOf(c.Block(x, j), c.mach.word));
  }

  lemma BlockFrame(c: Install, was: Cells, now: Cells, x: nat, j: nat)
    requires c.Ok() && c.New(x) && j < |c.dtvs| && Framed(c, was, now)
    requires c.list[x].align > 0 && Mapped(now, c.list[x].image, c.list[x].len)
    ensures Framed(c, was, BlockWritten(c, now, x, j))
  {
    hide Times, TwoTo, Mapped, Get, Put, Rem, Written, BytesOf;
    var d := c.list[x];
    EntryFits(c, j, d.id);
    forall a | c.Block(x, j) <= a < c.Block(x, j) + d.len
      ensures Written(c, a)
    {
      BlockWrites(c, x, j, a);
    }
    FrameStep(c, was, now, c.Block(x, j), Get(now, d.image, d.len));
    forall a | c.Entry(j, d.id) <= a < c.Entry(j, d.id) + c.mach.word
      ensures Written(c, a)
    {
      RowWrites(c, j, a);
    }
    FrameStep(c, was, Put(now, c.Block(x, j), Get(now, d.image, d.len)), c.Entry(j, d.id),
              BytesOf(c.Block(x, j), c.mach.word));
  }

  lemma BlockStep(c: Install, was: Cells, now: Cells, x: nat, j: nat)
    requires c.Ok() && c.New(x) && j < |c.dtvs| && c.Present(was) && Progress(c, was, now, |c.dtvs|, x, j)
    ensures c.list[x].align > 0 && Mapped(now, c.list[x].image, c.list[x].len)
    ensures Progress(c, was, BlockWritten(c, now, x, j), |c.dtvs|, x, j + 1)
  {
    hide Times, TwoTo, Mapped, Get, Put, Rem, BlockSet, RowSet, Framed, BlockWritten;
    assert now.Keys == was.Keys by { FrameKeys(c, was, now); }
    BlockMapped(c, was, now, x, j);
    BlockMade(c, was, now, x, j);
    BlockFrame(c, was, now, x, j);
    forall k | 0 <= k < |c.dtvs|
      ensures RowSet(c, was, BlockWritten(c, now, x, j), k)
    {
      OtherRow(c, was, now, x, j, k);
    }
    forall y, k | c.New(y) && 0 <= k < |c.dtvs| && (y < x || (y == x && k < j + 1))
      ensures BlockSet(c, was, BlockWritten(c, now, x, j), y, k)
    {
      if y != x || k != j {
        OtherBlock(c, was, now, x, j, y, k);
      }
    }
  }

  lemma FrameKeys(c: Install, was: Cells, now: Cells)
    requires c.last < |c.list| && Framed(c, was, now)
    ensures now.Keys == was.Keys
  {
  }

  // ---- the call ---------------------------------------------------------------------------------------

  lemma SkipModule(c: Install, was: Cells, now: Cells, x: nat, j: nat)
    requires c.last < |c.list| && Progress(c, was, now, |c.dtvs|, x, j) && (c.New(x) ==> j == |c.dtvs|)
    ensures Progress(c, was, now, |c.dtvs|, x + 1, 0)
  {
    hide RowSet, BlockSet, Framed;
  }

  lemma ProgressBegins(c: Install, was: Cells)
    requires c.last < |c.list|
    ensures Progress(c, was, was, 0, 0, 0)
  {
  }

  lemma LastIsLast(c: Install, x: nat)
    requires c.Ok() && x < |c.list| && c.New(x)
    ensures x <= c.last && (x == c.last <==> c.list[x].id == c.cnt)
  {
  }

  /** Everything the threads are promised. */
  ghost predicate Installed(c: Install, was: Cells, now: Cells)
    requires c.last < |c.list|
  {
    && Framed(c, was, now)
    && (forall j :: 0 <= j < |c.dtvs| ==> RowSet(c, was, now, j))
    && (forall x, j :: c.New(x) && 0 <= j < |c.dtvs| ==> BlockSet(c, was, now, x, j))
  }

  lemma AllDone(c: Install, was: Cells, now: Cells)
    requires c.Ok() && Progress(c, was, now, |c.dtvs|, c.last + 1, 0)
    ensures Installed(c, was, now)
  {
    hide RowSet, BlockSet, Framed;
    forall x, j | c.New(x) && 0 <= j < |c.dtvs|
      ensures BlockSet(c, was, now, x, j)
    {
      LastIsLast(c, x);
    }
  }

  /** install_new_tls.  `threads` is the ring of live threads from the caller on; `last` is the place of
      tls_tail's DSO in the list. */
  method InstallNewTls(space: Space, threads: seq<Thread>, mach: Machine, list: seq<Dso>, cnt: nat, last: nat, ghost c: Install)
    requires c.Ok() && c.Present(space.cells)
    requires c.mach == mach && c.list == list && c.cnt == cnt && c.last == last && |c.dtvs| == |threads| > 0
    requires forall j :: 0 <= j < |threads| ==> threads[j].dtv == c.dtvs[j]
    requires forall i, j :: 0 <= i < j < |threads| ==> threads[i] != threads[j]
    requires Mapped(space.cells, c.dtvs[0], mach.word) && Load(space.cells, c.dtvs[0], mach.word) == c.was
    modifies space, threads
    ensures Installed(c, old(space.cells), space.cells)
    ensures forall j :: 0 <= j < |threads| ==> threads[j].dtv == c.Row(j)
  {
    hide Times, TwoTo, Mapped, Get, Put, Rem, BlockSet, RowSet, Framed, Progress, Load, Installed, BytesOf, BitAnd;
    ghost var was := space.cells;
    var oldCnt := Load(space.cells, threads[0].dtv, mach.word);
    CopyDtvs(space, threads, mach, list, cnt, oldCnt, last, c);
    var x, done := 0, false;
    while !done
      invariant !done ==> 0 <= x <= last && Progress(c, was, space.cells, |c.dtvs|, x, 0)
      invariant done ==> x == last && Progress(c, was, space.cells, |c.dtvs|, last + 1, 0)
      decreases !done, last - x
    {
      if list[x].id > oldCnt {
        FillModule(space, |threads|, mach, list, cnt, last, x, c, was);
        LastIsLast(c, x);
        done := list[x].id == cnt;
      } else {
        SkipModule(c, was, space.cells, x, 0);
      }
      if !done {
        x := x + 1;
      }
    }
    AllDone(c, was, space.cells);
    SwitchDtvs(threads, mach, list, cnt, last, c);
  }

  /** First loop: the old entries move to the new DTVs. */
  method CopyDtvs(space: Space, threads: seq<Thread>, mach: Machine, list: seq<Dso>, cnt: nat, oldCnt: nat, last: nat,
                  ghost c: Install)
    requires c.Ok() && c.Present(space.cells)
    requires c.mach == mach && c.list == list && c.cnt == cnt && c.last == last && c.was == oldCnt && |c.dtvs| == |threads|
    requires forall j :: 0 <= j < |threads| ==> threads[j].dtv == c.dtvs[j]
    modifies space
    ensures Progress(c, old(space.cells), space.cells, |threads|, 0, 0)
  {
    hide Times, TwoTo, Mapped, Get, Put, Rem, BlockSet, RowSet, Framed, Progress, BytesOf;
    ghost var was := space.cells;
    var i := 0;
    ProgressBegins(c, was);
    while i < |threads|
      invariant 0 <= i <= |threads| && Progress(c, was, space.cells, i, 0, 0)
    {
      RowStep(c, was, space.cells, i);
      ghost var now := space.cells;
      var newdtv := list[last].newDtv + Times(i, Times(cnt + 1, mach.word));
      space.Copy(newdtv, threads[i].dtv, Times(oldCnt + 1, mach.word));
      MappedKeys(now, space.cells, newdtv, mach.word);
      space.Store(newdtv, cnt, mach.word);
      i := i + 1;
    }
  }

  /** One new module: a block and an entry for each thread. */
  method FillModule(space: Space, n: nat, mach: Machine, list: seq<Dso>, cnt: nat, last: nat, x: nat,
                    ghost c: Install, ghost was: Cells)
    requires c.Ok() && c.Present(was) && c.New(x) && Progress(c, was, space.cells, |c.dtvs|, x, 0)
    requires c.mach == mach && c.list == list && c.cnt == cnt && c.last == last && |c.dtvs| == n
    modifies space
    ensures Progress(c, was, space.cells, |c.dtvs|, x + 1, 0)
  {
    hide Times, TwoTo, Mapped, Get, Put, Rem, BlockSet, RowSet, Framed, Progress, BytesOf, BitAnd, Word;
    var d := list[x];
    var mem := d.newTls;
    var j := 0;
    TimesZero(d.size + d.align);
    while j < n
      invariant 0 <= j <= n && mem == c.Room(x, j) && Progress(c, was, space.cells, |c.dtvs|, x, j)
    {
      assert c.ModuleOk(x);
      BlockStep(c, was, space.cells, x, j);
      MaskWord(mach.Bits(), d.image - mem, d.align);
      var new' := mem + BitAnd(Word(mach.Bits(), d.image - mem), Word(mach.Bits(), d.align - 1));
      ghost var now := space.cells;
      assert Mapped(now, new', d.len) && Mapped(now, c.Entry(j, d.id), mach.word) by {
        ProgressKeys(c, was, now, x, j);
        BlockMapped(c, was, now, x, j);
      }
      space.Copy(new', d.image, d.len);
      MappedKeys(now, space.cells, c.Entry(j, d.id), mach.word);
      var newdtv := list[last].newDtv + Times(j, Times(cnt + 1, mach.word));
      space.Store(newdtv + Times(d.id, mach.word), new', mach.word);
      mem := mem + d.size + d.align;
      TimesNext(j, d.size + d.align);
      j := j + 1;
    }
    SkipModule(c, was, space.cells, x, n);
  }

  lemma TimesZero(w: nat)
    ensures Times(0, w) == 0
  {
  }

  lemma TimesNext(j: nat, w: nat)
    ensures Times(j + 1, w) == Times(j, w) + w
  {
  }

  lemma ProgressKeys(c: Install, was: Cells, now: Cells, x: nat, j: nat)
    requires c.last < |c.list| && Progress(c, was, now, |c.dtvs|, x, j)
    ensures now.Keys == was.Keys
  {
  }

  /** Last loop: every thread is pointed to its new DTV. */
  method SwitchDtvs(threads: seq<Thread>, mach: Machine, list: seq<Dso>, cnt: nat, last: nat, ghost c: Install)
    requires c.mach == mach && c.list == list && c.cnt == cnt && c.last == last < |list|
    requires forall i, j :: 0 <= i < j < |threads| ==> threads[i] != threads[j]
    modifies threads
    ensures forall j :: 0 <= j < |threads| ==> threads[j].dtv == c.Row(j)
  {
    hide Times;
    var j := 0;
    while j < |threads|
      invariant 0 <= j <= |threads|
      invariant forall i :: 0 <= i < j ==> threads[i].dtv == c.Row(i)
    {
      threads[j].dtv := list[last].newDtv + Times(j, Times(cnt + 1, mach.word));
      j := j + 1;
    }
  }
}
