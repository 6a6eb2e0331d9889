/**
 The streaming side of MD5, SHA-256 and SHA-512 as crypt uses them: a context that
 is fed in pieces of any length, padded, and read out.  The compression function
 is a parameter.
 */
module HashStream {
  import opened Words
  import opened Memory

  datatype Format = Md5 | Sha256 | Sha512 {

    /** Bytes in a block. */
    function Block(): nat {
      if Sha512? then 128 else 64
    }

    /** Bytes at the end of the last block that hold the length in bits. */
    function Field(): nat {
      if Sha512? then 16 else 8
    }

    /** Bytes in a word of the chaining value, and words. */
    function Word(): nat {
      if Sha512? then 8 else 4
    }

    function Words(): nat {
      if Md5? then 4 else 8
    }

    function DigestSize(): nat {
      Word() * Words()
    }
  }

  type Compression = (seq<nat>, seq<Byte>) -> seq<nat>

  // ---- the standards' definitions ------------------------------------------------------------------

  /** Compression of all the whole blocks of `s`. */
  function Blocks(f: Compression, b: nat, h: seq<nat>, s: seq<Byte>): seq<nat>
    requires b > 0
    decreases |s|
  {
    if |s| < b then h else Blocks(f, b, f(h, s[..b]), s[b..])
  }

  function ByteAt(v: nat, j: nat): Byte {
    Shr(v, 8 * j) % 256
  }

  /** The message length in bits: 64 or 128 bits big-endian, for MD5 the low-order 64 little-endian. */
  function LengthField(fmt: Format, bits: nat): seq<Byte> {
    seq(fmt.Field(), i requires 0 <= i < fmt.Field() => ByteAt(bits, if fmt.Md5? then i else fmt.Field() - 1 - i))
  }

  function Zeros(n: nat): seq<Byte> {
    seq(n, i => 0)
  }

  /** The fewest zero bytes that make the padded length a multiple of the block. */
  function Gap(fmt: Format, n: nat): nat {
    Rem(2 * fmt.Block() - fmt.Field() - 1 - Rem(n, fmt.Block()), fmt.Block())
  }

  /** Padding of a message of `n` bytes: a one bit, zeros, and the length. */
  function Padding(fmt: Format, n: nat): seq<Byte> {
    [0x80] + Zeros(Gap(fmt, n)) + LengthField(fmt, 8 * n)
  }

  lemma PaddedWhole(fmt: Format, n: nat)
    ensures var b := if fmt == Sha512 then 128 else 64;
            Rem(n + |Padding(fmt, n)|, b) == 0 && Gap(fmt, n) < b
  {
    hide Rem, Zeros, LengthField;
    assert |Zeros(Gap(fmt, n))| == Gap(fmt, n) && |LengthField(fmt, 8 * n)| == fmt.Field() by { FieldSizes(fmt, n); }
    GapFills(n, fmt.Block(), fmt.Field());
  }

  lemma FieldSizes(fmt: Format, n: nat)
    ensures |Zeros(Gap(fmt, n))| == Gap(fmt, n) && |LengthField(fmt, 8 * n)| == fmt.Field()
  {
  }

  lemma GapFills(n: nat, b: nat, field: nat)
    requires b > 0
    ensures Rem(n + 1 + Rem(2 * b - field - 1 - Rem(n, b), b) + field, b) == 0
  {
    hide Rem;
    var x := 2 * b - field - 1 - Rem(n, b);
    var p := RemQuotient(n, b);
    var q := RemQuotient(x, b);
    assert n + 1 + Rem(x, b) + field == b * (p + 2 - q) + 0;
    RemIs(n + 1 + Rem(x, b) + field, b, p + 2 - q, 0);
  }

  /** The digest: the words' bytes, big-endian, for MD5 little-endian. */
  function Digest(fmt: Format, h: seq<nat>): seq<Byte> {
    seq(fmt.Word() * |h|, i requires 0 <= i < fmt.Word() * |h| => DigestByte(fmt, h, i))
  }

  function DigestByte(fmt: Format, h: seq<nat>, i: nat): Byte
    requires i < fmt.Word() * |h|
  {
    ByteAt(h[i / fmt.Word()], if fmt.Md5? then i % fmt.Word() else fmt.Word() - 1 - i % fmt.Word())
  }

  // ---- reading the bytes back --------------------------------------------------------------------------

  /** The number that bytes spell, most significant first. */
  function BigEndian(s: seq<Byte>): nat {
    if s == [] then 0 else 256 * BigEndian(s[..|s| - 1]) + s[|s| - 1]
  }

  /** ... least significant first. */
  function LittleEndian(s: seq<Byte>): nat {
    if s == [] then 0 else s[0] + 256 * LittleEndian(s[1..])
  }

  lemma ByteNext(v: nat, j: nat)
    ensures ByteAt(v, 0) == v % 256 && ByteAt(v, j + 1) == ByteAt(v / 256, j)
  {
    TwoToAdd(8, 8 * j);
    DivDiv(v, 256, TwoTo(8 * j));
  }

  lemma DivDiv(v: nat, a: nat, b: nat)
    requires a > 0 && b > 0
    ensures a * b > 0 && v / (a * b) == v / a / b
  {
    var q, r := v / a, v % a;
    var t, u := q / b, q % b;
    assert v == a * q + r && q == b * t + u;
    Nested(v, a, b, t, u, r);
    DivUnique(v, a * b, t, a * u + r);
  }

  lemma Nested(v: nat, a: nat, b: nat, t: int, u: int, r: int)
    requires 0 <= u < b && 0 <= r < a && v == a * (b * t + u) + r
    ensures v == (a * b) * t + (a * u + r) && 0 <= a * u + r < a * b
  {
    assert a * u <= a * (b - 1);
    assert a * (b * t + u) == a * (b * t) + a * u;
    assert a * (b * t) == (a * b) * t;
  }

  lemma RemNext(v: nat, n: nat)
    ensures Rem(v, TwoTo(8 * (n + 1))) == v % 256 + 256 * Rem(v / 256, TwoTo(8 * n))
  {
    TwoToAdd(8, 8 * n);
    var m := TwoTo(8 * n);
    assert TwoTo(8) == 256;
    hide Rem, TwoTo;
    var q := RemQuotient(v / 256, m);
    var x := Rem(v / 256, m);
    assert v == 256 * (m * q + x) + v % 256;
    Nested(v, 256, m, q, x, v % 256);
    RemIs(v, 256 * m, q, 256 * x + v % 256);
  }

  /** The low bytes of `v`, in either order, spell what is left of it. */
  lemma {:induction false} ReadsLittle(s: seq<Byte>, v: nat)
    requires forall j :: 0 <= j < |s| ==> s[j] == ByteAt(v, j)
    ensures LittleEndian(s) == Rem(v, TwoTo(8 * |s|))
  {
    hide ByteAt, TwoTo, Rem;
    if s == [] {
      RemOne(v);
    } else {
      forall j | 0 <= j < |s| - 1
        ensures s[1..][j] == ByteAt(v / 256, j)
      {
        ByteNext(v, j);
      }
      ByteNext(v, 0);
      ReadsLittle(s[1..], v / 256);
      RemNext(v, |s| - 1);
    }
  }

  lemma {:induction false} ReadsBig(s: seq<Byte>, v: nat)
    requires forall j :: 0 <= j < |s| ==> s[j] == ByteAt(v, |s| - 1 - j)
    ensures BigEndian(s) == Rem(v, TwoTo(8 * |s|))
  {
    hide ByteAt, TwoTo, Rem;
    if s == [] {
      RemOne(v);
    } else {
      var front := s[..|s| - 1];
      forall j | 0 <= j < |front|
        ensures front[j] == ByteAt(v / 256, |front| - 1 - j)
      {
        ByteNext(v, |front| - 1 - j);
      }
      ByteNext(v, 0);
      ReadsBig(front, v / 256);
      RemNext(v, |s| - 1);
    }
  }

  lemma RemOne(v: nat)
    ensures Rem(v, TwoTo(8 * 0)) == 0
  {
    RemIs(v, 1, v, 0);
  }

  /** A word read back from its place in the digest is the word of the chaining value: big-endian, four bytes for
      SHA-256 and eight for SHA-512; for MD5 little-endian, four bytes. */
  lemma DigestWord(fmt: Format, h: seq<nat>, i: nat)
    requires i < |h|
    ensures var w := if fmt == Sha512 then 8 else 4;
            |Digest(fmt, h)| == w * |h| && w * (i + 1) <= w * |h| &&
            var s := Digest(fmt, h)[w * i..w * (i + 1)];
            (if fmt == Md5 then LittleEndian(s) else BigEndian(s)) == Rem(h[i], TwoTo(8 * w))
  {
    hide TwoTo, Rem, ByteAt, LittleEndian, BigEndian;
    var w := if fmt == Sha512 then 8 else 4;
    var s := Digest(fmt, h)[w * i..w * (i + 1)];
    forall j | 0 <= j < w
      ensures s[j] == ByteAt(h[i], if fmt == Md5 then j else w - 1 - j)
    {
      assert (w * i + j) / w == i && (w * i + j) % w == j;
    }
    if fmt == Md5 {
      ReadsLittle(s, h[i]);
    } else {
      ReadsBig(s, h[i]);
    }
  }

  /** The length field: 16 bytes for SHA-512, otherwise eight; it spells the length in bits, big-endian, for MD5
      little-endian. */
  lemma FieldSpells(fmt: Format, bits: nat)
    ensures var n := if fmt == Sha512 then 16 else 8;
            var s := LengthField(fmt, bits);
            |s| == n && (if fmt == Md5 then LittleEndian(s) else BigEndian(s)) == Rem(bits, TwoTo(8 * n))
  {
    hide TwoTo, Rem, ByteAt, LittleEndian, BigEndian;
    if fmt == Md5 {
      ReadsLittle(LengthField(fmt, bits), bits);
    } else {
      ReadsBig(LengthField(fmt, bits), bits);
    }
  }

  // ---- lemmas about blocks ---------------------------------------------------------------------------

  lemma {:induction false} BlocksAppend(f: Compression, b: nat, h: seq<nat>, s: seq<Byte>, t: seq<Byte>)
    requires b > 0 && Whole(s, b)
    ensures Blocks(f, b, h, s + t) == Blocks(f, b, Blocks(f, b, h, s), t)
    decreases |s|
  {
    if |s| < b {
      ShortWhole(|s|, b);
      assert s + t == t;
    } else {
      assert (s + t)[..b] == s[..b] && (s + t)[b..] == s[b..] + t;
      LessWhole(|s|, b);
      BlocksAppend(f, b, f(h, s[..b]), s[b..], t);
    }
  }

  ghost predicate Whole(s: seq<Byte>, b: nat)
    requires b > 0
  {
    Rem(|s|, b) == 0
  }

  lemma ShortWhole(n: nat, b: nat)
    requires n < b && Rem(n, b) == 0
    ensures n == 0
  {
    RemIs(n, b, 0, n);
  }

  lemma LessWhole(n: nat, b: nat)
    requires 0 < b <= n && Rem(n, b) == 0
    ensures Rem(n - b, b) == 0
  {
    var a := RemQuotient(n, b);
    assert n - b == b * (a - 1) + 0;
    RemIs(n - b, b, a - 1, 0);
  }

  lemma OneBlock(f: Compression, b: nat, h: seq<nat>, s: seq<Byte>)
    requires b > 0 && |s| == b
    ensures Blocks(f, b, h, s) == f(h, s)
  {
    assert s[..b] == s && s[b..] == [];
  }

  lemma WholeSum(m: nat, n: nat, b: nat)
    requires b > 0 && Rem(m, b) == 0 && Rem(n, b) == 0
    ensures Rem(m + n, b) == 0
  {
    var p := RemQuotient(m, b);
    var q := RemQuotient(n, b);
    assert m + n == b * (p + q) + 0;
    RemIs(m + n, b, p + q, 0);
  }

  // ---- the context ---------------------------------------------------------------------------------------

  const COUNTER: nat := 0x1_0000_0000_0000_0000 // len is a 64-bit counter

  /** The part of a message that does not fill a block. */
  function Tail(b: nat, msg: seq<Byte>): (t: seq<Byte>)
    requires b > 0
    ensures |t| < b
  {
    msg[|msg| - Rem(|msg|, b)..]
  }

  function Head(b: nat, msg: seq<Byte>): seq<Byte>
    requires b > 0
  {
    msg[..|msg| - Rem(|msg|, b)]
  }

  lemma RemAtMost(n: nat, b: nat)
    requires b > 0
    ensures Rem(n, b) <= n
  {
  }

  lemma HeadWhole(b: nat, msg: seq<Byte>)
    requires b > 0
    ensures Whole(Head(b, msg), b) && msg == Head(b, msg) + Tail(b, msg)
  {
    hide Rem;
    assert Rem(|msg|, b) <= |msg| by { RemAtMost(|msg|, b); }
    var q := RemQuotient(|msg|, b);
    RemIs(|msg| - Rem(|msg|, b), b, q, 0);
  }

  lemma SplitUnique(b: nat, s: seq<Byte>, t: seq<Byte>)
    requires b > 0 && Whole(s, b) && |t| < b
    ensures Head(b, s + t) == s && Tail(b, s + t) == t
  {
    var q := RemQuotient(|s|, b);
    RemIs(|s + t|, b, q, |t|);
  }

  class Context {
    const fmt: Format
    const f: Compression
    const init: seq<nat>
    var len: nat
    var h: seq<nat>
    const buf: array<Byte>

    ghost predicate Valid()
      reads this, buf
    {
      buf.Length == fmt.Block()
    }

    /** The context has taken in exactly `msg`. */
    ghost predicate Absorbed(msg: seq<Byte>)
      reads this, buf
    {
      var b := fmt.Block();
      && Valid() && len == |msg| % COUNTER
      && h == Blocks(f, b, init, Head(b, msg)) && buf[..|Tail(b, msg)|] == Tail(b, msg)
    }

    constructor (fmt: Format, f: Compression, init: seq<nat>)
      ensures Absorbed([]) && this.fmt == fmt && this.f == f && this.init == init && fresh(buf)
    {
      this.fmt, this.f, this.init := fmt, f, init;
      len, h := 0, init;
      buf := new Byte[fmt.Block()];
    }

    /** Copy bytes into the buffer. */
    method Fill(at: nat, p: seq<Byte>)
      requires at + |p| <= buf.Length
      modifies buf
      ensures buf[..at] == old(buf[..at]) && buf[at..at + |p|] == p
      ensures buf[at + |p|..] == old(buf[at + |p|..])
    {
      var i := 0;
      while i < |p|
        invariant 0 <= i <= |p|
        invariant forall k :: 0 <= k < buf.Length ==> buf[k] == if at <= k < at + i then p[k - at] else old(buf[k])
      {
        buf[at + i] := p[i];
        i := i + 1;
      }
    }

    /** *_update. */
    method Update(m: seq<Byte>, ghost msg: seq<Byte>)
      requires Absorbed(msg)
      modifies this`len, this`h, buf
      ensures Absorbed(msg + m)
    {
      hide Blocks, Rem, Whole, Head, Tail;
      var b := fmt.Block();
      ghost var head, tail := Head(b, msg), Tail(b, msg);
      HeadWhole(b, msg);
      TailLength(b, msg);
      CounterRem(fmt, |msg|);
      var r := Rem(len, b);
      CounterAdd(|msg|, |m|);
      len := (len + |m|) % COUNTER;
      if r != 0 {
        if |m| < b - r {
          Fill(r, m);
          Joined(buf[..], r, tail, m);
          SplitUnique(b, head, tail + m);
          assert msg + m == head + (tail + m);
          return;
        }
        FinishBlock(r, m[..b - r], head, tail);
        assert head + (tail + m[..b - r]) + m[b - r..] == msg + m by { assert m == m[..b - r] + m[b - r..]; }
        TakeBlocks(m[b - r..], head + (tail + m[..b - r]));
      } else {
        assert tail == [] && head == msg;
        TakeBlocks(m, head);
      }
    }

    /** The buffered bytes and the first of the new ones make a block. */
    method FinishBlock(r: nat, p: seq<Byte>, ghost head: seq<Byte>, ghost tail: seq<Byte>)
      requires Valid() && r + |p| == fmt.Block() && |tail| == r && buf[..r] == tail
      requires Whole(head, fmt.Block()) && h == Blocks(f, fmt.Block(), init, head)
      modifies this`h, buf
      ensures Whole(head + (tail + p), fmt.Block()) && h == Blocks(f, fmt.Block(), init, head + (tail + p))
    {
      hide Blocks, Rem, Whole;
      Fill(r, p);
      Joined(buf[..], r, tail, p);
      assert buf[..] == buf[..r + |p|];
      TakeBlock(f, fmt.Block(), init, h, head, buf[..]);
      h := f(h, buf[..]);
    }

    /** The for loop and the last memcpy. */
    method TakeBlocks(m: seq<Byte>, ghost head0: seq<Byte>)
      requires Valid() && Whole(head0, fmt.Block()) && h == Blocks(f, fmt.Block(), init, head0)
      modifies this`h, buf
      ensures h == Blocks(f, fmt.Block(), init, Head(fmt.Block(), head0 + m))
      ensures buf[..|Tail(fmt.Block(), head0 + m)|] == Tail(fmt.Block(), head0 + m)
    {
      hide Blocks, Rem, Whole, Head, Tail;
      var b := fmt.Block();
      ghost var head := head0;
      var p := 0;
      while |m| - p >= b
        invariant 0 <= p <= |m| && Whole(head, b) && h == Blocks(f, b, init, head) && head == head0 + m[..p]
      {
        TakeBlock(f, b, init, h, head, m[p..p + b]);
        h := f(h, m[p..p + b]);
        assert m[..p + b] == m[..p] + m[p..p + b];
        head := head + m[p..p + b];
        p := p + b;
      }
      Fill(0, m[p..]);
      SplitUnique(b, head, m[p..]);
      assert head + m[p..] == head0 + m by { assert m == m[..p] + m[p..]; }
      assert buf[..|m| - p] == buf[0..0 + |m[p..]|];
    }

    /** Zero a part of the buffer. */
    method Clear(r: nat, to: nat)
      requires r <= to <= buf.Length
      modifies buf
      ensures buf[..r] == old(buf[..r]) && buf[r..to] == Zeros(to - r) && buf[to..] == old(buf[to..])
    {
      var i := r;
      while i < to
        invariant r <= i <= to
        invariant forall k :: 0 <= k < buf.Length ==> buf[k] == if r <= k < i then 0 else old(buf[k])
      {
        buf[i] := 0;
        i := i + 1;
      }
    }

    /** The eight stores of the length in bits. */
    method StoreCount()
      requires Valid()
      modifies buf
      ensures buf[..CountAt(fmt)] == old(buf[..CountAt(fmt)]) && buf[CountAt(fmt)..] == CountBytes(fmt, len)
    {
      Fill(CountAt(fmt), CountBytes(fmt, len));
      assert buf[CountAt(fmt)..] == buf[CountAt(fmt)..CountAt(fmt) + 8];
    }

    /** pad.  For SHA the message's length in bits must fit the counter; MD5 keeps its low-order 64 bits. */
    method Pad(ghost msg: seq<Byte>)
      requires Absorbed(msg) && (fmt.Md5? || 8 * |msg| < COUNTER)
      modifies this`len, this`h, buf
      ensures Valid() && h == Blocks(f, fmt.Block(), init, msg + Padding(fmt, |msg|))
    {
      hide Blocks, Rem, Whole, Head, Tail, Zeros, CountBytes, Padding, BitCount, Filling;
      var b := fmt.Block();
      ghost var head, tail := Head(b, msg), Tail(b, msg);
      HeadWhole(b, msg);
      TailLength(b, msg);
      CounterRem(fmt, |msg|);
      PadBytes(fmt, |msg|);
      var r := Rem(len, b);
      PutOne(r, tail);
      FillUp(r + 1, head, tail);
    }

    /** The rest of the padding, in one block or two. */
    method FillUp(r: nat, ghost head: seq<Byte>, ghost tail: seq<Byte>)
      requires Valid() && r <= fmt.Block() && |tail| + 1 == r && buf[..r] == tail + [0x80]
      requires Whole(head, fmt.Block()) && h == Blocks(f, fmt.Block(), init, head)
      modifies this`len, this`h, buf
      ensures len == BitCount(old(len)) && h == Blocks(f, fmt.Block(), init, head + tail + Filling(fmt, r, len))
    {
      hide Blocks, Whole, Zeros, CountBytes, BitCount;
      if r > fmt.Block() - fmt.Field() {
        InNextBlock(r, head, tail);
      } else {
        InThisBlock(r, head, tail);
      }
    }

    /** The one bit. */
    method PutOne(r: nat, ghost tail: seq<Byte>)
      requires r < buf.Length && |tail| == r && buf[..r] == tail
      modifies buf
      ensures buf[..r + 1] == tail + [0x80]
    {
      buf[r] := 0x80;
    }

    /** The count goes into the same block. */
    method InThisBlock(r: nat, ghost head: seq<Byte>, ghost tail: seq<Byte>)
      requires Valid() && r <= CountAt(fmt) && |tail| + 1 == r && buf[..r] == tail + [0x80]
      requires Whole(head, fmt.Block()) && h == Blocks(f, fmt.Block(), init, head)
      modifies this`len, this`h, buf
      ensures len == BitCount(old(len))
      ensures var end := CountBytes(fmt, len);
              h == Blocks(f, fmt.Block(), init, head + tail + ([0x80] + Zeros(CountAt(fmt) - r) + end))
    {
      hide Blocks, Rem, Whole, Zeros, CountBytes, BitCount;
      LastBlock(r, head, tail + [0x80]);
      ThisBlock(head, tail, Zeros(CountAt(fmt) - r), CountBytes(fmt, len));
    }

    /** The count goes into a block of its own. */
    method InNextBlock(r: nat, ghost head: seq<Byte>, ghost tail: seq<Byte>)
      requires Valid() && r <= fmt.Block() && |tail| + 1 == r && buf[..r] == tail + [0x80]
      requires Whole(head, fmt.Block()) && h == Blocks(f, fmt.Block(), init, head)
      modifies this`len, this`h, buf
      ensures len == BitCount(old(len))
      ensures var end := Zeros(CountAt(fmt)) + CountBytes(fmt, len);
              h == Blocks(f, fmt.Block(), init, head + tail + ([0x80] + Zeros(fmt.Block() - r) + end))
    {
      hide Blocks, Rem, Whole, Zeros, CountBytes, BitCount;
      ClearBlock(r, head, tail + [0x80]);
      LastBlock(0, head + (tail + [0x80] + Zeros(fmt.Block() - r)), []);
      TwoBlocks(head, tail, Zeros(fmt.Block() - r), Zeros(CountAt(fmt)), CountBytes(fmt, len));
    }

    /** No room for the count: the block is filled up with zeros. */
    method ClearBlock(r: nat, ghost head: seq<Byte>, ghost tail: seq<Byte>)
      requires Valid() && r <= fmt.Block() && |tail| == r && buf[..r] == tail
      requires Whole(head, fmt.Block()) && h == Blocks(f, fmt.Block(), init, head)
      modifies this`h, buf
      ensures var s := head + (tail + Zeros(fmt.Block() - r)); Whole(s, fmt.Block()) && h == Blocks(f, fmt.Block(), init, s)
    {
      hide Blocks, Rem, Whole, Zeros;
      var b := fmt.Block();
      Clear(r, b);
      Joined(buf[..], r, tail, Zeros(b - r));
      assert buf[..] == buf[..b];
      TakeBlock(f, b, init, h, head, buf[..]);
      h := f(h, buf[..]);
    }

    /** Zeros up to the count, the count, and the last compression. */
    method LastBlock(r: nat, ghost head: seq<Byte>, ghost tail: seq<Byte>)
      requires Valid() && r <= CountAt(fmt) && |tail| == r && buf[..r] == tail
      requires Whole(head, fmt.Block()) && h == Blocks(f, fmt.Block(), init, head)
      modifies this`len, this`h, buf
      ensures len == BitCount(old(len))
      ensures h == Blocks(f, fmt.Block(), init, head + (tail + Zeros(CountAt(fmt) - r) + CountBytes(fmt, len)))
    {
      hide Blocks, Rem, Whole, Zeros, CountBytes;
      Clear(r, CountAt(fmt));
      len := len * 8 % COUNTER;
      Joined(buf[..], r, tail, Zeros(CountAt(fmt) - r));
      StoreCount();
      assert buf[..] == buf[..CountAt(fmt)] + buf[CountAt(fmt)..];
      TakeBlock(f, fmt.Block(), init, h, head, buf[..]);
      h := f(h, buf[..]);
    }

    /** *_sum. */
    method Sum(md: array<Byte>, ghost msg: seq<Byte>)
      requires Absorbed(msg) && (fmt.Md5? || 8 * |msg| < COUNTER)
      requires |init| == fmt.Words() && KeepsLength(f, fmt.Words())
      requires md.Length == fmt.DigestSize() && md != buf
      modifies this`len, this`h, buf, md
      ensures md[..] == Hash(fmt, f, init, msg)
    {
      hide Blocks, Padding, ByteAt, Absorbed;
      BlocksLength(f, fmt.Block(), init, msg + Padding(fmt, |msg|), fmt.Words());
      Pad(msg);
      var i := 0;
      while i < fmt.Words()
        invariant 0 <= i <= fmt.Words()
        invariant h == Blocks(f, fmt.Block(), init, msg + Padding(fmt, |msg|))
        invariant forall k :: 0 <= k < fmt.Word() * i ==> md[k] == DigestByte(fmt, h, k)
      {
        StoreWord(md, i);
        i := i + 1;
      }
    }

    /** The bytes of word `i`. */
    method StoreWord(md: array<Byte>, i: nat)
      requires i < |h| && md.Length == fmt.Word() * |h| && md != buf
      requires forall k :: 0 <= k < fmt.Word() * i ==> md[k] == DigestByte(fmt, h, k)
      modifies md
      ensures forall k :: 0 <= k < fmt.Word() * (i + 1) ==> md[k] == DigestByte(fmt, h, k)
    {
      hide ByteAt;
      var w := fmt.Word();
      var j := 0;
      while j < w
        invariant 0 <= j <= w
        invariant forall k :: 0 <= k < w * i + j ==> md[k] == DigestByte(fmt, h, k)
      {
        assert (w * i + j) / w == i && (w * i + j) % w == j;
        md[w * i + j] := ByteAt(h[i], if fmt.Md5? then j else w - 1 - j);
        j := j + 1;
      }
    }
  }

  // ---- padding and reading out ------------------------------------------------------------------------------

  /** Where the zeros after the one bit end and the 64-bit count begins. */
  function CountAt(fmt: Format): nat {
    fmt.Block() - 8
  }

  /** The eight count bytes as the code stores them. */
  function CountBytes(fmt: Format, len: nat): seq<Byte> {
    seq(8, i requires 0 <= i < 8 => ByteAt(len, if fmt.Md5? then i else 7 - i))
  }

  lemma TailLength(b: nat, msg: seq<Byte>)
    requires b > 0
    ensures |Tail(b, msg)| == Rem(|msg|, b)
  {
  }

  lemma GapIs(fmt: Format, n: nat)
    ensures var b, r := fmt.Block(), Rem(n, fmt.Block());
            Gap(fmt, n) == if r + 1 <= b - fmt.Field() then b - fmt.Field() - 1 - r else 2 * b - fmt.Field() - 1 - r
  {
    hide Rem;
    var b, r := fmt.Block(), Rem(n, fmt.Block());
    var x := 2 * b - fmt.Field() - 1 - r;
    if r + 1 <= b - fmt.Field() {
      RemIs(x, b, 1, x - b);
    } else {
      RemIs(x, b, 0, x);
    }
  }

  lemma HighByte(v: nat, j: nat)
    requires v < COUNTER && j >= 8
    ensures ByteAt(v, j) == 0
  {
    hide TwoTo;
    TwoTo64();
    TwoToMonotone(64, 8 * j);
    DivUnique(v, TwoTo(8 * j), 0, v);
  }

  lemma CountWrapped(n: nat)
    ensures n % COUNTER * 8 % COUNTER == 8 * n % COUNTER
  {
    ModShift(n % COUNTER * 8, COUNTER, n / COUNTER * 8);
  }

  /** The counter in bits, as the code scales it. */
  function BitCount(len: nat): nat {
    len * 8 % COUNTER
  }

  lemma ThisBlock(head: seq<Byte>, tail: seq<Byte>, zeros: seq<Byte>, count: seq<Byte>)
    ensures head + (tail + [0x80] + zeros + count) == head + tail + ([0x80] + zeros + count)
  {
  }

  lemma TwoBlocks(head: seq<Byte>, tail: seq<Byte>, zeros: seq<Byte>, zeros': seq<Byte>, count: seq<Byte>)
    ensures head + (tail + [0x80] + zeros) + ([] + zeros' + count) == head + tail + ([0x80] + zeros + (zeros' + count))
  {
  }

  /** What the code stores is the standard's length field. */
  lemma CountField(fmt: Format, n: nat)
    requires fmt.Md5? || 8 * n < COUNTER
    ensures Zeros(fmt.Field() - 8) + CountBytes(fmt, BitCount(n % COUNTER)) == LengthField(fmt, 8 * n)
  {
    hide ByteAt;
    CountWrapped(n);
    var len := 8 * n % COUNTER;
    forall j | 0 <= j < 8
      ensures ByteAt(len, j) == ByteAt(8 * n, j)
    {
      ByteWrapped(8 * n, j);
    }
    if fmt.Sha512? {
      forall j | 8 <= j < 16
        ensures ByteAt(8 * n, j) == 0
      {
        HighByte(8 * n, j);
      }
    }
    var field, stored := LengthField(fmt, 8 * n), Zeros(fmt.Field() - 8) + CountBytes(fmt, len);
    assert |field| == |stored|;
    forall i | 0 <= i < |field|
      ensures field[i] == stored[i]
    {
    }
  }

  /** The padding, in one block or two, when `r` bytes of the buffer are taken with its first. */
  function Filling(fmt: Format, r: nat, len: nat): seq<Byte>
    requires r <= fmt.Block()
  {
    if r <= fmt.Block() - fmt.Field() then [0x80] + Zeros(CountAt(fmt) - r) + CountBytes(fmt, len)
    else [0x80] + Zeros(fmt.Block() - r) + (Zeros(CountAt(fmt)) + CountBytes(fmt, len))
  }

  lemma PadBytes(fmt: Format, n: nat)
    requires fmt.Md5? || 8 * n < COUNTER
    ensures Padding(fmt, n) == Filling(fmt, Rem(n, fmt.Block()) + 1, BitCount(n % COUNTER))
  {
    hide Rem, CountBytes, LengthField;
    GapIs(fmt, n);
    CountField(fmt, n);
    var b, r, count := fmt.Block(), Rem(n, fmt.Block()), CountBytes(fmt, BitCount(n % COUNTER));
    ZerosJoin(Gap(fmt, n), fmt.Field() - 8);
    if r + 1 > b - fmt.Field() {
      ZerosJoin(b - (r + 1), CountAt(fmt));
    }
    assert [0x80] + Zeros(Gap(fmt, n)) + (Zeros(fmt.Field() - 8) + count)
        == [0x80] + (Zeros(Gap(fmt, n)) + Zeros(fmt.Field() - 8)) + count;
  }

  lemma ZerosJoin(m: nat, n: nat)
    ensures Zeros(m) + Zeros(n) == Zeros(m + n)
  {
  }

  lemma {:induction false} ByteWrapped(x: nat, j: nat)
    requires j < 8
    ensures ByteAt(x % COUNTER, j) == ByteAt(x, j)
  {
    hide TwoTo;
    TwoTo64();
    TwoToAdd(8 * j, 64 - 8 * j);
    TwoToEight(56 - 8 * j);
    WrappedQuotient(x, TwoTo(8 * j), TwoTo(56 - 8 * j));
  }

  lemma WrappedQuotient(x: nat, d: nat, g: nat)
    requires d > 0 && g > 0 && d * (256 * g) > 0
    ensures x % (d * (256 * g)) / d % 256 == x / d % 256
  {
    var e := 256 * g;
    var q, r := x / (d * e), x % (d * e);
    var s, t := r / d, r % d;
    assert x == (d * e) * q + r && r == d * s + t;
    MulRegroup(d, e, q);
    assert x == d * (e * q + s) + t;
    DivUnique(x, d, e * q + s, t);
    MulRegroup(256, g, q);
    ModShift(s, 256, g * q);
  }

  /** The wrapped counter still tells how full the buffer is. */
  lemma CounterRem(fmt: Format, n: nat)
    ensures Rem(n % COUNTER, fmt.Block()) == Rem(n, fmt.Block())
  {
    hide Rem;
    WrapMod(n, 64, COUNTER / 64);
    WrapMod(n, 128, COUNTER / 128);
  }

  lemma CounterAdd(m: nat, n: nat)
    ensures (m % COUNTER + n) % COUNTER == (m + n) % COUNTER
  {
  }

  lemma Joined(buf: seq<Byte>, r: nat, tail: seq<Byte>, p: seq<Byte>)
    requires r + |p| <= |buf| && buf[..r] == tail && buf[r..r + |p|] == p
    ensures buf[..r + |p|] == tail + p
  {
  }

  lemma TakeBlock(f: Compression, b: nat, init: seq<nat>, h: seq<nat>, head: seq<Byte>, block: seq<Byte>)
    requires b > 0 && Whole(head, b) && h == Blocks(f, b, init, head) && |block| == b
    ensures Whole(head + block, b) && f(h, block) == Blocks(f, b, init, head + block)
  {
    hide Blocks, Rem;
    BlocksAppend(f, b, init, head, block);
    OneBlock(f, b, h, block);
    RemIs(b, b, 1, 0);
    WholeSum(|head|, b, b);
  }

  ghost predicate KeepsLength(f: Compression, n: nat) {
    forall h, s :: |f(h, s)| == n
  }

  lemma {:induction false} BlocksLength(f: Compression, b: nat, h: seq<nat>, s: seq<Byte>, n: nat)
    requires b > 0 && |h| == n && KeepsLength(f, n)
    ensures |Blocks(f, b, h, s)| == n
    decreases |s|
  {
    if |s| >= b {
      BlocksLength(f, b, f(h, s[..b]), s[b..], n);
    }
  }

  /** The hash of a message: compression of the padded message, and its digest. */
  function Hash(fmt: Format, f: Compression, init: seq<nat>, msg: seq<Byte>): seq<Byte> {
    Digest(fmt, Blocks(f, fmt.Block(), init, msg + Padding(fmt, |msg|)))
  }

  function Concat(chunks: seq<seq<Byte>>): seq<Byte> {
    if chunks == [] then [] else Concat(chunks[..|chunks| - 1]) + chunks[|chunks| - 1]
  }

  /** However a message is cut up, init, updates and sum give the hash of the whole. */
  method HashChunks(fmt: Format, f: Compression, init: seq<nat>, chunks: seq<seq<Byte>>) returns (digest: seq<Byte>)
    requires |init| == fmt.Words() && KeepsLength(f, fmt.Words()) && (fmt.Md5? || 8 * |Concat(chunks)| < COUNTER)
    ensures digest == Hash(fmt, f, init, Concat(chunks))
  {
    hide Blocks, Padding, KeepsLength, Hash;
    var s := new Context(fmt, f, init);
    var i := 0;
    while i < |chunks|
      invariant 0 <= i <= |chunks| && s.Absorbed(Concat(chunks[..i])) && fresh(s) && fresh(s.buf)
    {
      assert chunks[..i + 1][..i] == chunks[..i];
      s.Update(chunks[i], Concat(chunks[..i]));
      i := i + 1;
    }
    assert chunks[..i] == chunks;
    var md := new Byte[fmt.DigestSize()];
    s.Sum(md, Concat(chunks));
    digest := md[..];
  }

  /** The first `n` bytes of `md` repeated for ever. */
  function Cyclic(md: seq<Byte>, n: nat): seq<Byte>
    requires md != []
  {
    seq(n, i requires 0 <= i < n => md[i % |md|])
  }

  /** hashmd. */
  method HashDigest(s: Context, n: nat, md: seq<Byte>, ghost msg: seq<Byte>)
    requires s.Absorbed(msg) && |md| == s.fmt.DigestSize() && s.fmt != Md5
    modifies s`len, s`h, s.buf
    ensures s.Absorbed(msg + Cyclic(md, n))
  {
    hide Blocks, Context.Absorbed;
    var size := s.fmt.DigestSize();
    var i := n;
    ghost var times := 0;
    assert msg + Cyclic(md, 0) == msg;
    while i > size
      invariant 0 <= i <= n && n - i == size * times && (n > 0 ==> i > 0)
      invariant s.Absorbed(msg + Cyclic(md, n - i))
    {
      CyclicMore(md, times, size, msg);
      s.Update(md, msg + Cyclic(md, n - i));
      i := i - size;
      times := times + 1;
    }
    CyclicMore(md, times, i, msg);
    s.Update(md[..i], msg + Cyclic(md, n - i));
  }

  lemma CyclicMore(md: seq<Byte>, times: nat, k: nat, msg: seq<Byte>)
    requires 0 < |md| && k <= |md|
    ensures msg + Cyclic(md, |md| * times) + md[..k] == msg + Cyclic(md, |md| * times + k)
    ensures k == |md| ==> md[..k] == md
  {
    var b := |md|;
    var x, y := Cyclic(md, b * times) + md[..k], Cyclic(md, b * times + k);
    assert |x| == |y|;
    forall i | 0 <= i < |x|
      ensures x[i] == y[i]
    {
      if i >= b * times {
        DivUnique(i, b, times, i - b * times);
      }
    }
    assert msg + Cyclic(md, b * times) + md[..k] == msg + x;
  }
}
