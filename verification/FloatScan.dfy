/**
 The ring of limbs in decfloat: an array x of KMAX words whose live limbs run
 from cell a up to, not including, cell z, wrapping around.  Each method is one
 loop of the source, specified by the step functions of Normalise.
 */
module FloatScan {
  import opened Decimal
  import opened Normalise
  import opened Words
  import opened Scaling

  /** A uint32_t. */
  type Word = n: int | 0 <= n < 0x1_0000_0000 witness 0

  /** k & MASK, for the offsets the scanner forms. */
  function Wrap(k: int, size: int): (r: int)
    requires 0 < size && -size <= k < 2 * size
    ensures 0 <= r < size
  {
    if k < 0 then k + size else if k >= size then k - size else k
  }

  lemma WrapPred(a: int, i: int, size: int)
    requires 0 <= a < size && 0 <= i < size
    ensures Wrap(Wrap(a + i, size) - 1, size) == Wrap(a + i - 1, size)
  {
  }

  lemma WrapSucc(a: int, i: int, size: int)
    requires 0 <= a < size && 0 <= i < size
    ensures Wrap(Wrap(a + i, size) + 1, size) == Wrap(a + i + 1, size)
  {
  }

  lemma WrapSame(a: int, i: int, j: int, size: int)
    requires 0 <= a < size && 0 <= i < size && 0 <= j < size
    ensures Wrap(a + i, size) == Wrap(a + j, size) <==> i == j
    ensures Wrap(a, size) == a
  {
  }

  lemma WrapDistance(a: int, z: int, size: int)
    requires 0 <= a < size && 0 <= z < size && a != z
    ensures 1 <= Wrap(z - a, size) < size && Wrap(a + Wrap(z - a, size), size) == z
  {
  }

  /** The `n` cells from cell `a` on. */
  ghost function Slice(cells: seq<Word>, a: int, n: int): (s: seq<int>)
    requires 0 <= a < |cells| && 0 <= n <= |cells|
    ensures |s| == n
  {
    seq(n, i requires 0 <= i < n => cells[Wrap(a + i, |cells|)])
  }

  lemma SliceUpdate(cells: seq<Word>, a: int, n: int, j: int, v: Word)
    requires 0 <= a < |cells| && 0 <= j < n <= |cells|
    ensures Slice(cells[Wrap(a + j, |cells|) := v], a, n) == Slice(cells, a, n)[j := v]
  {
    var after := cells[Wrap(a + j, |cells|) := v];
    forall i | 0 <= i < n
      ensures Slice(after, a, n)[i] == Slice(cells, a, n)[j := v][i]
    {
      assert i != j ==> Wrap(a + i, |cells|) != Wrap(a + j, |cells|);
    }
  }

  /** The first `j` entries of `s`, then those of `t`. */
  ghost function Join(s: seq<int>, j: int, t: seq<int>): (r: seq<int>)
    requires 0 <= j <= |s|
  {
    s[..j] + t
  }

  lemma JoinPrepend(s: seq<int>, j: int, t: seq<int>, v: int)
    requires 1 <= j <= |s|
    ensures |Join(s, j, t)| == j + |t| && Join(s, j, t)[j - 1] == s[j - 1]
    ensures Join(s, j, t)[j - 1 := v] == Join(s, j - 1, [v] + t)
  {
  }

  lemma JoinAppend(t: seq<int>, j: int, s: seq<int>)
    requires 0 <= j < |s| <= |t|
    ensures |Join(t, j, s[j..])| == |s| && Join(t, j, s[j..])[j] == s[j]
    ensures Join(t, j, s[j..])[j := t[j]] == Join(t, j + 1, s[j + 1..])
  {
  }

  /** The cells that are not live, from `z` round to `a`. */
  ghost function Free(cells: seq<Word>, a: int, z: int): (s: seq<int>)
    requires 0 <= a < |cells| && 0 <= z < |cells|
    ensures |s| == |cells| - Wrap(z - a, |cells|)
  {
    Slice(cells, z, |cells| - Wrap(z - a, |cells|))
  }

  /** Writing a live cell leaves them alone. */
  lemma FreeFrame(cells: seq<Word>, a: int, z: int, j: int, v: Word)
    requires 0 <= a < |cells| && 0 <= z < |cells| && 0 <= j < Wrap(z - a, |cells|)
    ensures Free(cells[Wrap(a + j, |cells|) := v], a, z) == Free(cells, a, z)
  {
    var after := cells[Wrap(a + j, |cells|) := v];
    var n := |cells| - Wrap(z - a, |cells|);
    forall i | 0 <= i < n
      ensures Slice(after, z, n)[i] == Slice(cells, z, n)[i]
    {
      SliceAt(after, z, n, i);
      SliceAt(cells, z, n, i);
    }
  }

  /** Cells cut off the end of the live ones join them. */
  lemma FreeCut(cells: seq<Word>, a: int, z: int, m: int)
    requires 0 <= a < |cells| && 0 <= z < |cells| && 0 < m <= Wrap(z - a, |cells|)
    ensures var n := Wrap(z - a, |cells|);
            Free(cells, a, Wrap(a + m, |cells|)) == Slice(cells, a, n)[m..] + Free(cells, a, z)
  {
    var n, size := Wrap(z - a, |cells|), |cells|;
    var e := Wrap(a + m, size);
    var s, t := Free(cells, a, e), Slice(cells, a, n)[m..] + Free(cells, a, z);
    assert Wrap(e - a, size) == m;
    forall i | 0 <= i < |s|
      ensures s[i] == t[i]
    {
      SliceAt(cells, e, size - m, i);
      if i < n - m {
        SliceAt(cells, a, n, m + i);
      } else {
        SliceAt(cells, z, size - n, i - (n - m));
      }
    }
  }

  /** The first `k` free cells are zero. */
  ghost predicate ZeroRun(free: seq<int>, k: int) {
    0 <= k <= |free| && forall i :: 0 <= i < k ==> free[i] == 0
  }

  /** How far MulPass has got: `j` limbs to do with the given carry, the others done. */
  ghost predicate MulProgress(s: seq<int>, j: int, carry: int, done: seq<int>)
  {
    && 0 <= j <= |s| && |done| == |s| - j
    && MulPass(s, 0).0 == MulPass(s[..j], carry).0 + done
    && MulPass(s, 0).1 == MulPass(s[..j], carry).1
  }

  lemma MulProgressStart(s: seq<int>)
    ensures MulProgress(s, |s|, 0, [])
  {
    assert s[..|s|] == s;
  }

  lemma MulProgressStep(s: seq<int>, j: int, carry: int, done: seq<int>)
    requires MulProgress(s, j, carry, done) && j > 0
    ensures MulProgress(s, j - 1, MulLimb(s[j - 1], carry).1, [MulLimb(s[j - 1], carry).0] + done)
  {
    var (limb, c) := MulLimb(s[j - 1], carry);
    assert s[..j][..j - 1] == s[..j - 1];
    assert MulPass(s[..j], carry) == (MulPass(s[..j - 1], c).0 + [limb], MulPass(s[..j - 1], c).1);
    assert (MulPass(s[..j - 1], c).0 + [limb]) + done == MulPass(s[..j - 1], c).0 + ([limb] + done);
  }

  /** One cell of the multiplication: tmp fits 64 bits, what is kept fits 32. */
  method MulCell(x: array<Word>, k: int, carryIn: int) returns (carry: int)
    requires 0 <= k < x.Length && x[k] <= LOOSE && MulBounds(LOOSE, carryIn)
    modifies x
    ensures x[..] == old(x[..])[k := MulLimb(old(x[k]), carryIn).0]
    ensures carry == MulLimb(old(x[k]), carryIn).1
  {
    var tmp := x[k] * MULTIPLIER + carryIn;
    MulLimbBounds(x[k], carryIn, LOOSE);
    if tmp > BASE {
      carry := tmp / BASE;
      x[k] := tmp % BASE;
    } else {
      carry := 0;
      x[k] := tmp;
    }
  }

  /** `t` limbs of `done` remain once its trailing zeros are cut. */
  ghost predicate CutTo(done: seq<int>, t: int) {
    && 0 <= t <= |done|
    && (forall i :: t <= i < |done| ==> done[i] == 0)
    && (t > 0 ==> done[t - 1] != 0)
  }

  lemma CutStep(done: seq<int>, t: int, limb: int)
    requires CutTo(done, t)
    ensures t > 0 || limb != 0 ==> CutTo([limb] + done, t + 1)
    ensures t == 0 && limb == 0 ==> CutTo([limb] + done, 0)
  {
  }

  /** The inner loop of the multiplication: right to left over the limbs, cutting trailing zeros. */
  method MulLoop(x: array<Word>, a: int, z: int) returns (carry: int, end: int)
    requires 0 < x.Length && 0 <= a < x.Length && 0 <= z < x.Length && a != z
    requires Bounded(Slice(x[..], a, Wrap(z - a, x.Length)), LOOSE)
    modifies x
    ensures carry == MulCarry(old(Slice(x[..], a, Wrap(z - a, x.Length))))
    ensures var s := old(Slice(x[..], a, Wrap(z - a, x.Length)));
            && end == Wrap(a + |MulRest(s)|, x.Length)
            && Slice(x[..], a, |s|) == MulPass(s, 0).0
    ensures Free(x[..], a, z) == old(Free(x[..], a, z))
  {
    hide Wrap, MulPass, MulProgress, Slice, MulLimb, CutTo, MulCarry, MulRest, Join, Free;
    var size := x.Length;
    WrapDistance(a, z, size);
    WrapPred(a, Wrap(z - a, size), size);
    ghost var n := Wrap(z - a, size);
    ghost var s := Slice(x[..], a, n);
    carry, end := 0, z;
    var k := Wrap(z - 1, size);
    // j limbs are still to do; `done` holds the others; m limbs remain once trailing zeros are cut
    ghost var j, m := n, n;
    ghost var done: seq<int> := [];
    MulProgressStart(s);
    MulStart(s);
    while true
      invariant 1 <= j <= n && k == Wrap(a + j - 1, size)
      invariant |done| == n - j && j <= m <= n && end == Wrap(a + m, size)
      invariant MulBounds(LOOSE, carry) && Bounded(s, LOOSE)
      invariant MulProgress(s, j, carry, done)
      invariant Slice(x[..], a, n) == Join(s, j, done)
      invariant Free(x[..], a, z) == old(Free(x[..], a, z))
      invariant CutTo(done, m - j)
      decreases j
    {
      ghost var cells, limb := x[..], MulLimb(s[j - 1], carry).0;
      SliceAt(cells, a, n, j - 1);
      MulLimbBounds(s[j - 1], carry, LOOSE);
      MulProgressStep(s, j, carry, done);
      SliceUpdate(cells, a, n, j - 1, limb);
      FreeFrame(cells, a, z, j - 1, limb);
      CutStep(done, m - j, limb);
      WrapPred(a, m, size);
      WrapPred(a, j - 1, size);
      WrapSame(a, j - 1, m - 1, size);
      WrapSame(a, j - 1, 0, size);
      JoinPrepend(s, j, done, limb);
      carry := MulCell(x, k, carry);
      done, j := [limb] + done, j - 1;
      if k == Wrap(end - 1, size) && k != a && x[k] == 0 {
        end := k;
        m := j;
      }
      if k == a {
        break;
      }
      k := Wrap(k - 1, size);
    }
    MulFinish(s, carry, done, m);
  }

  lemma MulStart(s: seq<int>)
    ensures CutTo([], 0) && Join(s, |s|, []) == s
  {
  }

  lemma MulFinish(s: seq<int>, carry: int, done: seq<int>, m: int)
    requires MulProgress(s, 0, carry, done)
    requires 1 <= m <= |done| && (CutTo(done, m) || (m == 1 && CutTo(done, 0)))
    ensures Join(s, 0, done) == MulPass(s, 0).0 && carry == MulCarry(s) && |MulRest(s)| == m
  {
    assert s[..0] == [];
    assert [] + done == done;
    TrimUnique(done, m);
  }

  lemma SliceAt(cells: seq<Word>, a: int, n: int, i: int)
    requires 0 <= a < |cells| && 0 <= i < n <= |cells|
    ensures Slice(cells, a, n)[i] == cells[Wrap(a + i, |cells|)]
  {
  }

  /** One cell of the division. */
  method DivCell(x: array<Word>, k: int, d: int, carryIn: int) returns (carry: int)
    requires 0 <= k < x.Length && d > 0 && 0 <= x[k] / d + carryIn <= LOOSE
    modifies x
    ensures x[..] == old(x[..])[k := old(x[k]) / d + carryIn]
    ensures carry == BASE / d * (old(x[k]) % d)
  {
    var tmp := x[k] % d;
    x[k] := x[k] / d + carryIn;
    carry := BASE / d * tmp;
  }

  /** The loop shared by radix alignment and right shift: left to right, dividing by `d` and dropping a
      leading limb that becomes zero. */
  method DivLoop(x: array<Word>, a: int, z: int, d: int, rp: int) returns (carry: int, start: int, point: int)
    requires 0 < x.Length && 0 <= a < x.Length && 0 <= z < x.Length && a != z && DividesBase(d)
    requires Bounded(Slice(x[..], a, Wrap(z - a, x.Length)), LOOSE) && x[a] > 0
    modifies x
    ensures var s := old(Slice(x[..], a, Wrap(z - a, x.Length)));
            && Slice(x[..], a, |s|) == DivPass(s, d)[..|s|]
            && carry == DivPass(s, d)[|s|]
            && start == (if DivPass(s, d)[0] == 0 then Wrap(a + 1, x.Length) else a)
            && point == DivPoint(s, d, rp)
    ensures Free(x[..], a, z) == old(Free(x[..], a, z))
  {
    hide Wrap, Slice, DivPass, CarryInto, Join, Free;
    var size := x.Length;
    ghost var n := Wrap(z - a, size);
    ghost var s := Slice(x[..], a, n);
    ghost var t := DivPass(s, d);
    WrapDistance(a, z, size);
    WrapSame(a, 0, 0, size);
    SliceAt(x[..], a, n, 0);
    DivPassBounds(s, d, LOOSE);
    DivPassLead(s, d);
    DivStart(s, d);
    carry, start, point := 0, a, rp;
    var k := a;
    ghost var j := 0;
    while k != z
      invariant 0 <= j <= n && k == Wrap(a + j, size)
      invariant Slice(x[..], a, n) == Join(t, j, s[j..])
      invariant Free(x[..], a, z) == old(Free(x[..], a, z))
      invariant carry == CarryInto(s, d, j)
      invariant start == (if j > 0 && t[0] == 0 then Wrap(a + 1, size) else a)
      invariant point == (if j > 0 && t[0] == 0 then rp - 9 else rp)
      decreases n - j
    {
      ghost var cells := x[..];
      WrapSame(a, j, n, size);
      WrapSame(a, j, 1, size);
      WrapSame(a, j, 0, size);
      WrapSucc(a, 0, size);
      WrapSucc(a, j, size);
      SliceAt(cells, a, n, j);
      DivEntry(s, d, j);
      SliceUpdate(cells, a, n, j, t[j]);
      FreeFrame(cells, a, z, j, t[j]);
      JoinAppend(t, j, s);
      carry := DivCell(x, k, d, carry);
      if k == start && x[k] == 0 {
        start := Wrap(start + 1, size);
        point := point - 9;
      }
      k := Wrap(k + 1, size);
      j := j + 1;
    }
    WrapSame(a, j, n, size);
    DivFinish(s, d);
  }

  lemma DivStart(s: seq<int>, d: int)
    requires d > 0
    ensures CarryInto(s, d, 0) == 0 && Join(DivPass(s, d), 0, s[0..]) == s
  {
  }

  lemma DivFinish(s: seq<int>, d: int)
    requires d > 0
    ensures DivPass(s, d)[|s|] == CarryInto(s, d, |s|) && Join(DivPass(s, d), |s|, s[|s|..]) == DivPass(s, d)[..|s|]
  {
  }

  lemma DivEntry(s: seq<int>, d: int, j: int)
    requires d > 0 && 0 <= j < |s|
    ensures DivPass(s, d)[j] == s[j] / d + CarryInto(s, d, j)
    ensures CarryInto(s, d, j + 1) == BASE / d * (s[j] % d)
  {
  }

  lemma SliceFront(cells: seq<Word>, a: int, n: int, v: Word)
    requires 0 <= a < |cells| && 0 <= n < |cells|
    ensures var b := Wrap(a - 1, |cells|);
            Slice(cells[b := v], b, n + 1) == [v] + Slice(cells, a, n)
  {
    var b := Wrap(a - 1, |cells|);
    var s, t := Slice(cells[b := v], b, n + 1), [v] + Slice(cells, a, n);
    forall i | 0 <= i <= n
      ensures s[i] == t[i]
    {
      SliceAt(cells[b := v], b, n + 1, i);
      if i > 0 {
        SliceAt(cells, a, n, i - 1);
      }
    }
  }

  lemma SlicePrefix(cells: seq<Word>, a: int, n: int, m: int)
    requires 0 <= a < |cells| && 0 <= m <= n <= |cells|
    ensures Slice(cells, a, m) == Slice(cells, a, n)[..m]
  {
  }

  lemma SliceSuffix(cells: seq<Word>, a: int, n: int)
    requires 0 <= a < |cells| && 1 <= n <= |cells|
    ensures Slice(cells, Wrap(a + 1, |cells|), n - 1) == Slice(cells, a, n)[1..]
  {
    var b := Wrap(a + 1, |cells|);
    var s, t := Slice(cells, b, n - 1), Slice(cells, a, n)[1..];
    forall i | 0 <= i < n - 1
      ensures s[i] == t[i]
    {
      SliceAt(cells, b, n - 1, i);
      SliceAt(cells, a, n, i + 1);
    }
  }

  lemma SliceBack(cells: seq<Word>, a: int, n: int, v: Word)
    requires 0 <= a < |cells| && 0 <= n < |cells|
    ensures var k := Wrap(a + n, |cells|);
            Slice(cells[k := v], a, n + 1) == Slice(cells, a, n) + [v]
  {
    var k := Wrap(a + n, |cells|);
    var s, t := Slice(cells[k := v], a, n + 1), Slice(cells, a, n) + [v];
    forall i | 0 <= i <= n
      ensures s[i] == t[i]
    {
      SliceAt(cells[k := v], a, n + 1, i);
      if i < n {
        SliceAt(cells, a, n, i);
      }
    }
  }

  lemma WrapCount(a: int, n: int, size: int)
    requires 0 <= a < size && 0 <= n < size
    ensures Wrap(Wrap(a + n, size) - a, size) == n
  {
  }

  /** A carry becomes the new leading limb; in a full ring the last limb folds into its neighbour. */
  method PushFront(x: array<Word>, a: int, z: int, carry: Word) returns (start: int, end: int, folded: bool)
    requires 4 <= x.Length && 0 <= a < x.Length && 0 <= z < x.Length && a != z
    requires Bounded(Slice(x[..], a, Wrap(z - a, x.Length)), LOOSE)
    modifies x
    ensures start == Wrap(a - 1, x.Length) && 0 <= end < x.Length && start != end
    ensures var u := old(Slice(x[..], a, Wrap(z - a, x.Length)));
            && folded == (|u| == x.Length - 1)
            && Slice(x[..], start, Wrap(end - start, x.Length)) == FrontPushed(u, carry, x.Length - 1)
    ensures !folded ==> var f := old(Free(x[..], a, z)); end == z && Free(x[..], start, end) == f[..|f| - 1]
  {
    hide Slice, FrontPushed;
    var size := x.Length;
    ghost var n := Wrap(z - a, size);
    ghost var u := Slice(x[..], a, n);
    start, end := Wrap(a - 1, size), z;
    folded := start == end;
    if folded {
      end := Wrap(end - 1, size);
      var last := Wrap(end - 1, size);
      SliceAt(x[..], a, n, n - 2);
      SliceAt(x[..], a, n, n - 1);
      BitOrLoose(x[last], x[end]);
      ghost var merged: Word := BitOr(x[last], x[end]);
      MergedSlice(x[..], a, n, last, merged);
      ghost var cells := x[..];
      x[last] := BitOr(x[last], x[end]);
      assert x[..] == cells[last := merged];
      SliceFront(x[..], a, n - 1, carry);
      FrontFolded(u, carry, n);
    } else {
      SliceFront(x[..], a, n, carry);
      FrontFits(u, carry, size - 1);
      FreeFront(x[..], a, z, carry);
    }
    ghost var cells := x[..];
    x[start] := carry;
    assert x[..] == cells[start := carry];
  }

  lemma MergedSlice(cells: seq<Word>, a: int, n: int, last: int, merged: Word)
    requires 0 <= a < |cells| && 2 <= n < |cells| && last == Wrap(a + n - 2, |cells|)
    ensures Slice(cells[last := merged], a, n - 1) == Slice(cells, a, n)[n - 2 := merged][..n - 1]
  {
    hide Slice;
    SliceUpdate(cells, a, n, n - 2, merged);
    SlicePrefix(cells[last := merged], a, n, n - 1);
  }

  /** The cell before the leading limb is the last free one. */
  lemma FreeFront(cells: seq<Word>, a: int, z: int, v: Word)
    requires 0 <= a < |cells| && 0 <= z < |cells| && a != z && Wrap(a - 1, |cells|) != z
    ensures var b := Wrap(a - 1, |cells|);
            var f := Free(cells, a, z);
            Free(cells[b := v], b, z) == f[..|f| - 1]
  {
    var b := Wrap(a - 1, |cells|);
    var f := Free(cells, a, z);
    var g := Free(cells[b := v], b, z);
    forall i | 0 <= i < |f| - 1
      ensures g[i] == f[i]
    {
      SliceAt(cells[b := v], z, |g|, i);
      SliceAt(cells, z, |f|, i);
    }
  }

  /** The cell behind the last limb is the first. */
  lemma FreeBack(cells: seq<Word>, a: int, z: int, v: Word)
    requires 0 <= a < |cells| && 0 <= z < |cells| && Wrap(z + 1, |cells|) != a
    ensures Free(cells[z := v], a, Wrap(z + 1, |cells|)) == Free(cells, a, z)[1..]
  {
    var e := Wrap(z + 1, |cells|);
    var f := Free(cells, a, z);
    var g := Free(cells[z := v], a, e);
    assert |g| == |f| - 1;
    forall i | 0 <= i < |g|
      ensures g[i] == f[i + 1]
    {
      SliceAt(cells[z := v], e, |g|, i);
      SliceAt(cells, z, |f|, i + 1);
    }
  }

  lemma FrontFolded(u: seq<int>, carry: int, cap: nat)
    requires Bounded(u, LOOSE) && 2 <= cap == |u|
    ensures FrontPushed(u, carry, cap) == [carry] + u[cap - 2 := BitOr(u[cap - 2], u[cap - 1])][..cap - 1]
  {
  }

  lemma FrontFits(u: seq<int>, carry: int, cap: nat)
    requires Bounded(u, LOOSE) && 2 <= cap && |u| < cap
    ensures FrontPushed(u, carry, cap) == [carry] + u
  {
  }

  /** A carry becomes the new last limb; in a full ring it only sets the last limb's low bit. */
  method PushBack(x: array<Word>, a: int, z: int, carry: Word) returns (end: int, folded: bool)
    requires 4 <= x.Length && 0 <= a < x.Length && 0 <= z < x.Length
    requires Bounded(Slice(x[..], a, Wrap(z - a, x.Length)), LOOSE)
    modifies x
    ensures 0 <= end < x.Length && a != end
    ensures var u := old(Slice(x[..], a, Wrap(z - a, x.Length)));
            && folded == (|u| == x.Length - 1)
            && Slice(x[..], a, Wrap(end - a, x.Length)) == BackPushed(u, carry, x.Length - 1)
    ensures var f := old(Free(x[..], a, z)); Free(x[..], a, end) == if folded then f else f[1..]
  {
    hide Slice;
    var size := x.Length;
    ghost var n := Wrap(z - a, size);
    ghost var u := Slice(x[..], a, n);
    ghost var cells := x[..];
    end := z;
    folded := Wrap(z + 1, size) == a;
    if folded {
      var last := Wrap(z - 1, size);
      SliceAt(cells, a, n, n - 1);
      BitOrLoose(x[last], 1);
      x[last] := BitOr(x[last], 1);
      assert x[..] == cells[last := x[last]];
      SliceUpdate(cells, a, n, n - 1, x[last]);
      FreeFrame(cells, a, z, n - 1, x[last]);
    } else {
      FreeBack(cells, a, z, carry);
      x[z] := carry;
      assert x[..] == cells[z := carry];
      SliceBack(cells, a, n, carry);
      end := Wrap(z + 1, size);
    }
  }

  lemma SliceFromZero(cells: seq<Word>, n: int)
    requires 0 <= n < |cells|
    ensures Slice(cells, 0, n) == cells[..n]
  {
    forall i | 0 <= i < n
      ensures Slice(cells, 0, n)[i] == cells[i]
    {
      SliceAt(cells, 0, n, i);
    }
  }

  // ---- zeros left behind --------------------------------------------------------------------------

  /** Free cells known to be zero after a multiplication: those cut off come on top, a new leading limb takes the
      last free cell, and a fold leaves none. */
  function MulClear(s: seq<int>, clear: int, cap: nat): int {
    var c := clear + |s| - |MulRest(s)|;
    if MulCarry(s) == 0 then c
    else if |MulRest(s)| == cap then 0
    else if c < cap - |MulRest(s)| then c else cap - |MulRest(s)|
  }

  /** ... and after a division: a new last limb takes the first. */
  function DivClear(s: seq<int>, d: int, clear: int, cap: nat): int
    requires d > 0 && s != []
  {
    if DivPass(s, d)[|s|] == 0 || |DivRest(s, d)| == cap || clear == 0 then clear else clear - 1
  }

  lemma MulTail(s: seq<int>)
    requires s != []
    ensures 1 <= |MulRest(s)| <= |s| && forall i :: |MulRest(s)| <= i < |s| ==> MulPass(s, 0).0[i] == 0
  {
    hide MulPass;
  }

  lemma ZeroMore(tail: seq<int>, free: seq<int>, clear: int)
    requires ZeroRun(free, clear) && forall i :: 0 <= i < |tail| ==> tail[i] == 0
    ensures ZeroRun(tail + free, |tail| + clear)
  {
  }

  class Ring {
    const fmt: Format
    const x: array<Word>
    var a: int
    var z: int
    var rp: int
    var e2: int
    ghost var exact: bool // no limb has been folded away for lack of room
    ghost var clear: int  // so many cells from z on are zero
    ghost var origin: int // see Tidy
    ghost var turn: int

    constructor (fmt: Format, x: array<Word>, z: nat, rp: int)
      requires x.Length == fmt.Kmax() && 1 <= z < x.Length && x[0] > 0
      requires forall i :: 0 <= i < z ==> x[i] < BASE
      ensures this.fmt == fmt && this.x == x && a == 0 && this.z == z && this.rp == rp && e2 == 0 && exact && clear == 0
      ensures Valid() && Contents() == x[..z]
    {
      this.fmt, this.x, this.a, this.z, this.rp, this.e2, this.exact, this.clear := fmt, x, 0, z, rp, 0, true, 0;
      this.origin, this.turn := 0, 0;
      new;
      SliceFromZero(x[..], z);
    }

    ghost predicate Shape()
      reads this
    {
      x.Length == fmt.Kmax() && 0 <= a < x.Length && 0 <= z < x.Length && a != z
    }

    /** The live limbs, most significant first. */
    ghost function Contents(): (s: seq<int>)
      requires Shape()
      reads this, x
      ensures 1 <= |s| <= fmt.Capacity()
    {
      Slice(x[..], a, Wrap(z - a, x.Length))
    }

    ghost predicate Valid()
      reads this, x
    {
      && Shape()
      && Good(fmt, Contents())
      && (exact ==> Bounded(Contents(), BASE))
      && ZeroRun(Free(x[..], a, z), clear)
    }

    /** Limbs, radix point, exponent and exactness. */
    ghost function State(): Held
      requires Shape()
      reads this, x
    {
      Held(Contents(), rp, e2, exact)
    }

    /** One round of the multiplication loop. */
    method MultiplyPass()
      requires Valid()
      modifies this`a, this`z, this`rp, this`e2, this`exact, this`clear, x
      ensures Valid() && State() == Multiplied(fmt, old(State()))
      ensures a == if MulCarry(old(Contents())) == 0 then old(a) else Wrap(old(a) - 1, x.Length)
      ensures clear == MulClear(old(Contents()), old(clear), fmt.Capacity())
    {
      hide Wrap, Slice, MulPass, MulRest, FrontPushed, Free, ZeroRun;
      ghost var s := Contents();
      ghost var n := |MulRest(s)|;
      MulStepBounds(s, fmt.Capacity());
      WrapDistance(a, z, x.Length);
      MulShape(s);
      e2 := e2 - 29;
      var carry;
      carry := MultiplyLimbs(s);
      SlicePrefix(x[..], a, |s|, n);
      WrapCount(a, n, x.Length);
      WrapSame(a, n, 0, x.Length);
      if carry != 0 {
        rp := rp + 9;
        PushCarry(carry);
      }
    }

    /** The inner loop: limbs, end and zeros behind it. */
    method MultiplyLimbs(ghost s: seq<int>) returns (carry: int)
      requires Shape() && s == Contents() && Bounded(s, LOOSE) && ZeroRun(Free(x[..], a, z), clear)
      modifies this`z, this`clear, x
      ensures carry == MulCarry(s) && z == Wrap(a + |MulRest(s)|, x.Length) && Slice(x[..], a, |s|) == MulPass(s, 0).0
      ensures clear == old(clear) + |s| - |MulRest(s)| && ZeroRun(Free(x[..], a, z), clear)
    {
      hide Wrap, Slice, MulPass, MulRest, Free, ZeroRun;
      ghost var n, z0 := |MulRest(s)|, z;
      MulTail(s);
      carry, z := MulLoop(x, a, z);
      FreeCut(x[..], a, z0, n);
      ZeroMore(MulPass(s, 0).0[n..], Free(x[..], a, z0), clear);
      clear := clear + |s| - n;
    }

    /** The carry goes in front. */
    method PushCarry(carry: Word)
      requires Shape() && Bounded(Contents(), LOOSE) && ZeroRun(Free(x[..], a, z), clear)
      modifies this`a, this`z, this`exact, this`clear, x
      ensures Shape() && Contents() == FrontPushed(old(Contents()), carry, fmt.Capacity())
      ensures a == Wrap(old(a) - 1, x.Length) && exact == (old(exact) && |old(Contents())| < fmt.Capacity())
      ensures ZeroRun(Free(x[..], a, z), clear)
      ensures var n, cap := |old(Contents())|, fmt.Capacity();
              clear == if n == cap then 0 else if old(clear) < cap - n then old(clear) else cap - n
    {
      hide Slice, FrontPushed, Wrap, Free;
      ghost var n := |Contents()|;
      var folded;
      a, z, folded := PushFront(x, a, z, carry);
      exact := exact && !folded;
      clear := if folded then 0 else if clear < fmt.Capacity() - n then clear else fmt.Capacity() - n;
    }

    /** One division of the ring by `d`: a round of the right-shift loop, and radix alignment. */
    method DividePass(d: int)
      requires Valid() && DividesBase(d)
      modifies this`a, this`z, this`rp, this`exact, this`clear, x
      ensures Valid()
      ensures Contents() == DivStep(old(Contents()), d, fmt.Capacity())
      ensures rp == DivPoint(old(Contents()), d, old(rp))
      ensures a == if DivPass(old(Contents()), d)[0] == 0 then Wrap(old(a) + 1, x.Length) else old(a)
      ensures exact == (old(exact) && DivFits(old(Contents()), d, fmt.Capacity()))
      ensures clear == DivClear(old(Contents()), d, old(clear), fmt.Capacity())
    {
      hide Wrap, Slice, DivPass, BackPushed, Free, ZeroRun;
      ghost var s := Contents();
      ghost var n := |s|;
      DivStepBounds(s, d, fmt.Capacity());
      WrapDistance(a, z, x.Length);
      SliceAt(x[..], a, n, 0);
      WrapSame(a, 0, n, x.Length);
      DivShape(s, d);
      var carry;
      var a0 := a;
      carry, a, rp := DivLoop(x, a, z, d, rp);
      SliceSuffix(x[..], a0, n);
      WrapNext(a0, z, x.Length);
      FreeLead(x[..], a0, z, clear);
      if carry != 0 {
        AppendCarry(carry);
      }
    }

    /** The carry goes behind. */
    method AppendCarry(carry: Word)
      requires x.Length == fmt.Kmax() && 0 <= a < x.Length && 0 <= z < x.Length
      requires Bounded(Slice(x[..], a, Wrap(z - a, x.Length)), LOOSE) && ZeroRun(Free(x[..], a, z), clear)
      modifies this`z, this`exact, this`clear, x
      ensures Shape() && Contents() == BackPushed(old(Slice(x[..], a, Wrap(z - a, x.Length))), carry, fmt.Capacity())
      ensures exact == (old(exact) && old(Wrap(z - a, x.Length)) < fmt.Capacity())
      ensures ZeroRun(Free(x[..], a, z), clear)
      ensures clear == if old(Wrap(z - a, x.Length)) == fmt.Capacity() || old(clear) == 0 then old(clear) else old(clear) - 1
    {
      hide Slice, BackPushed, Wrap, Free;
      var folded;
      z, folded := PushBack(x, a, z, carry);
      exact := exact && !folded;
      if !folded && clear > 0 {
        clear := clear - 1;
      }
    }

    /** The start, not reduced modulo the ring's size, and the radix point move in step: their sum is `origin`.
        From the end up to cell 0 or `origin`, whichever is first, or the cell before the start one turn on,
        the cells are zero. */
    ghost predicate Tidy()
      requires Shape()
      reads this, x
    {
      rp % 9 == 0 && a == origin - rp / 9 + fmt.Kmax() * turn && clear >= Behind(fmt, origin, rp / 9, |Contents()|)
    }

    /** While shifting, up to cell 0 or `origin`. */
    ghost predicate Tidier()
      requires Shape()
      reads this, x
    {
      rp % 9 == 0 && a == origin - rp / 9 + fmt.Kmax() * turn && clear >= BehindAll(origin, rp / 9, |Contents()|)
    }

    /** One round of the multiplication loop. */
    method ScaleRound()
      requires Valid() && Tidy() && TooSmall(fmt, State())
      modifies this`a, this`z, this`rp, this`e2, this`exact, this`clear, this`turn, x
      ensures Valid() && Tidy() && State() == Multiplied(fmt, old(State())) && x[a] == Contents()[0]
    {
      hide Multiplied, Slice, Behind, MulClear, ZeroRun, Free;
      MulFalls(fmt, State());
      MulLow(fmt, State());
      ghost var r, a0 := rp / 9, a;
      MulTidy(fmt, State(), clear, origin);
      CarryMoves(fmt, State());
      MultiplyPass();
      turn := if rp > 9 * r && a0 == 0 then turn + 1 else turn;
      SliceAt(x[..], a, |Contents()|, 0);
    }

    /** Multiply by 2^29 until the integer part spans LD_B1B_DIG limbs and a full leading limb. */
    method ScaleUp()
      requires Valid() && Tidy()
      modifies this`a, this`z, this`rp, this`e2, this`exact, this`clear, this`turn, x
      ensures Valid() && Tidy() && State() == Up(fmt, old(State()))
    {
      hide Multiplied, Slice, Behind, ZeroRun, Free;
      SliceAt(x[..], a, |Contents()|, 0);
      while rp < 9 * fmt.Dig() || (rp == 9 * fmt.Dig() && x[a] < fmt.Threshold()[0])
        invariant Valid() && Tidy() && x[a] == Contents()[0]
        invariant Up(fmt, State()) == Up(fmt, old(State()))
        decreases 9 * fmt.Dig() + 9 - rp, if x[a] < MULTIPLIER then 1 else 0
      {
        MulFalls(fmt, State());
        ScaleRound();
      }
    }

    /** Do the top limbs exceed the largest mantissa? */
    method CompareTop() returns (exceeds: bool)
      requires Valid()
      ensures exceeds == Exceeds(Contents(), fmt.Threshold(), 0)
    {
      var th := fmt.Threshold();
      var i := 0;
      ghost var n := |Contents()|;
      while i < |th|
        invariant 0 <= i <= |th| && i <= n
        invariant Exceeds(Contents(), th, 0) == Exceeds(Contents(), th, i)
      {
        var k := Wrap(a + i, x.Length);
        WrapSame(a, i, n, x.Length);
        WrapDistance(a, z, x.Length);
        if k == z {
          return false;
        }
        SliceAt(x[..], a, n, i);
        if x[k] < th[i] {
          return false;
        }
        if x[k] > th[i] {
          return true;
        }
        i := i + 1;
      }
      return false;
    }

    /** One round of the right-shift loop. */
    method ShiftRound(sh: int)
      requires Valid() && Tidier() && High(fmt, State()) && !Fitting(fmt, State()) && sh == ShiftBy(fmt, rp)
      modifies this`a, this`z, this`rp, this`e2, this`exact, this`clear, this`turn, x
      ensures Valid() && Tidier() && High(fmt, State()) && State() == Shifted(fmt, old(State()))
      ensures rp < old(rp) || (rp == old(rp) && Contents()[0] < old(Contents())[0])
    {
      hide DivStep, DivFits, DivPass, Exceeds, Slice, Wrap, BehindAll, DivClear, ZeroRun, Free;
      ShiftDivisors();
      ShiftFalls(fmt, State());
      ghost var r, a0 := rp / 9, a;
      ZeroRunNat(Free(x[..], a, z), clear);
      DivTidy(fmt, State(), clear, origin);
      e2 := e2 + sh;
      DividePass(if sh == 9 then 512 else 2);
      StepWraps(a0, x.Length);
      turn := if rp < 9 * r && a0 == x.Length - 1 then turn - 1 else turn;
    }

    /** Shift right until the top limbs hold exactly one mantissa. */
    method ScaleDown()
      requires Valid() && Tidier() && High(fmt, State())
      modifies this`a, this`z, this`rp, this`e2, this`exact, this`clear, this`turn, x
      ensures Valid() && Tidier() && State() == Down(fmt, old(State()))
    {
      hide Shifted, Exceeds, Slice, Wrap, BehindAll, ZeroRun, Free;
      while true
        invariant Valid() && Tidier() && High(fmt, State())
        invariant Down(fmt, State()) == Down(fmt, old(State()))
        decreases rp, Contents()[0]
      {
        var exceeds := CompareTop();
        if !exceeds && rp == 9 * fmt.Dig() {
          break;
        }
        ShiftFalls(fmt, State());
        ShiftRound(if rp > 9 + 9 * fmt.Dig() then 9 else 1);
      }
    }

    /** Move the radix point to a limb boundary. */
    method AlignRadix()
      requires Valid() && |Contents()| < fmt.Capacity() && e2 == 0 && exact && a == 0 && clear == 0
      modifies this`a, this`z, this`rp, this`exact, this`clear, this`origin, this`turn, x
      ensures Valid() && Tidy() && State() == Aligned(fmt, old(Contents()), old(rp))
      ensures origin == Origin(old(rp))
    {
      hide Value, Pow2, DivStep, DivPass, DivFits, Slice, Wrap, DividesBase, ZeroRun, Free;
      var rpm9 := rp % 9;
      if rpm9 != 0 {
        var p10 := P10S[8 - rpm9];
        ghost var s := Contents();
        AlignValue(s, rp, fmt.Capacity());
        DividePass(p10);
        StepWraps(0, x.Length);
        rp := rp + 9 - rpm9;
      }
      origin, turn := a + rp / 9, 0;
    }

    /** Assemble the mantissa from the top limbs, padding the ring with zero limbs where it is shorter.
        The padding write lands on x[z - 1] for the stepped z, which for z = 0 is no cell of x: `stray`
        reports that, and cell KMAX-1 then keeps what it held.  It held zero, so the mantissa is right. */
    method Assemble() returns (y: int, stray: bool)
      requires Valid() && Tidier() && rp == 9 * fmt.Dig() && origin < fmt.Kmax()
      modifies this`z, x
      ensures stray == Strays(fmt, origin, |old(Contents())|)
      ensures y == Top(old(Contents()), fmt.Dig())
    {
      hide Slice, Top, Wrap, Free, ZeroRun, BehindAll, Strays;
      ghost var n := |Contents()|;
      WrapDistance(a, z, x.Length);
      StraysIff(fmt, origin, n, a, z, turn);
      if Strays(fmt, origin, n) {
        ClearCell(x[..], a, z, clear, x.Length - 1 - z);
      }
      y, stray := AddLimbs();
    }

    /** The loop: what it reads is the top limbs, and among the padding perhaps cell KMAX-1. */
    method AddLimbs() returns (y: int, stray: bool)
      requires Valid()
      modifies this`z, x
      ensures stray <==> |old(Contents())| + (x.Length - 1 - old(z)) < fmt.Dig()
      ensures y == Top(old(Contents()), fmt.Dig()) <==> !stray || old(x[x.Length - 1]) == 0
    {
      hide Slice, Int, TopRead, Top, Wrap, Free, ZeroRun;
      var size := x.Length;
      ghost var s, n, stale := Contents(), |Contents()|, x[size - 1];
      var end := z;
      ghost var hit := n + (size - 1 - z); // the offset of cell KMAX-1 among the padding
      WrapDistance(a, z, size);
      y, stray := 0, false;
      var i := 0;
      TopReadStart(s, hit, stale);
      while i < fmt.Dig()
        modifies x
        invariant 0 <= i <= fmt.Dig() && 0 <= end < size
        invariant end == Wrap(a + if i < n then n else i, size)
        invariant Slice(x[..], a, n) == s && x[size - 1] == stale
        invariant y == Int(TopRead(s, i, hit, stale))
        invariant stray == (hit < i)
      {
        var k := Wrap(a + i, size);
        WrapSame(a, i, n, size);
        HitAt(a, n, z, i, size);
        if k == end {
          var outside;
          end, outside := PadCell(x, a, n, end, i);
          stray := stray || outside;
        } else {
          SliceAt(x[..], a, n, i);
        }
        y := BASE * y + x[k];
        TopReadStep(s, i, hit, stale);
        i := i + 1;
      }
      TopReadEnd(s, fmt.Dig(), hit, stale);
      z := end;
    }
  }

  /** Free cells that must be zero: from the end at origin - r + n up to cell 0, `origin` or the one before the
      start a turn later. */
  function Behind(fmt: Format, origin: int, r: int, n: int): int {
    var top := if origin < 0 then origin else 0;
    var turn := origin - r + fmt.Kmax() - 1;
    (if turn < top then turn else top) - (origin - r + n)
  }

  function BehindAll(origin: int, r: int, n: int): int {
    (if origin < 0 then origin else 0) - (origin - r + n)
  }

  lemma CarryMoves(fmt: Format, h: Held)
    requires Good(fmt, h.limbs)
    ensures Multiplied(fmt, h).rp == if MulCarry(h.limbs) == 0 then h.rp else h.rp + 9
  {
  }

  lemma ZeroRunNat(free: seq<int>, k: int)
    requires ZeroRun(free, k)
    ensures k >= 0
  {
  }

  lemma MulTidy(fmt: Format, h: Held, clear: int, origin: int)
    requires Good(fmt, h.limbs) && h.rp % 9 == 0 && clear >= Behind(fmt, origin, h.rp / 9, |h.limbs|)
    ensures var r := Multiplied(fmt, h);
            MulClear(h.limbs, clear, fmt.Capacity()) >= Behind(fmt, origin, r.rp / 9, |r.limbs|)
  {
    hide MulPass, TrimZeros;
  }

  lemma DivTidy(fmt: Format, h: Held, clear: int, origin: int)
    requires Good(fmt, h.limbs) && High(fmt, h) && clear >= 0 && clear >= BehindAll(origin, h.rp / 9, |h.limbs|)
    ensures var r := Shifted(fmt, h);
            DivClear(h.limbs, Divisor(ShiftBy(fmt, h.rp)), clear, fmt.Capacity()) >= BehindAll(origin, r.rp / 9, |r.limbs|)
  {
    hide DivPass;
  }

  lemma StepWraps(a: int, size: int)
    requires 0 <= a < size && size > 1
    ensures Wrap(a + 1, size) == if a == size - 1 then 0 else a + 1
  {
  }

  /** Start plus radix point after alignment, in limbs: the radix point rounded up. */
  function Origin(rp: int): int {
    (rp + 8) / 9
  }

  /** Does the padding run past the last cell?  The ring ends at cell origin - LD_B1B_DIG + n of the unrolled
      ring, and the padding at `origin`. */
  predicate Strays(fmt: Format, origin: int, n: int) {
    n < fmt.Dig() && (origin - fmt.Dig() + n) % fmt.Kmax() + (fmt.Dig() - n) >= fmt.Kmax()
  }

  lemma StraysIff(fmt: Format, origin: int, n: int, a: int, z: int, turn: int)
    requires 0 <= a < fmt.Kmax() && 1 <= n < fmt.Kmax() && z == Wrap(a + n, fmt.Kmax()) && origin < fmt.Kmax()
    requires a == origin - fmt.Dig() + fmt.Kmax() * turn
    ensures Strays(fmt, origin, n) <==> n + (fmt.Kmax() - 1 - z) < fmt.Dig()
    ensures Strays(fmt, origin, n) ==> fmt.Kmax() - 1 - z < BehindAll(origin, fmt.Dig(), n)
  {
    var u, size := origin - fmt.Dig() + n, fmt.Kmax();
    var t := if a + n >= size then turn - 1 else turn;
    assert z == u + size * t;
    DivUnique(u, size, -t, z);
  }

  /** A free cell known to be clear. */
  lemma ClearCell(cells: seq<Word>, a: int, z: int, clear: int, i: int)
    requires 0 <= a < |cells| && 0 <= z < |cells| && a != z && ZeroRun(Free(cells, a, z), clear) && 0 <= i < clear
    requires z + i < |cells|
    ensures cells[z + i] == 0
  {
    SliceAt(cells, z, |Free(cells, a, z)|, i);
  }

  /** One padding write of the assembly. */
  method PadCell(x: array<Word>, a: int, ghost n: int, z: int, ghost i: int) returns (end: int, outside: bool)
    requires 0 <= a < x.Length && 0 <= n <= i < x.Length && z == Wrap(a + i, x.Length)
    modifies x
    ensures end == Wrap(a + i + 1, x.Length) && outside == (z == x.Length - 1)
    ensures Slice(x[..], a, n) == old(Slice(x[..], a, n)) && x[x.Length - 1] == old(x[x.Length - 1])
    ensures x[z] == if outside then old(x[z]) else 0
  {
    hide Slice;
    end := Wrap(z + 1, x.Length);
    outside := end == 0;
    if !outside {
      SliceFrame(x[..], a, n, i, 0);
      ghost var cells := x[..];
      x[end - 1] := 0;
      assert x[..] == cells[z := 0];
    }
  }

  lemma HitAt(a: int, n: int, z: int, i: int, size: int)
    requires 0 <= a < size && 0 <= n < size && z == Wrap(a + n, size) && 0 <= i < size
    ensures n <= i ==> (Wrap(a + i, size) == size - 1 <==> i == n + (size - 1 - z))
  {
  }

  lemma SliceFrame(cells: seq<Word>, a: int, n: int, j: int, v: Word)
    requires 0 <= a < |cells| && 0 <= n <= j < |cells|
    ensures Slice(cells[Wrap(a + j, |cells|) := v], a, n) == Slice(cells, a, n)
  {
    var after := cells[Wrap(a + j, |cells|) := v];
    forall i | 0 <= i < n
      ensures Slice(after, a, n)[i] == Slice(cells, a, n)[i]
    {
      WrapSame(a, i, j, |cells|);
    }
  }

  /** What the assembly reads: limbs, then zeros, except a stale cell at offset `hit`. */
  ghost function TopRead(s: seq<int>, n: nat, hit: int, stale: int): (r: seq<int>)
    ensures |r| == n
  {
    seq(n, i requires 0 <= i < n => if i < |s| then s[i] else if i == hit then stale else 0)
  }

  lemma TopReadStart(s: seq<int>, hit: int, stale: int)
    ensures Int(TopRead(s, 0, hit, stale)) == 0
  {
  }

  lemma TopReadStep(s: seq<int>, i: nat, hit: int, stale: int)
    ensures Int(TopRead(s, i + 1, hit, stale))
         == BASE * Int(TopRead(s, i, hit, stale)) + (if i < |s| then s[i] else if i == hit then stale else 0)
  {
    var r := TopRead(s, i, hit, stale);
    assert TopRead(s, i + 1, hit, stale)[..i] == r;
  }

  lemma TopReadEnd(s: seq<int>, n: nat, hit: int, stale: int)
    requires |s| <= hit && 0 <= stale
    ensures Int(TopRead(s, n, hit, stale)) == Top(s, n) <==> hit >= n || stale == 0
  {
    var r := TopRead(s, n, hit, stale);
    if hit >= n || stale == 0 {
      assert r == Head(s, n);
    } else {
      assert r == Head(s, n)[hit := stale];
      IntIncreases(Head(s, n), hit, stale);
    }
  }

  lemma {:induction false} IntIncreases(s: seq<int>, j: int, v: int)
    requires 0 <= j < |s| && v > s[j]
    ensures Int(s[j := v]) > Int(s)
  {
    var t, x := s[..|s| - 1], s[|s| - 1];
    assert s == t + [x];
    IntAppend(t, x);
    if j == |s| - 1 {
      assert s[j := v] == t + [v];
      IntAppend(t, v);
    } else {
      IntIncreases(t, j, v);
      assert s[j := v] == t[j := v] + [x];
      IntAppend(t[j := v], x);
    }
  }

  /** x & (2^sh - 1) and x >> sh divide by these. */
  lemma ShiftDivisors()
    ensures TwoTo(1) == 2 && TwoTo(9) == 512 && DividesBase(2) && DividesBase(512)
  {
  }

  lemma MulShape(s: seq<int>)
    requires s != [] && Bounded(s, LOOSE)
    ensures MulRest(s) == MulPass(s, 0).0[..|MulRest(s)|] && 1 <= |MulRest(s)|
    ensures Bounded(MulRest(s), LOOSE) && 0 <= MulCarry(s) <= LOOSE
  {
    MulPassBounds(s, 0, LOOSE);
  }

  lemma DivShape(s: seq<int>, d: int)
    requires s != [] && Bounded(s, LOOSE) && DividesBase(d) && s[0] > 0
    ensures DivRest(s, d) == if DivPass(s, d)[0] == 0 then DivPass(s, d)[..|s|][1..] else DivPass(s, d)[..|s|]
    ensures Bounded(DivRest(s, d), LOOSE) && 0 <= DivPass(s, d)[|s|] <= LOOSE
    ensures DivPass(s, d)[0] == 0 && |s| == 1 ==> DivPass(s, d)[|s|] != 0
  {
    DivPassBounds(s, d, LOOSE);
    DivPassLead(s, d);
  }

  /** Giving up the leading cell only adds a free one at the far end. */
  lemma FreeLead(cells: seq<Word>, a: int, z: int, clear: int)
    requires 0 <= a < |cells| && 0 <= z < |cells| && a != z && ZeroRun(Free(cells, a, z), clear)
    ensures ZeroRun(Free(cells, Wrap(a + 1, |cells|), z), clear)
  {
    var b := Wrap(a + 1, |cells|);
    var f, g := Free(cells, a, z), Free(cells, b, z);
    assert |g| == |f| + 1 || |g| == |cells|;
    forall i | 0 <= i < clear
      ensures g[i] == 0
    {
      SliceAt(cells, z, |f|, i);
      SliceAt(cells, z, |g|, i);
    }
  }

  lemma WrapNext(a: int, z: int, size: int)
    requires 0 <= a < size && 0 <= z < size && a != z
    ensures Wrap(z - Wrap(a + 1, size), size) == Wrap(z - a, size) - 1
    ensures Wrap(a + 1, size) == z <==> Wrap(z - a, size) == 1
  {
  }
}
