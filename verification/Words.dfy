/**
 Machine words as non-negative integers: powers of two, the bitwise operations,
 and what masking with a power of two computes.
 */
module Words {

  function TwoTo(n: nat): (p: int)
    ensures p > 0
  {
    if n == 0 then 1 else 2 * TwoTo(n - 1)
  }

  ghost predicate PowerOfTwo(a: int) {
    exists k: nat :: a == TwoTo(k)
  }

  lemma {:induction false} TwoToAdd(m: nat, n: nat)
    ensures TwoTo(m + n) == TwoTo(m) * TwoTo(n)
  {
    if n > 0 {
      TwoToAdd(m, n - 1);
    }
  }

  lemma TwoToStep(n: nat)
    ensures TwoTo(n + 1) == 2 * TwoTo(n)
  {
  }

  lemma TwoTo64()
    ensures TwoTo(32) == 0x1_0000_0000 && TwoTo(64) == 0x1_0000_0000_0000_0000
  {
    assert TwoTo(8) == 256;
    TwoToAdd(8, 8);
    TwoToAdd(16, 16);
    TwoToAdd(32, 32);
  }

  /** Bitwise or of two non-negative words. */
  function BitOr(p: nat, q: nat): (r: nat)
    ensures p <= r <= p + q && q <= r
  {
    if p == 0 && q == 0 then 0
    else 2 * BitOr(p / 2, q / 2) + (if p % 2 == 1 || q % 2 == 1 then 1 else 0)
  }

  lemma {:induction false} BitOrBound(p: nat, q: nat, n: nat)
    requires p < TwoTo(n) && q < TwoTo(n)
    ensures BitOr(p, q) < TwoTo(n)
  {
    if n > 0 {
      BitOrBound(p / 2, q / 2, n - 1);
    }
  }

  /** Bitwise and of two non-negative words. */
  function BitAnd(p: nat, q: nat): (r: nat)
    ensures r <= p && r <= q
  {
    if p == 0 || q == 0 then 0
    else 2 * BitAnd(p / 2, q / 2) + (if p % 2 == 1 && q % 2 == 1 then 1 else 0)
  }

  lemma {:induction false} BitAndSwap(p: nat, q: nat)
    ensures BitAnd(p, q) == BitAnd(q, p)
  {
    if p != 0 && q != 0 {
      BitAndSwap(p / 2, q / 2);
    }
  }

  /** `x` as an unsigned word of `w` bits. */
  function Word(w: nat, x: int): (r: nat)
    ensures r < TwoTo(w)
  {
    x % TwoTo(w)
  }

  /** The remainder of a division by a positive number. */
  function Rem(x: int, m: int): (r: int)
    requires m > 0
    ensures 0 <= r < m
  {
    x % m
  }

  lemma RemIs(x: int, m: int, a: int, r: int)
    requires m > 0 && x == m * a + r && 0 <= r < m
    ensures Rem(x, m) == r
  {
    DivUnique(x, m, a, r);
  }

  lemma RemQuotient(x: int, m: int) returns (a: int)
    requires m > 0
    ensures x == m * a + Rem(x, m)
  {
    a := x / m;
  }

  /** A product of two unknowns, for proofs that need only the few facts below. */
  function Times(a: nat, b: nat): nat {
    a * b
  }

  /** Places `i` and `i` + 1 + `d` of a table whose rows have width `w`. */
  lemma TimesOrder(i: nat, d: nat, w: nat)
    ensures Times(i, w) + w <= Times(i + 1 + d, w)
  {
    assert d * w >= 0;
    assert (i + 1 + d) * w == i * w + w + d * w;
  }

  lemma TimesAtLeast(v: nat, b: nat)
    requires b >= 1
    ensures Times(v, b) >= v
  {
    assert v * (b - 1) >= 0;
  }

  lemma TimesMonotone(i: nat, j: nat, w: nat)
    requires i <= j
    ensures Times(i, w) <= Times(j, w) && Times(1, w) == w
  {
    assert (j - i) * w >= 0;
    assert j * w == i * w + (j - i) * w;
  }

  lemma MultipleAbove(m: int, d: int)
    requires m > 0 && m * d > -m
    ensures m * d >= 0
  {
    assert d <= -1 ==> m * (-d - 1) >= 0;
  }

  lemma SmallMultiple(m: int, d: int)
    requires -m < m * d < m
    ensures d == 0
  {
    assert d >= 1 ==> m * (d - 1) >= 0;
    assert d <= -1 ==> m * (-d - 1) >= 0;
  }

  lemma DivUnique(x: int, m: int, a: int, r: int)
    requires m > 0 && x == m * a + r && 0 <= r < m
    ensures x / m == a && x % m == r
  {
    var q, s := x / m, x % m;
    assert x == m * q + s && 0 <= s < m;
    assert m * (q - a) == r - s;
    SmallMultiple(m, q - a);
  }

  lemma ModShift(x: int, m: int, k: int)
    requires m > 0
    ensures Rem(x + m * k, m) == Rem(x, m)
  {
    assert x + m * k == m * (x / m + k) + x % m;
    DivUnique(x + m * k, m, x / m + k, x % m);
  }

  lemma WrapMod(x: int, a: int, b: int)
    requires a > 0 && b > 0 && a * b > 0
    ensures Rem(x % (a * b), a) == Rem(x, a)
  {
    var q, r := x / (a * b), x % (a * b);
    hide Rem;
    MulRegroup(a, b, q);
    ModShift(r, a, b * q);
  }

  lemma MulRegroup(a: int, b: int, q: int)
    ensures (a * b) * q == a * (b * q)
  {
  }

  lemma ModHalf(p: nat, m: int)
    requires m > 0
    ensures p % (2 * m) == 2 * ((p / 2) % m) + p % 2
  {
    var h := p / 2;
    var a, b := h / m, h % m;
    assert h == m * a + b;
    assert p == (2 * m) * a + (2 * b + p % 2);
    DivUnique(p, 2 * m, a, 2 * b + p % 2);
  }

  lemma BitAndOdd(p: nat, h: nat)
    requires h > 0
    ensures BitAnd(p, 2 * h - 1) == 2 * BitAnd(p / 2, h - 1) + p % 2
  {
    assert (2 * h - 1) / 2 == h - 1;
  }

  lemma {:induction false} BitAndEven(p: nat, h: nat)
    ensures BitAnd(p, 2 * h) == 2 * BitAnd(p / 2, h)
  {
    assert (2 * h) / 2 == h && (2 * h) % 2 == 0;
  }

  /** Masking with 2^k - 1 takes the remainder. */
  lemma {:induction false} MaskLow(p: nat, k: nat)
    ensures BitAnd(p, TwoTo(k) - 1) == Rem(p, TwoTo(k))
  {
    if k > 0 {
      hide BitAnd;
      var h := TwoTo(k - 1);
      assert TwoTo(k) == 2 * h;
      MaskLow(p / 2, k - 1);
      ModHalf(p, h);
      BitAndOdd(p, h);
    }
  }

  /** Masking with -2^k takes the remainder off. */
  lemma {:induction false} MaskHigh(p: nat, w: nat, k: nat, mask: nat)
    requires k <= w && p < TwoTo(w) && mask == TwoTo(w) - TwoTo(k)
    ensures BitAnd(p, mask) == p - Rem(p, TwoTo(k))
  {
    hide BitAnd;
    if k == 0 {
      MaskLow(p, w);
      DivUnique(p, TwoTo(w), 0, p);
    } else {
      var h, g := TwoTo(k - 1), TwoTo(w - 1);
      assert TwoTo(k) == 2 * h && TwoTo(w) == 2 * g;
      TwoToMonotone(k - 1, w - 1);
      MaskHigh(p / 2, w - 1, k - 1, g - h);
      ModHalf(p, h);
      BitAndEven(p, g - h);
    }
  }

  /** Bit `k` of a word. */
  predicate Bit(p: nat, k: nat) {
    p / TwoTo(k) % 2 == 1
  }

  /** Masking with 2^k tests bit k. */
  lemma {:induction false} BitTest(p: nat, k: nat)
    ensures BitAnd(p, TwoTo(k)) != 0 <==> Bit(p, k)
  {
    if k == 0 {
      assert BitAnd(p, 1) == p % 2;
    } else {
      hide BitAnd;
      BitAndEven(p, TwoTo(k - 1));
      BitTest(p / 2, k - 1);
      DivTwice(p, TwoTo(k - 1));
    }
  }

  lemma DivTwice(p: nat, m: nat)
    requires m > 0
    ensures p / 2 / m == p / (2 * m)
  {
    var q, r := p / (2 * m), p % (2 * m);
    assert p == (2 * m) * q + r;
    assert p / 2 == m * q + r / 2;
    DivUnique(p / 2, m, q, r / 2);
  }

  /** Setting the low bit leaves only the other bits to compare. */
  lemma LowBitSet(p: nat, q: nat)
    ensures BitOr(p, 1) == BitOr(q, 1) <==> p / 2 == q / 2
  {
    assert BitOr(p, 1) == 2 * BitOr(p / 2, 0) + 1 && BitOr(q, 1) == 2 * BitOr(q / 2, 0) + 1;
  }

  lemma {:induction false} TwoToMonotone(j: nat, k: nat)
    requires j <= k
    ensures TwoTo(j) <= TwoTo(k) && Rem(TwoTo(k), TwoTo(j)) == 0
  {
    TwoToAdd(j, k - j);
    var a, b := TwoTo(j), TwoTo(k - j);
    assert a * b >= a * 1;
    DivUnique(a * b, a, b, 0);
  }

  /** Bitwise exclusive or. */
  function BitXor(p: nat, q: nat): (r: nat)
  {
    if p == 0 && q == 0 then 0
    else 2 * BitXor(p / 2, q / 2) + (if p % 2 != q % 2 then 1 else 0)
  }

  lemma {:induction false} BitXorTwice(p: nat, q: nat)
    ensures BitXor(q, BitXor(q, p)) == p
  {
    if p != 0 || q != 0 {
      BitXorTwice(p / 2, q / 2);
      var x := BitXor(q, p);
      assert x / 2 == BitXor(q / 2, p / 2) && x % 2 == if p % 2 != q % 2 then 1 else 0;
    }
  }

  lemma {:induction false} BitXorBound(p: nat, q: nat, n: nat)
    requires p < TwoTo(n) && q < TwoTo(n)
    ensures BitXor(p, q) < TwoTo(n)
  {
    if n > 0 {
      BitXorBound(p / 2, q / 2, n - 1);
    }
  }

  // ---- words bit by bit -------------------------------------------------------------------------

  lemma BitStep(p: nat, k: nat)
    ensures Bit(p, 0) <==> p % 2 == 1
    ensures k > 0 ==> (Bit(p, k) <==> Bit(p / 2, k - 1))
  {
    if k > 0 {
      DivTwice(p, TwoTo(k - 1));
    }
  }

  lemma {:induction false} BitOfOr(p: nat, q: nat, k: nat)
    ensures Bit(BitOr(p, q), k) <==> Bit(p, k) || Bit(q, k)
  {
    hide Bit;
    var r := BitOr(p, q);
    BitStep(p, k);
    BitStep(q, k);
    BitStep(r, k);
    assert r / 2 == BitOr(p / 2, q / 2) && (r % 2 == 1 <==> p % 2 == 1 || q % 2 == 1);
    if k > 0 {
      BitOfOr(p / 2, q / 2, k - 1);
    }
  }

  lemma {:induction false} BitOfAnd(p: nat, q: nat, k: nat)
    ensures Bit(BitAnd(p, q), k) <==> Bit(p, k) && Bit(q, k)
  {
    hide Bit;
    var r := BitAnd(p, q);
    BitStep(p, k);
    BitStep(q, k);
    BitStep(r, k);
    assert r / 2 == BitAnd(p / 2, q / 2) && (r % 2 == 1 <==> p % 2 == 1 && q % 2 == 1);
    if k > 0 {
      BitOfAnd(p / 2, q / 2, k - 1);
    }
  }

  lemma {:induction false} BitOfXor(p: nat, q: nat, k: nat)
    ensures Bit(BitXor(p, q), k) <==> Bit(p, k) != Bit(q, k)
  {
    hide Bit;
    var r := BitXor(p, q);
    BitStep(p, k);
    BitStep(q, k);
    BitStep(r, k);
    assert r / 2 == BitXor(p / 2, q / 2) && (r % 2 == 1 <==> p % 2 != q % 2);
    if k > 0 {
      BitOfXor(p / 2, q / 2, k - 1);
    }
  }

  /** A run of ones. */
  lemma {:induction false} BitOfRange(hi: nat, lo: nat, mask: nat, k: nat)
    requires lo <= hi && mask == TwoTo(hi) - TwoTo(lo)
    ensures Bit(mask, k) <==> lo <= k < hi
  {
    hide Bit;
    BitStep(mask, k);
    if hi == 0 {
      BitOfPower(0, k);
    } else if lo > 0 {
      assert mask / 2 == TwoTo(hi - 1) - TwoTo(lo - 1) && mask % 2 == 0;
      if k > 0 {
        BitOfRange(hi - 1, lo - 1, mask / 2, k - 1);
      }
    } else {
      assert mask / 2 == TwoTo(hi - 1) - TwoTo(0) && mask % 2 == 1;
      if k > 0 {
        BitOfRange(hi - 1, 0, mask / 2, k - 1);
      }
    }
  }

  lemma {:induction false} BitOfPower(p: nat, k: nat)
    ensures Bit(TwoTo(p), k) <==> p == k
    ensures !Bit(0, k)
  {
    hide Bit;
    BitStep(TwoTo(p), k);
    BitStep(0, k);
    if k > 0 {
      BitOfPower(if p > 0 then p - 1 else 0, k - 1);
      if p == 0 {
        assert TwoTo(0) / 2 == 0;
      } else {
        assert TwoTo(p) / 2 == TwoTo(p - 1);
      }
    }
  }

  lemma QuotientNat(p: nat, m: nat)
    requires m > 0
    ensures p / m >= 0
  {
  }

  /** p >> sh. */
  function Shr(p: nat, sh: nat): nat {
    QuotientNat(p, TwoTo(sh));
    p / TwoTo(sh)
  }

  /** Bits of a shifted word. */
  lemma {:induction false} BitOfShift(p: nat, sh: nat, k: nat)
    ensures Bit(Shr(p, sh), k) <==> Bit(p, sh + k)
  {
    hide Bit;
    if sh == 0 {
    } else {
      BitOfShift(p / 2, sh - 1, k);
      BitStep(p, sh + k);
      DivTwice(p, TwoTo(sh - 1));
    }
  }

  lemma {:induction false} BitOfShiftUp(p: nat, sh: nat, k: nat)
    ensures Bit(Times(p, TwoTo(sh)), k) <==> sh <= k && Bit(p, k - sh)
  {
    hide Bit, Times;
    var q := Times(p, TwoTo(sh));
    if sh == 0 {
      TimesOne(p);
    } else {
      DoubleTimes(p, TwoTo(sh - 1));
      BitStep(q, k);
      if k > 0 {
        BitOfShiftUp(p, sh - 1, k - 1);
      }
    }
  }

  lemma TimesOne(p: nat)
    ensures Times(p, 1) == p
  {
  }

  lemma DoubleTimes(p: nat, h: nat)
    ensures Times(p, 2 * h) == 2 * Times(p, h) && Times(p, 2 * h) / 2 == Times(p, h) && Times(p, 2 * h) % 2 == 0
  {
    assert p * (2 * h) == 2 * (p * h);
  }

  /** Bits of a word's low part. */
  lemma {:induction false} BitOfRem(p: nat, n: nat, k: nat)
    ensures Bit(Rem(p, TwoTo(n)), k) <==> k < n && Bit(p, k)
  {
    hide Bit, Rem;
    if n == 0 {
      RemIs(p, 1, p, 0);
      BitOfPower(0, k);
    } else {
      var r := Rem(p, TwoTo(n));
      LowHalf(p, n);
      BitStep(p, k);
      BitStep(r, k);
      if k > 0 {
        BitOfRem(p / 2, n - 1, k - 1);
      }
    }
  }

  lemma LowHalf(p: nat, n: nat)
    requires n > 0
    ensures Rem(p, TwoTo(n)) / 2 == Rem(p / 2, TwoTo(n - 1)) && Rem(p, TwoTo(n)) % 2 == p % 2
  {
    ModHalf(p, TwoTo(n - 1));
  }

  /** Words that agree in every bit are equal. */
  lemma {:induction false} SameBits(p: nat, q: nat, n: nat)
    requires p < TwoTo(n) && q < TwoTo(n) && forall k :: 0 <= k < n ==> (Bit(p, k) <==> Bit(q, k))
    ensures p == q
  {
    hide Bit;
    if n > 0 {
      BitStep(p, 0);
      BitStep(q, 0);
      assert Bit(p, 0) <==> Bit(q, 0);
      forall k | 0 <= k < n - 1
        ensures Bit(p / 2, k) <==> Bit(q / 2, k)
      {
        BitStep(p, k + 1);
        BitStep(q, k + 1);
        assert Bit(p, k + 1) <==> Bit(q, k + 1);
      }
      SameBits(p / 2, q / 2, n - 1);
    }
  }
}
