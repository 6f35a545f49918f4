/**
 Window arithmetic (src/core/chunkio.c:57-78).  A window size is a power of two between 16 KiB
 and 1 MiB.  The source rounds with bit masks; here rounding subtracts the remainder.
 */
module Windows {
  import opened Basics

  const MIN_WINDOW: int := 16 * 1024
  const DEFAULT_WINDOW: int := 64 * 1024
  const MAX_WINDOW: int := 1024 * 1024

  predicate SizeValid(w: int) {
    || w == 16 * 1024 || w == 32 * 1024 || w == 64 * 1024 || w == 128 * 1024
    || w == 256 * 1024 || w == 512 * 1024 || w == 1024 * 1024
  }

  /** The source's test on 32-bit words accepts exactly the seven sizes of `SizeValid`. */
  lemma MaskTestAcceptsSevenSizes(w: bv32)
    ensures (0x4000 <= w && w <= 0x10_0000 && w & (w - 1) == 0) <==>
            (|| w == 0x4000 || w == 0x8000 || w == 0x1_0000 || w == 0x2_0000
             || w == 0x4_0000 || w == 0x8_0000 || w == 0x10_0000)
  {
    assert w & (w - 1) == 0 && 0x4000 <= w <= 0x10_0000 ==>
      (|| w == 0x4000 || w == 0x8000 || w == 0x1_0000 || w == 0x2_0000
       || w == 0x4_0000 || w == 0x8_0000 || w == 0x10_0000);
  }

  predicate Aligned(p: int, w: int)
    requires w > 0
  {
    p % w == 0
  }

  function Base(p: int, w: int): int
    requires w > 0
  {
    p - p % w
  }

  /** `myfs_window_ceil`: rounds up, unless the mask would carry out of 64 bits. */
  function Ceil(p: nat, w: int): (r: Result<nat>)
  {
    if !SizeValid(w) then Err(EINVAL)
    else if p > U64_MAX - (w - 1) then Err(EOVERFLOW)
    else Ok(Base(p + (w - 1), w))
  }

  lemma ProductAtLeast(w: int, d: int)
    requires w > 0 && d >= 1
    ensures w * d >= w
  {
  }

  lemma ProductStep(w: int, q: int, d: int)
    requires w > 0 && q < d
    ensures w * q + w <= w * d
  {
    ProductAtLeast(w, d - q);
    assert w * (d - q) == w * d - w * q;
  }

  lemma QuotientUnique(x: int, q: int, w: int)
    requires w > 0 && x == w * q
    ensures x % w == 0 && x / w == q
  {
    var d := x / w;
    assert x == w * d + x % w;
    if d > q {
      ProductStep(w, q, d);
    } else if d < q {
      ProductStep(w, d, q);
    }
  }

  lemma BaseBounds(p: int, w: int)
    requires w > 0
    ensures Base(p, w) <= p < Base(p, w) + w
    ensures Aligned(Base(p, w), w)
    ensures p >= 0 ==> Base(p, w) >= 0
  {
    QuotientUnique(p - p % w, p / w, w);
    if p >= 0 && Base(p, w) < 0 {
      QuotientUnique(0, 0, w);
      AlignedGap(Base(p, w), 0, w);
    }
  }

  lemma AlignedGap(a: int, b: int, w: int)
    requires w > 0 && Aligned(a, w) && Aligned(b, w)
    ensures a < b ==> a + w <= b
  {
    var i, j := a / w, b / w;
    assert a == w * i && b == w * j;
    if i < j {
      ProductStep(w, i, j);
    } else if j < i {
      ProductStep(w, j, i);
    }
  }

  lemma AlignedNext(a: int, w: int)
    requires w > 0 && Aligned(a, w)
    ensures Aligned(a + w, w)
  {
    assert a == w * (a / w);
    assert a + w == w * (a / w + 1);
    QuotientUnique(a + w, a / w + 1, w);
  }

  /** A window is determined by any position inside it. */
  lemma BaseUnique(p: int, a: int, w: int)
    requires w > 0 && Aligned(a, w) && a <= p < a + w
    ensures Base(p, w) == a
  {
    BaseBounds(p, w);
    AlignedGap(a, Base(p, w), w);
    AlignedGap(Base(p, w), a, w);
  }

  /** Rounding up gives the least aligned bound, and fails only when that bound exceeds 64 bits. */
  lemma CeilLeast(p: nat, w: int)
    requires SizeValid(w)
    ensures Ceil(p, w).Ok? ==>
              && Aligned(Ceil(p, w).value, w)
              && p <= Ceil(p, w).value < p + w
              && forall b: int | Aligned(b, w) && p <= b :: Ceil(p, w).value <= b
    ensures Ceil(p, w).Err? ==> forall b: int | Aligned(b, w) && p <= b :: b > U64_MAX
  {
    BaseBounds(p + (w - 1), w);
    var c := Base(p + (w - 1), w);
    forall b: int | Aligned(b, w) && p <= b
      ensures c <= b
    {
      if b < c { AlignedGap(b, c, w); }
    }
    if Ceil(p, w).Err? {
      AlignedTop(w);
      forall b: int | Aligned(b, w) && p <= b
        ensures b > U64_MAX
      {
        if b <= U64_MAX { AlignedGap(b, U64_MAX + 1, w); }
      }
    }
  }

  lemma AlignedTop(w: int)
    requires SizeValid(w)
    ensures Aligned(U64_MAX + 1, w) && Aligned(OFF_MAX + 1, w) && Aligned(0, w)
  {
  }
}
