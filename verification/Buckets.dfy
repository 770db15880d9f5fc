/** The size classes of emmalloc's 64 free lists. */
module Buckets {
  import opened Bits

  const NUM_FREE_BUCKETS: int := 64

  /** The documented smallest payload size of each bucket: steps of 8 up to 120, then 160, 192, 224
      and 256 followed by their doubles up to 3584, then 6144 and 8192 followed by their doubles. */
  function BucketMin(b: int): int
    requires 0 <= b < NUM_FREE_BUCKETS
  {
    if b <= 14 then 8 * (b + 1)
    else if b <= 18 then 160 + 32 * (b - 15)
    else if b <= 33 then 2 * BucketMin(b - 4)
    else if b == 34 then 6144
    else if b == 35 then 8192
    else 2 * BucketMin(b - 2)
  }

  /** One past the documented largest payload size of bucket `b`. */
  function BucketEnd(b: int): int
    requires 0 <= b < NUM_FREE_BUCKETS
  {
    if b == NUM_FREE_BUCKETS - 1 then WORD else BucketMin(b + 1)
  }

  /** `__builtin_clz` on 32 bits. */
  function Clz(x: nat): (r: int)
    requires 0 < x < WORD
  {
    31 - Log2(x)
  }

  /** `a ^ b` */
  function Xor(a: nat, b: nat): (r: nat)
    decreases a
  {
    if a == 0 then b else 2 * Xor(a / 2, b / 2) + (a + b) % 2
  }

  function Min(x: int, y: int): int { if x < y then x else y }

  lemma {:induction false} Log2Spec(x: nat)
    requires x > 0
    ensures Pow2(Log2(x)) <= x < Pow2(Log2(x) + 1)
  {
    if x > 1 { Log2Spec(x / 2); }
  }

  lemma Log2Bound(x: nat)
    requires 128 <= x < WORD
    ensures 7 <= Log2(x) <= 31
  {
    Pow2Table();
    Log2Spec(x);
    if Log2(x) < 7 { Pow2Mono(Log2(x) + 1, 7); }
    if Log2(x) > 31 { Pow2Mono(32, Log2(x)); }
  }

  lemma Pow2Table()
    ensures Pow2(5) == 32 && Pow2(7) == 128 && Pow2(12) == 4096 && Pow2(32) == WORD
  {
    assert Pow2(8) == 256 && Pow2(16) == 65536 by { Pow2Add(8, 8); }
    Pow2Add(16, 16);
  }

  /** `compute_free_list_bucket`: the bucket that holds free regions with `allocSize` payload bytes. */
  function Bucket(allocSize: nat): (b: int)
    requires 8 <= allocSize < WORD
  {
    if allocSize < 128 then allocSize / 8 - 1 else
      Log2Bound(allocSize);
      var clz := Clz(allocSize);
      if clz > 19 then 110 - 4 * clz + Xor(Shr(allocSize, 29 - clz), 4)
      else Min(71 - 2 * clz + Xor(Shr(allocSize, 30 - clz), 2), NUM_FREE_BUCKETS - 1)
  }

  lemma {:induction false} ShrRange(x: nat, j: nat, lo: nat, hi: nat)
    requires lo * Pow2(j) <= x < hi * Pow2(j)
    ensures lo <= Shr(x, j) < hi
    decreases j
  {
    if j > 0 {
      hide Pow2;
      Doubling(lo, j);
      Doubling(hi, j);
      ShrRange(x / 2, j - 1, lo, hi);
    }
  }

  lemma XorLeading(q: nat)
    ensures 4 <= q < 8 ==> Xor(q, 4) == q - 4
    ensures 2 <= q < 4 ==> Xor(q, 2) == q - 2
  {
    if q == 4 { assert Xor(4, 4) == 0; } else if q == 5 { assert Xor(5, 4) == 1; }
    else if q == 6 { assert Xor(6, 4) == 2; } else if q == 7 { assert Xor(7, 4) == 3; }
    else if q == 2 { assert Xor(2, 2) == 0; } else if q == 3 { assert Xor(3, 2) == 1; }
  }

  /** `q * p` for the leading bits `q` of a size, written out so that it is linear in `p`. */
  function Scale(q: int, p: nat): int {
    if q == 2 then 2 * p else if q == 3 then 3 * p else if q == 4 then 4 * p
    else if q == 5 then 5 * p else if q == 6 then 6 * p else if q == 7 then 7 * p else 8 * p
  }

  /** From 128 to 4095 bytes each octave has four buckets ... */
  lemma BucketQuarter(x: nat, k: nat, q: nat)
    requires 7 <= k <= 11 && 4 <= q < 8 && Scale(q, Pow2(k - 2)) <= x < Scale(q + 1, Pow2(k - 2))
    ensures 128 <= x < WORD && Bucket(x) == 4 * k - 18 + q
  {
    if q == 4 { Octave(x, k, 2, 4, 4); } else if q == 5 { Octave(x, k, 2, 4, 5); }
    else if q == 6 { Octave(x, k, 2, 4, 6); } else { Octave(x, k, 2, 4, 7); }
    XorLeading(q);
  }

  /** ... and from 4096 bytes on each octave has two. */
  lemma BucketHalf(x: nat, k: nat, q: nat)
    requires 12 <= k <= 31 && 2 <= q < 4 && Scale(q, Pow2(k - 1)) <= x < Scale(q + 1, Pow2(k - 1))
    ensures 128 <= x < WORD && Bucket(x) == Min(2 * k + 7 + q, 63)
  {
    Halves(x, k, q);
    XorLeading(q);
  }

  lemma Halves(x: nat, k: nat, q: nat)
    requires 12 <= k <= 31 && 2 <= q < 4 && Scale(q, Pow2(k - 1)) <= x < Scale(q + 1, Pow2(k - 1))
    ensures 128 <= x < WORD && Log2(x) == k && Shr(x, k - 1) == q
  {
    assert Pow2(1) == 2;
    if q == 2 { Octave(x, k, 1, 2, 2); } else { Octave(x, k, 1, 2, 3); }
  }

  lemma Octave(x: nat, k: nat, i: nat, n: nat, q: nat)
    requires 7 <= k <= 31 && i <= k && n == Pow2(i) && n <= q < 2 * n
    requires q * Pow2(k - i) <= x < (q + 1) * Pow2(k - i)
    ensures 128 <= x < WORD && Log2(x) == k && Shr(x, k - i) == q
  {
    ShrRange(x, k - i, q, q + 1);
    Pow2Add(i, k - i);
    OctaveBounds(x, Pow2(k - i), n, q);
    OctaveLog(x, k);
  }

  lemma OctaveBounds(x: nat, p: nat, n: nat, q: nat)
    requires n <= q < 2 * n && q * p <= x < (q + 1) * p
    ensures n * p <= x < 2 * (n * p)
  {
    MulMono(n, q, p);
    MulMono(q + 1, 2 * n, p);
  }

  lemma OctaveLog(x: nat, k: nat)
    requires 7 <= k <= 31 && Pow2(k) <= x < Pow2(k + 1)
    ensures 128 <= x < WORD && Log2(x) == k
  {
    Log2Range(x, k);
    Pow2Table();
    Pow2Mono(7, k);
    Pow2Mono(k + 1, 32);
  }

  /** The documented bounds, octave by octave. */
  lemma {:induction false} MediumForm(k: nat, q: nat)
    requires 7 <= k <= 11 && 4 <= q < 8 && (k > 7 || q > 4)
    ensures BucketMin(4 * k - 18 + q) == Scale(q, Pow2(k - 2))
    decreases k
  {
    if k == 7 || (k == 8 && q == 4) {
      assert Pow2(6) == 64 && Pow2(5) == 32;
      assert q == 4 || q == 5 || q == 6 || q == 7;
    } else {
      MediumForm(k - 1, q);
    }
  }

  lemma {:induction false} LargeForm(k: nat, q: nat)
    requires 12 <= k <= 27 && 2 <= q < 4 && 34 <= 2 * k + 7 + q <= 63
    ensures BucketMin(2 * k + 7 + q) == Scale(q, Pow2(k - 1))
    decreases k
  {
    if k == 12 || (k == 13 && q == 2) {
      assert Pow2(11) == 2048;
    } else {
      LargeForm(k - 1, q);
    }
  }

  lemma MediumBucket(x: nat, k: nat, q: nat)
    requires 7 <= k <= 11 && 4 <= q < 8 && (k > 7 || q > 4) && (k < 11 || q < 7)
    requires BucketMin(4 * k - 18 + q) <= x < BucketMin(4 * k - 17 + q)
    ensures 8 <= x < WORD && Bucket(x) == 4 * k - 18 + q
  {
    MediumForm(k, q);
    if q < 7 { MediumForm(k, q + 1); } else { MediumForm(k + 1, 4); }
    BucketQuarter(x, k, q);
  }

  lemma LargeBucket(x: nat, k: nat, q: nat)
    requires 12 <= k && 2 <= q < 4 && 34 <= 2 * k + 7 + q < 63
    requires BucketMin(2 * k + 7 + q) <= x < BucketMin(2 * k + 8 + q)
    ensures 8 <= x < WORD && Bucket(x) == 2 * k + 7 + q
  {
    LargeForm(k, q);
    if q < 3 { LargeForm(k, q + 1); } else { LargeForm(k + 1, 2); }
    BucketHalf(x, k, q);
  }

  /** The two buckets whose range crosses a change of step. */
  lemma SeamBucket(x: nat, b: int)
    requires b == 14 || b == 33
    requires BucketMin(b) <= x < BucketEnd(b)
    ensures 8 <= x < WORD && Bucket(x) == b
  {
    assert Pow2(5) == 32 && Pow2(9) == 512 && Pow2(11) == 2048;
    if b == 14 {
      if x >= 128 { BucketQuarter(x, 7, 4); }
    } else if x < 4096 {
      BucketQuarter(x, 11, 7);
    } else {
      BucketHalf(x, 12, 2);
    }
  }

  lemma LastBucket(x: nat)
    requires BucketMin(63) <= x < WORD
    ensures Bucket(x) == 63
  {
    hide Bucket, BucketMin, Pow2, Log2;
    TopOctaves(x);
    var k := Log2(x);
    FourParts(k);
    if x < 3 * Pow2(k - 1) { BucketHalf(x, k, 2); } else { BucketHalf(x, k, 3); }
  }

  /** The sizes of the last bucket take up five octaves. */
  lemma TopOctaves(x: nat)
    requires BucketMin(63) <= x < WORD
    ensures 27 <= Log2(x) <= 31 && Pow2(Log2(x)) <= x < Pow2(Log2(x) + 1)
  {
    hide BucketMin, Log2, Pow2;
    LargeForm(27, 2);
    FourParts(27);
    Pow2Mono(7, 27);
    Pow2Table();
    Log2Bound(x);
    Log2Spec(x);
    if Log2(x) < 27 { Pow2Mono(Log2(x) + 1, 27); }
  }

  lemma FourParts(k: nat)
    requires k > 0
    ensures Pow2(k) == 2 * Pow2(k - 1) && Pow2(k + 1) == 4 * Pow2(k - 1)
  {
  }

  /** Every payload size from 8 on lies in the documented range of its bucket, and in no other. */
  lemma BucketRange(x: nat, b: int)
    requires 8 <= x < WORD && 0 <= b < NUM_FREE_BUCKETS
    ensures 0 <= Bucket(x) < NUM_FREE_BUCKETS
    ensures Bucket(x) == b <==> BucketMin(b) <= x < BucketEnd(b)
  {
    var c := FindBucket(x, 63);
    BucketAt(x, c);
    if BucketMin(b) <= x < BucketEnd(b) { BucketAt(x, b); }
  }

  lemma BucketAt(x: nat, b: int)
    requires 0 <= b < NUM_FREE_BUCKETS && BucketMin(b) <= x < BucketEnd(b)
    ensures 8 <= x < WORD && Bucket(x) == b
  {
    if b < 14 {
    } else if b == 14 || b == 33 {
      SeamBucket(x, b);
    } else if b < 33 {
      MediumBucket(x, 7 + (b - 14) / 4, 4 + (b - 14) % 4);
    } else if b < 63 {
      LargeBucket(x, 12 + (b - 33) / 2, 2 + (b - 33) % 2);
    } else {
      LastBucket(x);
    }
  }

  lemma FindBucket(x: nat, top: int) returns (b: int)
    requires 0 <= top < NUM_FREE_BUCKETS && BucketMin(0) <= x < BucketEnd(top)
    ensures 0 <= b <= top && BucketMin(b) <= x < BucketEnd(b)
    decreases top
  {
    if BucketMin(top) <= x { b := top; } else { b := FindBucket(x, top - 1); }
  }

  /** A larger bucket holds only strictly larger payloads. */
  lemma {:induction false} BucketMono(x: nat, y: nat)
    requires 8 <= x < WORD && 8 <= y < WORD
    ensures x <= y ==> Bucket(x) <= Bucket(y)
    ensures Bucket(x) < Bucket(y) ==> x < y
  {
    BucketRange(x, 0);
    BucketRange(y, 0);
    BucketRange(x, Bucket(x));
    BucketRange(y, Bucket(y));
    if Bucket(x) < Bucket(y) { MinMono(Bucket(x) + 1, Bucket(y)); }
    if Bucket(y) < Bucket(x) { MinMono(Bucket(y) + 1, Bucket(x)); }
  }

  lemma {:induction false} MinMono(b: int, c: int)
    requires 0 <= b <= c < NUM_FREE_BUCKETS
    ensures BucketMin(b) <= BucketMin(c)
    decreases c
  {
    if b < c {
      MinMono(b, c - 1);
      MinStep(c);
    }
  }

  lemma {:induction false} MinStep(c: int)
    requires 0 < c < NUM_FREE_BUCKETS
    ensures BucketMin(c - 1) < BucketMin(c)
    decreases c
  {
    if 19 < c <= 33 {
      MinStep(c - 4);
    } else if 36 < c {
      MinStep(c - 2);
    }
  }
}
