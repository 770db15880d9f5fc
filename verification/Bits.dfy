/** Unsigned words as natural numbers: the shifts, bit tests and powers of two that the
    allocators use on their occupancy masks, sizes and alignments.  Everything is defined by
    recursion on the shift amount, so that the facts below follow by induction. */
module Bits {

  /** 2^32 and 2^31: `size_t` and pointers are 32 bits wide. */
  const WORD: int := 0x1_0000_0000
  const HALF: int := 0x8000_0000

  function Pow2(k: nat): (p: nat)
    ensures p >= 1
  {
    if k == 0 then 1 else 2 * Pow2(k - 1)
  }

  /** `m >> i` */
  function Shr(m: nat, i: nat): (r: nat)
    decreases i
  {
    if i == 0 then m else Shr(m / 2, i - 1)
  }

  /** Is bit `i` of `m` set? */
  predicate Bit(m: nat, i: nat) { Shr(m, i) % 2 == 1 }

  /** `m | (1 << i)` */
  function SetBit(m: nat, i: nat): (r: nat)
    decreases i
  {
    if i == 0 then (if m % 2 == 0 then m + 1 else m) else 2 * SetBit(m / 2, i - 1) + m % 2
  }

  /** `m & ~(1 << i)` */
  function ClearBit(m: nat, i: nat): (r: nat)
    decreases i
  {
    if i == 0 then m - m % 2 else 2 * ClearBit(m / 2, i - 1) + m % 2
  }

  /** Number of trailing zeros, as `__builtin_ctz`. */
  function Ctz(m: nat): (r: nat)
    requires m > 0
    decreases m
  {
    if m % 2 == 1 then 0 else 1 + Ctz(m / 2)
  }

  /** Index of the highest set bit; `31 - __builtin_clz(m)` for a 32-bit `m`. */
  function Log2(m: nat): (r: nat)
    requires m > 0
    decreases m
  {
    if m == 1 then 0 else 1 + Log2(m / 2)
  }

  /** `Ctz` is the lowest set bit ... */
  lemma {:induction false} CtzLowest(m: nat)
    requires m > 0
    ensures Bit(m, Ctz(m))
    ensures forall j: nat :: j < Ctz(m) ==> !Bit(m, j)
    decreases m
  {
    if m % 2 == 0 {
      CtzLowest(m / 2);
      forall j: nat | j < Ctz(m) ensures !Bit(m, j) {
        if j > 0 { assert Bit(m, j) == Bit(m / 2, j - 1); }
      }
    }
  }

  /** ... and `Log2` the highest. */
  lemma {:induction false} Log2Highest(m: nat)
    requires m > 0
    ensures Bit(m, Log2(m))
    ensures forall j: nat :: j > Log2(m) ==> !Bit(m, j)
    decreases m
  {
    if m > 1 { Log2Highest(m / 2); }
    forall j: nat | j > Log2(m) ensures !Bit(m, j) {
      assert Bit(m, j) == Bit(m / 2, j - 1);
      if m == 1 { ShrZero(j - 1); }
    }
  }

  lemma ShrZero(i: nat)
    ensures Shr(0, i) == 0
    decreases i
  {
    if i > 0 { ShrZero(i - 1); }
  }

  lemma {:induction false} ShrAdd(m: nat, i: nat, j: nat)
    ensures Shr(Shr(m, i), j) == Shr(m, i + j)
    decreases i
  {
    if i > 0 { ShrAdd(m / 2, i - 1, j); }
  }

  lemma SetBitHalf(m: nat, i: nat)
    ensures SetBit(m, i) / 2 == if i == 0 then m / 2 else SetBit(m / 2, i - 1)
    ensures SetBit(m, i) % 2 == if i == 0 then 1 else m % 2
  {
  }

  lemma {:induction false} SetBitBits(m: nat, i: nat, j: nat)
    ensures Bit(SetBit(m, i), j) == (j == i || Bit(m, j))
    decreases i
  {
    hide SetBit;
    SetBitHalf(m, i);
    if i > 0 && j > 0 { SetBitBits(m / 2, i - 1, j - 1); }
  }

  lemma ClearBitHalf(m: nat, i: nat)
    ensures ClearBit(m, i) / 2 == if i == 0 then m / 2 else ClearBit(m / 2, i - 1)
    ensures ClearBit(m, i) % 2 == if i == 0 then 0 else m % 2
  {
  }

  lemma {:induction false} ClearBitBits(m: nat, i: nat, j: nat)
    ensures Bit(ClearBit(m, i), j) == (j != i && Bit(m, j))
    decreases i
  {
    hide ClearBit;
    ClearBitHalf(m, i);
    if i > 0 && j > 0 { ClearBitBits(m / 2, i - 1, j - 1); }
  }

  /** Clearing bit `i` clears the lowest bit of `m >> i`. */
  lemma {:induction false} ClearBitShr(m: nat, i: nat)
    ensures Shr(ClearBit(m, i), i) == Shr(m, i) - Shr(m, i) % 2
    decreases i
  {
    hide ClearBit;
    ClearBitHalf(m, i);
    if i > 0 { ClearBitShr(m / 2, i - 1); }
  }

  /** The bits of `m >> i` are the bits of `m` from `i` on. */
  lemma ShrBits(m: nat, i: nat, j: nat)
    ensures Bit(Shr(m, i), j) == Bit(m, i + j)
  {
    ShrAdd(m, i, j);
  }

  /** `Log2(x)` is `k` exactly on `[2^k, 2^(k+1))`. */
  lemma {:induction false} Log2Range(x: nat, k: nat)
    requires Pow2(k) <= x < Pow2(k + 1)
    ensures Log2(x) == k
    decreases k
  {
    if k > 0 {
      assert Pow2(k) == 2 * Pow2(k - 1) && Pow2(k + 1) == 2 * Pow2(k);
      Log2Range(x / 2, k - 1);
    } else {
      assert x == 1;
    }
  }

  lemma {:induction false} Pow2Mono(i: nat, j: nat)
    requires i <= j
    ensures Pow2(i) <= Pow2(j)
    decreases j
  {
    if i < j { Pow2Mono(i, j - 1); }
  }

  lemma Doubling(q: nat, j: nat)
    requires j > 0
    ensures q * Pow2(j) == 2 * (q * Pow2(j - 1))
  {
    TwiceMul(q, Pow2(j - 1));
  }

  lemma TwiceMul(q: nat, p: nat)
    ensures q * (2 * p) == 2 * (q * p)
  {
  }

  lemma {:induction false} Pow2Add(i: nat, j: nat)
    ensures Pow2(i + j) == Pow2(i) * Pow2(j)
    decreases i
  {
    if i > 0 {
      Pow2Add(i - 1, j);
      TwiceMul(Pow2(j), Pow2(i - 1));
    }
  }

  /** IS_POWER_OF_2, `(m & (m - 1)) == 0`: at most one bit of `m` is set. */
  predicate PowerOf2(m: nat)
    decreases m
  {
    m <= 1 || (m % 2 == 0 && PowerOf2(m / 2))
  }

  /** It holds of zero and of the powers of two, and of nothing else. */
  lemma {:induction false} PowerOf2Exact(m: nat)
    ensures PowerOf2(m) <==> m == 0 || m == Pow2(Log2(m))
    decreases m
  {
    if m > 1 { PowerOf2Exact(m / 2); }
  }

  /** Every power of two from 16 on is a multiple of 16. */
  lemma {:induction false} PowerOf2Mod16(m: nat)
    requires PowerOf2(m) && m >= 16
    ensures m % 16 == 0
    decreases m
  {
    if m >= 32 {
      PowerOf2Mod16(m / 2);
      MulMod(2 * (m / 2 / 16), 16);
    } else {
      Sixteen(m);
    }
  }

  lemma Sixteen(m: nat)
    requires PowerOf2(m) && 16 <= m < 32
    ensures m == 16
  {
    var h, q, e := m / 2, m / 4, m / 8;
    assert h / 2 == q && q / 2 == e && 2 <= e < 4;
    assert PowerOf2(h) && PowerOf2(q) && PowerOf2(e);
    assert e % 2 == 0 && q % 2 == 0 && h % 2 == 0 && m % 2 == 0;
  }

  /** The least multiple of `a` that is at least `x`: `(x + a - 1) & ~(a - 1)` for a power of two `a`. */
  function AlignUp(x: nat, a: nat): (r: nat)
    requires a > 0
    ensures x <= r < x + a
  {
    if x % a == 0 then x else x + (a - x % a)
  }

  /** The same on 32 bits. */
  function AlignUp32(x: nat, a: nat): (r: nat)
    requires a > 0
    ensures r < WORD
  {
    AlignUp(x, a) % WORD
  }

  lemma AlignUpMultiple(x: nat, a: nat)
    requires a > 0
    ensures AlignUp(x, a) % a == 0
  {
    if x % a != 0 {
      assert x + (a - x % a) == (x / a + 1) * a by { assert x == (x / a) * a + x % a; }
      MulMod(x / a + 1, a);
    }
  }

  lemma MulMod(q: nat, a: nat)
    requires a > 0
    ensures (q * a) % a == 0
  {
    var x := q * a;
    var d, r := x / a, x % a;
    assert x == d * a + r;
    assert (q - d) * a == q * a - d * a;
    SmallMultiple(q - d, a, r);
  }

  lemma SmallMultiple(n: int, a: nat, r: int)
    requires n * a == r && 0 <= r < a
    ensures r == 0
  {
  }

  lemma {:induction false} MulMono(a: nat, b: nat, p: nat)
    requires a <= b
    ensures a * p <= b * p
  {
    assert (b - a) * p >= 0;
  }

  lemma Mod16Parts(r: nat)
    requires r % 16 == 0
    ensures r % 8 == 0 && r % 4 == 0 && r % 2 == 0
  {
    var q := r / 16;
    MulMod(2 * q, 8);
    MulMod(4 * q, 4);
    MulMod(8 * q, 2);
  }

  /** A multiple of `a` is a multiple of 16 when `a` is. */
  lemma Mod16Trans(r: nat, a: nat)
    requires a > 0 && r % a == 0 && a % 16 == 0
    ensures r % 16 == 0 && r % 4 == 0
  {
    var q, b := r / a, a / 16;
    assert r == q * a && a == b * 16;
    assert r == (q * b) * 16;
    MulMod(q * b, 16);
    Mod16Parts(r);
  }

  // ----- words combined bit by bit

  /** `x & y` */
  function And(x: nat, y: nat): (r: nat)
    decreases x
  {
    if x == 0 then 0 else 2 * And(x / 2, y / 2) + (if x % 2 == 1 && y % 2 == 1 then 1 else 0)
  }

  /** `x | y` */
  function Or(x: nat, y: nat): (r: nat)
    decreases x
  {
    if x == 0 then y else 2 * Or(x / 2, y / 2) + (if x % 2 == 1 || y % 2 == 1 then 1 else 0)
  }

  lemma AndHalf(x: nat, y: nat)
    ensures And(x, y) / 2 == And(x / 2, y / 2) && (And(x, y) % 2 == 1 <==> x % 2 == 1 && y % 2 == 1)
  {
  }

  lemma OrHalf(x: nat, y: nat)
    ensures Or(x, y) / 2 == Or(x / 2, y / 2) && (Or(x, y) % 2 == 1 <==> x % 2 == 1 || y % 2 == 1)
  {
  }

  lemma {:induction false} AndBits(x: nat, y: nat, j: nat)
    ensures Bit(And(x, y), j) == (Bit(x, j) && Bit(y, j))
    decreases j
  {
    hide And;
    AndHalf(x, y);
    if j > 0 { AndBits(x / 2, y / 2, j - 1); }
  }

  lemma {:induction false} OrBits(x: nat, y: nat, j: nat)
    ensures Bit(Or(x, y), j) == (Bit(x, j) || Bit(y, j))
    decreases j
  {
    hide Or;
    OrHalf(x, y);
    if j > 0 { OrBits(x / 2, y / 2, j - 1); }
  }
}
