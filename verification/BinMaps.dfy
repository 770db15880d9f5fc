/** The bit tricks on dlmalloc's 32-bit bin maps. */
module BinMaps {
  import opened Bits
  import opened Buckets

  /** `-x` on 32 bits. */
  function Neg(x: nat): (r: nat)
    requires x < WORD
    ensures r < WORD
  {
    if x == 0 then 0 else WORD - x
  }

  /** `least_bit` */
  function LeastBit(x: nat): nat
    requires x < WORD
  {
    And(x, Neg(x))
  }

  /** `left_bits(idx2bit(i))` */
  function LeftBits(i: nat): nat
    requires i < 32
  {
    var y := 2 * Pow2(i) % WORD;
    Or(y, Neg(y))
  }

  /** A word and its complement have no bit in common. */
  lemma {:induction false} AndComplement(x: nat, w: nat)
    requires x < Pow2(w)
    ensures And(x, Pow2(w) - 1 - x) == 0
    decreases w
  {
    if x > 0 {
      var p := Pow2(w - 1);
      assert Pow2(w) == 2 * p;
      AndComplement(x / 2, w - 1);
      assert (2 * p - 1 - x) / 2 == p - 1 - x / 2;
    }
  }

  /** In two's complement, `x & -x` is the lowest set bit of `x`. */
  lemma {:induction false} AndNegation(x: nat, w: nat)
    requires 0 < x < Pow2(w)
    ensures And(x, Pow2(w) - x) == Pow2(Ctz(x))
    decreases w
  {
    var p := Pow2(w - 1);
    assert Pow2(w) == 2 * p;
    if x % 2 == 1 {
      AndComplement(x / 2, w - 1);
      assert (2 * p - x) / 2 == p - 1 - x / 2;
    } else {
      AndNegation(x / 2, w - 1);
      assert (2 * p - x) / 2 == p - x / 2;
    }
  }

  lemma {:induction false} CtzPow2(k: nat)
    ensures Ctz(Pow2(k)) == k
  {
    if k > 0 { CtzPow2(k - 1); }
  }

  /** `compute_bit2idx(least_bit(x))` is the index of the lowest set bit. */
  lemma LeastBitIndex(x: nat)
    requires 0 < x < WORD
    ensures LeastBit(x) > 0 && Ctz(LeastBit(x)) == Ctz(x)
  {
    hide And, Ctz, Pow2;
    Pow2Table();
    AndNegation(x, 32);
    CtzPow2(Ctz(x));
  }

  /** `2^k | (2^w - 2^k)` has exactly the bits from `k` to `w - 1`. */
  lemma {:induction false} OrNegation(k: nat, w: nat, j: nat)
    requires k < w
    ensures Pow2(k) <= Pow2(w)
    ensures Bit(Or(Pow2(k), Pow2(w) - Pow2(k)), j) == (k <= j < w)
    decreases w
  {
    Pow2Mono(k, w);
    OrBits(Pow2(k), Pow2(w) - Pow2(k), j);
    PowBits(k, j);
    DifferenceBits(k, w, j);
  }

  lemma {:induction false} PowBits(k: nat, j: nat)
    ensures Bit(Pow2(k), j) == (j == k)
    decreases j
  {
    if k == 0 && j > 0 { ShrZero(j - 1); assert Shr(1, j) == Shr(0, j - 1); }
    else if k > 0 && j > 0 { PowBits(k - 1, j - 1); assert Pow2(k) / 2 == Pow2(k - 1); }
  }

  lemma {:induction false} DifferenceBits(k: nat, w: nat, j: nat)
    requires k <= w
    ensures Pow2(k) <= Pow2(w)
    ensures Bit(Pow2(w) - Pow2(k), j) == (k <= j < w)
    decreases w
  {
    Pow2Mono(k, w);
    if k == w {
      ShrZero(j);
    } else if k > 0 {
      var x := Pow2(w) - Pow2(k);
      assert x == 2 * (Pow2(w - 1) - Pow2(k - 1)) by { Pow2Mono(k - 1, w - 1); }
      if j > 0 { DifferenceBits(k - 1, w - 1, j - 1); assert x / 2 == Pow2(w - 1) - Pow2(k - 1); }
    } else {
      var x := Pow2(w) - 1;
      assert x == 2 * (Pow2(w - 1) - 1) + 1;
      if j > 0 { DifferenceBits(0, w - 1, j - 1); assert x / 2 == Pow2(w - 1) - 1; }
    }
  }

  lemma LeftBitsForm(i: nat)
    requires i < 31
    ensures Pow2(i + 1) <= Pow2(32) && LeftBits(i) == Or(Pow2(i + 1), Pow2(32) - Pow2(i + 1))
  {
    hide Or;
    Pow2Table();
    Pow2Mono(i + 1, 31);
    assert Pow2(i + 1) == 2 * Pow2(i) && Pow2(32) == 2 * Pow2(31);
  }

  lemma NoLeftBits()
    ensures LeftBits(31) == 0
  {
    Pow2Table();
    assert 2 * Pow2(31) == Pow2(32);
  }

  /** The mask selects the bins above `i`. */
  lemma LeftBitsAbove(i: nat, j: nat)
    requires i < 32
    ensures Bit(LeftBits(i), j) == (i < j < 32)
  {
    hide LeftBits, Or, Bit;
    if i == 31 {
      NoLeftBits();
      NoBit(j);
    } else {
      LeftBitsForm(i);
      OrNegation(i + 1, 32, j);
    }
  }

  lemma NoBit(j: nat)
    ensures !Bit(0, j)
  {
    ShrZero(j);
  }

  lemma {:induction false} Bounded(x: nat, w: nat)
    requires forall j: nat :: Bit(x, j) ==> j < w
    ensures x < Pow2(w)
  {
    if x > 0 {
      Log2Highest(x);
      Log2Spec(x);
      Pow2Mono(Log2(x) + 1, w);
    }
  }

  lemma SelectedBit(i: nat, marks: nat, j: nat)
    requires i < 32
    ensures Bit(And(LeftBits(i), marks), j) == (i < j < 32 && Bit(marks, j))
  {
    AndBits(LeftBits(i), marks, j);
    LeftBitsAbove(i, j);
  }

  /** The lowest marked bin above `i`, as `tmalloc_large` computes it; 32 if there is none. */
  function NextBin(i: nat, marks: nat): (k: nat)
    requires i < 32
  {
    SelectedBounded(i, marks);
    var leftbits := And(LeftBits(i), marks);
    if leftbits == 0 then 32 else LeastBitIndex(leftbits); Ctz(LeastBit(leftbits))
  }

  lemma SelectedBounded(i: nat, marks: nat)
    requires i < 32
    ensures And(LeftBits(i), marks) < WORD
  {
    forall j: nat ensures Bit(And(LeftBits(i), marks), j) ==> j < 32 { SelectedBit(i, marks, j); }
    Bounded(And(LeftBits(i), marks), 32);
    Pow2Table();
  }

  lemma NextBinLeast(i: nat, marks: nat)
    requires i < 32
    ensures i < NextBin(i, marks) <= 32 && (NextBin(i, marks) < 32 ==> Bit(marks, NextBin(i, marks)))
    ensures forall j :: i < j < NextBin(i, marks) ==> !Bit(marks, j)
  {
    var x := And(LeftBits(i), marks);
    SelectedBounded(i, marks);
    forall j: nat ensures Bit(x, j) == (i < j < 32 && Bit(marks, j)) { SelectedBit(i, marks, j); }
    if x == 0 {
      forall j | i < j < 32 ensures !Bit(marks, j) { ShrZero(j); assert !Bit(x, j); }
    } else {
      LeastBitIndex(x);
      CtzLowest(x);
    }
  }

  /** `compute_bit2idx(least_bit(marks))`, as `tmalloc_small` computes it. */
  lemma FirstBinLeast(marks: nat)
    requires 0 < marks < WORD
    ensures LeastBit(marks) > 0 && Bit(marks, Ctz(LeastBit(marks)))
    ensures forall j: nat :: j < Ctz(LeastBit(marks)) ==> !Bit(marks, j)
  {
    LeastBitIndex(marks);
    CtzLowest(marks);
  }

  lemma HighBits(m: nat, w: nat, j: nat)
    requires m < Pow2(w) && w <= j
    ensures !Bit(m, j)
  {
    Pow2Mono(w, j);
    ShrRange(m, j, 0, 1);
  }

  // ----- the small-bin search of `dlmalloc`

  lemma {:induction false} ShiftBack(m: nat, i: nat, j: nat)
    ensures Shr(m, i) * Pow2(i) <= m
    ensures Bit(Shr(m, i) * Pow2(i), j) == (j >= i && Bit(m, j))
    decreases i
  {
    if i > 0 {
      hide Shr, Pow2, Bit;
      ShiftBack(m / 2, i - 1, if j > 0 then j - 1 else 0);
      ShiftUnfold(m, i);
      Doubled(Shr(m / 2, i - 1) * Pow2(i - 1), j);
      if j > 0 { HalfBit(m, j); }
    }
  }

  lemma ShiftUnfold(m: nat, i: nat)
    requires i > 0
    ensures Shr(m, i) * Pow2(i) == 2 * (Shr(m / 2, i - 1) * Pow2(i - 1))
  {
    Doubling(Shr(m / 2, i - 1), i);
  }

  lemma HalfBit(m: nat, j: nat)
    requires j > 0
    ensures Bit(m, j) == Bit(m / 2, j - 1)
  {
  }

  lemma Doubled(x: nat, j: nat)
    ensures Bit(2 * x, j) == (j > 0 && Bit(x, j - 1))
  {
  }

  /** Bits 0 and 1 of `m >> i` are bits `i` and `i + 1` of `m`. */
  lemma LowBits(m: nat, i: nat)
    ensures Shr(m, i) % 4 == 0 <==> !Bit(m, i) && !Bit(m, i + 1)
    ensures Shr(m, i) % 2 == 0 <==> !Bit(m, i)
  {
    ShrAdd(m, i, 1);
    assert Shr(m, i + 1) == Shr(m, i) / 2;
  }

  lemma {:induction false} NoHigherBits(m: nat, i: nat, j: nat)
    requires Shr(m, i) == 0 && i <= j
    ensures !Bit(m, j)
  {
    ShrAdd(m, i, j - i);
    ShrZero(j - i);
  }

  /** The next marked bin above `i`, in `(smallbits << i) & left_bits(idx2bit(i))`. */
  lemma NextSmall(m: nat, i: nat)
    requires i < 32 && m < WORD && Shr(m, i) != 0 && !Bit(m, i) && !Bit(m, i + 1)
    ensures var k := NextBin(i, Shr(m, i) * Pow2(i));
      i + 1 < k < 32 && Bit(m, k) && forall j: nat :: i <= j < k ==> !Bit(m, j)
  {
    hide NextBin, Bit, Shr, Pow2;
    var marks := Shr(m, i) * Pow2(i);
    NextBinLeast(i, marks);
    var k := NextBin(i, marks);
    forall j: nat ensures Bit(marks, j) == (j >= i && Bit(m, j)) { ShiftBack(m, i, j); }
    Somewhere(m, i);
    var j: nat :| i <= j && Bit(m, j);
    assert j < 32 by { if j >= 32 { Buckets.Pow2Table(); HighBits(m, 32, j); } }
  }

  lemma Somewhere(m: nat, i: nat)
    requires Shr(m, i) != 0
    ensures exists j: nat :: i <= j && Bit(m, j)
  {
    Log2Highest(Shr(m, i));
    ShrBits(m, i, Log2(Shr(m, i)));
  }
}
