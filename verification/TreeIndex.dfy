/** The size classes of dlmalloc's 32 tree bins, and the places of the bitwise trie that hangs off each. */
module TreeIndex {
  import opened Bits
  import opened Buckets

  const NTREEBINS: int := 32
  const MIN_LARGE: int := 256

  /** `compute_tree_index` */
  function Index(s: nat): (i: int)
    requires s < WORD
  {
    var x := Shr(s, 8);
    if x == 0 then 0
    else if x > 0xFFFF then NTREEBINS - 1
    else var k := Log2(x); 2 * k + Shr(s, k + 7) % 2
  }

  /** `minsize_for_tree_index` */
  function MinSize(i: nat): int {
    Pow2(i / 2 + 8) + (if i % 2 == 1 then Pow2(i / 2 + 7) else 0)
  }

  /** One past the largest size of bin `i`. */
  function EndSize(i: nat): int {
    if i == NTREEBINS - 1 then WORD else MinSize(i + 1)
  }

  /** `leftshift_for_tree_index` */
  function LeftShift(i: nat): nat
    requires i < NTREEBINS
  {
    if i == NTREEBINS - 1 then 0 else 31 - (i / 2 + 8 - 2)
  }

  /** `s << j` on 32 bits. */
  function Shl(s: nat, j: nat): (r: nat)
    ensures r < WORD
  {
    s * Pow2(j) % WORD
  }

  lemma {:induction false} Log2Shr(s: nat, j: nat)
    requires Shr(s, j) > 0
    ensures s > 0 && Log2(Shr(s, j)) == Log2(s) - j
    decreases j
  {
    if j > 0 { Log2Shr(s / 2, j - 1); }
  }

  /** The leading two bits of `s`. */
  lemma Leading(s: nat)
    requires MIN_LARGE <= s < WORD
    ensures 8 <= Log2(s) <= 31 && Pow2(Log2(s)) == 2 * Pow2(Log2(s) - 1)
    ensures Shr(s, Log2(s) - 1) == 2 <==> s < 3 * Pow2(Log2(s) - 1)
    ensures Shr(s, Log2(s) - 1) == 3 <==> s >= 3 * Pow2(Log2(s) - 1)
  {
    Log2Spec(s);
    Log2Bound(s);
    var k := Log2(s);
    if k < 8 { assert Pow2(8) == 256; Pow2Mono(k + 1, 8); }
    var p := Pow2(k - 1);
    assert Pow2(k) == 2 * p && Pow2(k + 1) == 4 * p;
    if s < 3 * p { ShrRange(s, k - 1, 2, 3); } else { ShrRange(s, k - 1, 3, 4); }
  }

  /** Of the leading two bits, the second is set or not. */
  lemma LeadingTwo(s: nat, j: nat)
    ensures (Shr(s, j) == 2 ==> Shr(s, j) % 2 == 0) && (Shr(s, j) == 3 ==> Shr(s, j) % 2 == 1)
  {
  }

  lemma IndexForm(s: nat)
    requires MIN_LARGE <= s < WORD
    ensures 8 <= Log2(s) <= 31
    ensures Log2(s) < 24 ==> Index(s) == 2 * (Log2(s) - 8) + (if s < 3 * Pow2(Log2(s) - 1) then 0 else 1)
    ensures Log2(s) >= 24 ==> Index(s) == 31
  {
    hide Shr, Log2, Pow2;
    Leading(s);
    ShiftedBy8(s);
    LeadingTwo(s, Log2(s) - 1);
  }

  lemma ShiftedBy8(s: nat)
    requires MIN_LARGE <= s < WORD
    ensures Shr(s, 8) > 0 && Log2(Shr(s, 8)) == Log2(s) - 8
    ensures Shr(s, 8) > 0xFFFF <==> Log2(s) >= 24
  {
    assert Pow2(8) == 256;
    ShrRange(s, 8, 1, s + 1);
    Log2Shr(s, 8);
    var x := Shr(s, 8);
    assert Pow2(16) == 65536 by { Pow2Add(8, 8); }
    Log2Spec(x);
    if x > 0xFFFF && Log2(x) < 16 { Pow2Mono(Log2(x) + 1, 16); }
    if x <= 0xFFFF && Log2(x) >= 16 { Pow2Mono(16, Log2(x)); }
  }

  lemma MinSizeForm(i: nat)
    requires i < NTREEBINS
    ensures MinSize(i) == (if i % 2 == 0 then 2 * Pow2(i / 2 + 7) else 3 * Pow2(i / 2 + 7))
    ensures i < NTREEBINS - 1 ==> EndSize(i) == MinSize(i) + Pow2(i / 2 + 7)
  {
  }

  lemma {:induction false} MinMono(i: nat, j: nat)
    requires i < j < NTREEBINS
    ensures EndSize(i) <= MinSize(j)
    decreases j
  {
    if i < j - 1 { MinMono(i, j - 1); MinSizeForm(j - 1); }
  }

  /** A size belongs to the bin whose documented range it is in: `do_check_tree`'s asserts. */
  lemma IndexRange(s: nat)
    requires MIN_LARGE <= s < WORD
    ensures 0 <= Index(s) < NTREEBINS && MinSize(Index(s)) <= s < EndSize(Index(s))
  {
    IndexForm(s);
    Log2Spec(s);
    Leading(s);
    var k, i := Log2(s), Index(s);
    if k >= 24 {
      TopBin();
      Pow2Mono(24, k);
    } else {
      assert i / 2 == k - 8;
      MinSizeForm(i);
    }
  }

  lemma TopBin()
    ensures MinSize(31) == 0xC0_0000 && Pow2(24) == 0x100_0000
  {
    assert Pow2(8) == 256;
    assert Pow2(16) == 65536 by { Pow2Add(8, 8); }
    Pow2Add(8, 16);
    assert Pow2(24) == 2 * Pow2(23) && Pow2(23) == 2 * Pow2(22);
  }

  /** ... and to no other. */
  lemma IndexExact(s: nat, i: nat)
    requires MIN_LARGE <= s < WORD && i < NTREEBINS && MinSize(i) <= s < EndSize(i)
    ensures Index(s) == i
  {
    IndexRange(s);
    var j := Index(s);
    if i < j { MinMono(i, j); }
    if j < i { MinMono(j, i); }
  }

  lemma IndexMono(s: nat, t: nat)
    requires MIN_LARGE <= s <= t < WORD
    ensures Index(s) <= Index(t)
  {
    IndexRange(s);
    IndexRange(t);
    if Index(t) < Index(s) { MinMono(Index(t), Index(s)); }
  }
}
