/** Where dlmalloc keeps a free chunk: in a small bin, or at a place of the trie of a tree bin.

    A trie place is reached from the root of its bin by following one bit of the chunk's size per
    level; the sizes below a place are an interval of a power of two. */
module Places {
  import opened Bits
  import opened Buckets
  import opened TreeIndex

  datatype Place = Small(slot: int) | Apex(bin: int) | Sub(up: Place, right: bool)

  /** The sizes below `q` are the `2^Log(q)` sizes from `Lo(q)` on. */
  function Log(q: Place): int {
    match q
    case Small(_) => 0
    case Apex(i) => if i == NTREEBINS - 1 then 32 else i / 2 + 7
    case Sub(u, _) => Log(u) - 1
  }

  ghost predicate ValidPlace(q: Place)
    ensures ValidPlace(q) ==> !q.Small? && 0 <= Log(q) <= 32 && (q.Sub? ==> !q.up.Small?)
  {
    match q
    case Small(_) => false
    case Apex(i) => 0 <= i < NTREEBINS
    case Sub(u, _) => ValidPlace(u) && 0 < Log(u)
  }

  function Width(q: Place): nat {
    if Log(q) < 0 then 0 else Pow2(Log(q))
  }

  function Lo(q: Place): int {
    match q
    case Small(_) => 0
    case Apex(i) => if i == NTREEBINS - 1 || i < 0 then 0 else MinSize(i)
    case Sub(u, b) => if b then Lo(u) + Width(q) else Lo(u)
  }

  function Hi(q: Place): int { Lo(q) + Width(q) }

  function Bin(q: Place): int {
    match q
    case Small(i) => i
    case Apex(i) => i
    case Sub(u, _) => Bin(u)
  }

  ghost predicate Under(p: Place, q: Place) {
    p == q || (p.Sub? && Under(p.up, q))
  }

  // ----- the descent by size bits

  /** The bits of `s` that are still to be followed below `q`, moved to the top of the word. */
  function Key(q: Place, s: int): int
    requires Log(q) <= 32
  {
    (s - Lo(q)) * Pow2(32 - Log(q))
  }

  /** `k >> 31 & 1` */
  predicate TopBit(k: nat) { Bit(k, 31) }

  /** A descent starts with the size shifted so that its first undecided bit is the top bit ... */
  lemma KeyRoot(s: nat)
    requires MIN_LARGE <= s < WORD
    ensures ValidPlace(Apex(Index(s))) && Lo(Apex(Index(s))) <= s < Hi(Apex(Index(s)))
    ensures Shl(s, LeftShift(Index(s))) == Key(Apex(Index(s)), s)
  {
    hide Index;
    IndexRange(s);
    var i := Index(s);
    if i == 31 { KeyLast(s); } else { KeyBin(s, i); }
  }

  lemma KeyLast(s: nat)
    requires s < WORD
    ensures Lo(Apex(31)) <= s < Hi(Apex(31)) && Shl(s, LeftShift(31)) == Key(Apex(31), s)
  {
    Pow2Table();
    assert Pow2(0) == 1;
  }

  lemma KeyBin(s: nat, i: nat)
    requires i < 31 && MinSize(i) <= s < EndSize(i)
    ensures Lo(Apex(i)) <= s < Hi(Apex(i)) && Shl(s, LeftShift(i)) == Key(Apex(i), s)
  {
    hide Pow2, MinSize, EndSize;
    MinSizeForm(i);
    ShiftOut(s - MinSize(i), if i % 2 == 0 then 2 else 3, i / 2 + 7);
  }

  lemma ShiftOut(d: nat, c: nat, k: nat)
    requires k <= 32 && d < Pow2(k)
    ensures (c * Pow2(k) + d) * Pow2(32 - k) % WORD == d * Pow2(32 - k)
  {
    hide Pow2;
    Pow2Table();
    Pow2Add(k, 32 - k);
    ShiftMul(d, c, Pow2(k), Pow2(32 - k));
  }

  lemma ShiftMul(d: nat, c: nat, p: nat, r: nat)
    requires p * r == WORD && d < p && r >= 1
    ensures (c * p + d) * r % WORD == d * r
  {
    Distribute(d, c, p, r);
    LessMul(d, p, r);
    ModWord(c, d * r);
  }

  lemma Distribute(d: nat, c: nat, p: nat, r: nat)
    ensures (c * p + d) * r == c * (p * r) + d * r
  {
  }

  lemma LessMul(d: nat, p: nat, r: nat)
    requires d < p && r >= 1
    ensures 0 <= d * r < p * r
  {
  }

  lemma ModWord(c: nat, x: nat)
    requires x < WORD
    ensures (c * WORD + x) % WORD == x
  {
  }

  /** ... and each step follows the top bit and shifts it out. */
  lemma KeyStep(q: Place, s: int)
    requires ValidPlace(q) && 0 < Log(q) && Lo(q) <= s < Hi(q)
    ensures 0 <= Key(q, s) < WORD
    ensures TopBit(Key(q, s)) <==> s >= Lo(Sub(q, true))
    ensures var c := Sub(q, TopBit(Key(q, s))); ValidPlace(c) && Lo(c) <= s < Hi(c) && Shl(Key(q, s), 1) == Key(c, s)
  {
    hide Pow2, TopBit, ValidPlace, Lo, Log, Key;
    var k, d := Log(q), s - Lo(q);
    SubForm(q);
    KeyBounds(k, d);
    TopBitHalf(d * Pow2(32 - k));
    KeyForm(q, s);
    KeyShift(d, Pow2(k - 1), Pow2(32 - k));
    KeyChild(q, s, d >= Pow2(k - 1));
    ShlOne(Key(q, s));
  }

  lemma KeyForm(q: Place, s: int)
    requires Log(q) <= 32
    ensures Key(q, s) == (s - Lo(q)) * Pow2(32 - Log(q))
  {
  }

  lemma ShlOne(k: nat)
    ensures Shl(k, 1) == k * 2 % WORD
  {
    assert Pow2(1) == 2;
  }

  lemma SubForm(q: Place)
    requires ValidPlace(q) && 0 < Log(q)
    ensures ValidPlace(Sub(q, false)) && ValidPlace(Sub(q, true))
    ensures Hi(q) == Lo(q) + 2 * Pow2(Log(q) - 1)
    ensures Lo(Sub(q, false)) == Lo(q) && Lo(Sub(q, true)) == Lo(q) + Pow2(Log(q) - 1)
    ensures Hi(Sub(q, false)) == Lo(q) + Pow2(Log(q) - 1) && Hi(Sub(q, true)) == Hi(q)
  {
    hide Pow2, Lo, Log, ValidPlace;
    Halving(Log(q));
    SubUnfold(q, false);
    SubUnfold(q, true);
  }

  lemma SubUnfold(q: Place, b: bool)
    ensures Log(Sub(q, b)) == Log(q) - 1 && Lo(Sub(q, b)) == if b then Lo(q) + Width(Sub(q, b)) else Lo(q)
    ensures ValidPlace(Sub(q, b)) <==> ValidPlace(q) && 0 < Log(q)
  {
    hide Pow2, MinSize;
  }

  lemma KeyChild(q: Place, s: int, b: bool)
    requires ValidPlace(q) && 0 < Log(q)
    ensures Log(Sub(q, b)) <= 32
    ensures Key(Sub(q, b), s) ==
      if b then (s - Lo(q) - Pow2(Log(q) - 1)) * (2 * Pow2(32 - Log(q))) else (s - Lo(q)) * (2 * Pow2(32 - Log(q)))
  {
    hide Pow2, ValidPlace, Lo;
    SubForm(q);
    Halving(Log(q));
  }

  lemma Halving(k: nat)
    requires 0 < k <= 32
    ensures Pow2(k) == 2 * Pow2(k - 1) && Pow2(32 - (k - 1)) == 2 * Pow2(32 - k) && Pow2(1) == 2
  {
  }

  lemma TopBitHalf(k: nat)
    requires k < WORD
    ensures TopBit(k) <==> k >= HALF
  {
    Pow2Table();
    assert Pow2(32) == 2 * Pow2(31);
    if k >= HALF { ShrRange(k, 31, 1, 2); } else { ShrRange(k, 31, 0, 1); }
  }

  lemma KeyBounds(k: nat, d: nat)
    requires 0 < k <= 32 && d < 2 * Pow2(k - 1)
    ensures 0 <= d * Pow2(32 - k) < WORD && Pow2(k - 1) * Pow2(32 - k) == HALF
    ensures d * Pow2(32 - k) >= HALF <==> d >= Pow2(k - 1)
  {
    hide Pow2;
    Half31();
    Pow2Add(k - 1, 32 - k);
    HalfBounds(d, Pow2(k - 1), Pow2(32 - k));
  }

  lemma Half31()
    ensures Pow2(31) == HALF
  {
    Pow2Table();
    assert Pow2(32) == 2 * Pow2(31);
  }

  lemma HalfBounds(d: nat, p: nat, r: nat)
    requires d < 2 * p && p * r == HALF && r >= 1
    ensures 0 <= d * r < WORD
    ensures d * r >= HALF <==> d >= p
  {
    LessMul(d, 2 * p, r);
    Distribute(0, 2, p, r);
    if d >= p { MulMono(p, d, r); } else { LessMul(d, p, r); }
  }

  lemma KeyShift(d: nat, p: nat, r: nat)
    requires p * r == HALF && 0 <= d * r < WORD && (d * r >= HALF <==> d >= p)
    ensures (d * r) * 2 % WORD == (if d >= p then (d - p) * (2 * r) else d * (2 * r))
  {
    Twice(d, r);
    if d >= p {
      Twice(d - p, r);
      Less(d, p, r);
      ModWord(1, 2 * (d * r) - WORD);
    }
  }

  lemma Twice(d: nat, r: nat)
    ensures (d * r) * 2 == d * (2 * r)
  {
  }

  lemma Less(d: nat, p: nat, r: nat)
    requires d >= p
    ensures (d - p) * r == d * r - p * r
  {
  }

  // ----- intervals

  lemma {:induction false} UnderRange(p: Place, q: Place)
    requires ValidPlace(p) && Under(p, q)
    ensures ValidPlace(q) && Lo(q) <= Lo(p) && Hi(p) <= Hi(q) && Bin(p) == Bin(q)
  {
    if p != q {
      SubForm(p.up);
      UnderRange(p.up, q);
    }
  }

  /** What lies below `q` is `q` itself or below one of its children. */
  lemma {:induction false} UnderSplit(p: Place, q: Place)
    requires Under(p, q) && p != q
    ensures Under(p, Sub(q, false)) || Under(p, Sub(q, true))
  {
    if p.up != q { UnderSplit(p.up, q); }
  }

  lemma {:induction false} UnderRoot(p: Place)
    requires ValidPlace(p)
    ensures Under(p, Apex(Bin(p)))
  {
    if p.Sub? { UnderRoot(p.up); }
  }

  lemma {:induction false} UnderTrans(p: Place, q: Place, r: Place)
    requires Under(p, q) && Under(q, r)
    ensures Under(p, r)
  {
    if p != q { UnderTrans(p.up, q, r); }
  }
}
