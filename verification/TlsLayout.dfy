/** Where the thread-local storage of each library of a program goes: the computation of the size of
    the whole block, and the later computation of the place of each library's part in it. */
module TlsLayout {
  import opened Bits

  /** A library's block of thread-local storage; libraries without any have size 0. */
  datatype Library = Library(size: nat, align: nat)

  const PTR_SIZE: nat := 4

  ghost predicate Legal(libs: seq<Library>) {
    forall i :: 0 <= i < |libs| && libs[i].size > 0 ==> PowerOf2(libs[i].align) && 0 < libs[i].align < WORD
  }

  /** The offset after the pointer array and the blocks of the first `k` libraries. */
  ghost function Offset(libs: seq<Library>, k: nat): nat
    requires Legal(libs) && k <= |libs|
  {
    if k == 0 then |libs| * PTR_SIZE
    else if libs[k - 1].size == 0 then Offset(libs, k - 1)
    else AlignUp(Offset(libs, k - 1), libs[k - 1].align) + libs[k - 1].size
  }

  ghost function MaxAlign(libs: seq<Library>, k: nat): nat
    requires k <= |libs|
  {
    if k == 0 then PTR_SIZE
    else if libs[k - 1].size > 0 && libs[k - 1].align > MaxAlign(libs, k - 1) then libs[k - 1].align
    else MaxAlign(libs, k - 1)
  }

  /** `__wasilibc_tls_size` for a program of several libraries: the size that it reports is right
      exactly if the real one is below 2^32. */
  method Size(libs: seq<Library>) returns (size: nat, align: nat)
    requires Legal(libs)
    ensures align == MaxAlign(libs, |libs|) && align > 0
    ensures align == PTR_SIZE || exists i :: 0 <= i < |libs| && libs[i].size > 0 && libs[i].align == align
    ensures PTR_SIZE <= align && forall i :: 0 <= i < |libs| && libs[i].size > 0 ==> libs[i].align <= align
    ensures size == AlignUp(Offset(libs, |libs|), align) <==> AlignUp(Offset(libs, |libs|), align) < WORD
  {
    hide AlignUp, AlignUp32, PowerOf2;
    size := |libs| * PTR_SIZE % WORD;
    align := PTR_SIZE;
    for i := 0 to |libs|
      invariant size == Offset(libs, i) % WORD && align == MaxAlign(libs, i) && 0 < align < WORD
    {
      if libs[i].size == 0 { continue; }
      WrapStep(Offset(libs, i), libs[i].align, libs[i].size);
      size := (AlignUp32(size, libs[i].align) + libs[i].size) % WORD;
      if libs[i].align > align { align := libs[i].align; }
    }
    MaxAlignPower(libs, |libs|);
    WrapAlign(Offset(libs, |libs|), align);
    size := AlignUp32(size, align);
  }

  /** What the libraries need, and what aligning them may cost, without the pointer array. */
  ghost function Needed(libs: seq<Library>, k: nat, padded: bool): nat
    requires Legal(libs) && k <= |libs|
  {
    if k == 0 then 0
    else
      var l := libs[k - 1];
      Needed(libs, k - 1, padded) + (if l.size > 0 && padded then l.size + l.align - 1 else l.size)
  }

  /** Nothing is wasted but the padding in front of each block. */
  lemma {:induction false} OffsetTight(libs: seq<Library>, k: nat)
    requires Legal(libs) && k <= |libs|
    ensures |libs| * PTR_SIZE + Needed(libs, k, false) <= Offset(libs, k) <= |libs| * PTR_SIZE + Needed(libs, k, true)
  {
    hide AlignUp;
    if k > 0 { OffsetTight(libs, k - 1); }
  }

  // ----- 32-bit sums

  /** As alignments divide 2^32, aligning a wrapped sum gives the wrapped aligned sum. */
  lemma WrapAlign(x: nat, a: nat)
    requires PowerOf2(a) && 0 < a < WORD
    ensures AlignUp32(x % WORD, a) == AlignUp(x, a) % WORD
  {
    hide AlignUp, PowerOf2;
    var q, r := x / WORD, x % WORD;
    MultipleOf(q, a);
    AlignShift(q * WORD, r, a);
    Wrap(q, AlignUp(r, a));
  }

  lemma MultipleOf(q: nat, a: nat)
    requires PowerOf2(a) && 0 < a < WORD
    ensures q * WORD % a == 0
  {
    hide PowerOf2;
    WordPower();
    Divides(a, WORD);
    DividesTrans(q * WORD, a, WORD);
  }

  lemma Wrap(q: nat, y: nat)
    ensures (q * WORD + y) % WORD == y % WORD
  {
  }

  lemma WrapStep(x: nat, a: nat, n: nat)
    requires PowerOf2(a) && 0 < a < WORD
    ensures AlignUp32(x % WORD, a) == AlignUp(x, a) % WORD
    ensures (AlignUp32(x % WORD, a) + n) % WORD == (AlignUp(x, a) + n) % WORD
  {
    hide AlignUp, AlignUp32, PowerOf2;
    WrapAlign(x, a);
  }

  lemma WordPower()
    ensures PowerOf2(WORD)
  {
    assert PowerOf2(0x100) && PowerOf2(0x1_0000);
    assert PowerOf2(0x100_0000);
  }

  // ----- alignments

  lemma ModAdd(q: int, a: nat, x: nat)
    requires a > 0 && q >= 0
    ensures (q * a + x) % a == x % a
  {
    var d, r := x / a, x % a;
    assert q * a + x == (q + d) * a + r by { Factor(q, d, a); }
    ModOf(q + d, a, r);
  }

  lemma Factor(q: int, d: int, a: nat)
    ensures (q + d) * a == q * a + d * a
  {
  }

  lemma ModOf(n: int, a: nat, r: nat)
    requires 0 <= r < a && n >= 0
    ensures (n * a + r) % a == r
  {
    var y := n * a + r;
    assert y == (y / a) * a + y % a;
    Factor(n, -(y / a), a);
    Unique(n - y / a, a, r, y % a);
  }

  lemma Unique(k: int, a: nat, r: nat, s: nat)
    requires 0 <= r < a && 0 <= s < a && k * a == s - r
    ensures s == r
  {
  }

  /** A base that is a multiple of `a` does not change what alignment to `a` adds. */
  lemma AlignShift(base: nat, x: nat, a: nat)
    requires a > 0 && base % a == 0
    ensures AlignUp(base + x, a) == base + AlignUp(x, a)
  {
    assert base == (base / a) * a;
    ModAdd(base / a, a, x);
  }

  /** Of two powers of two, the smaller one divides the larger one. */
  lemma {:induction false} Divides(a: nat, b: nat)
    requires PowerOf2(a) && PowerOf2(b) && 0 < a <= b
    ensures b % a == 0
    decreases a
  {
    if a > 1 {
      Divides(a / 2, b / 2);
      var h, q := a / 2, (b / 2) / (a / 2);
      assert b / 2 == q * h;
      assert b == q * a;
      MulMod(q, a);
    }
  }

  lemma DividesTrans(base: nat, a: nat, b: nat)
    requires a > 0 && b > 0 && base % b == 0 && b % a == 0
    ensures base % a == 0
  {
    var q, r := base / b, b / a;
    assert base == q * b && b == r * a;
    assert base == (q * r) * a;
    MulMod(q * r, a);
  }

  lemma {:induction false} MaxAlignPower(libs: seq<Library>, k: nat)
    requires Legal(libs) && k <= |libs|
    ensures PowerOf2(MaxAlign(libs, k)) && PTR_SIZE <= MaxAlign(libs, k) < WORD
    ensures forall i :: 0 <= i < k && libs[i].size > 0 ==> libs[i].align <= MaxAlign(libs, k)
    ensures var m := MaxAlign(libs, k);
      m == PTR_SIZE || exists i :: 0 <= i < k && libs[i].size > 0 && libs[i].align == m
  {
    if k > 0 { MaxAlignPower(libs, k - 1); } else { assert PowerOf2(1) && PowerOf2(2); }
  }

  lemma BaseAligned(libs: seq<Library>, base: nat, i: nat)
    requires Legal(libs) && i < |libs| && libs[i].size > 0 && MaxAlign(libs, |libs|) > 0 &&
      base % MaxAlign(libs, |libs|) == 0
    ensures base % libs[i].align == 0
  {
    MaxAlignPower(libs, |libs|);
    Divides(libs[i].align, MaxAlign(libs, |libs|));
    DividesTrans(base, libs[i].align, MaxAlign(libs, |libs|));
  }

  // ----- placing the blocks

  /** Where `__wasilibc_tls_init` puts the block of library `i`. */
  ghost function Block(libs: seq<Library>, layout: nat, i: nat): nat
    requires Legal(libs) && i < |libs| && libs[i].size > 0
  {
    layout + AlignUp(Offset(libs, i), libs[i].align)
  }

  lemma NextBlock(libs: seq<Library>, layout: nat, i: nat)
    requires Legal(libs) && i < |libs| && libs[i].size > 0 && MaxAlign(libs, |libs|) > 0 &&
      layout % MaxAlign(libs, |libs|) == 0
    ensures AlignUp(layout + Offset(libs, i), libs[i].align) == Block(libs, layout, i)
    ensures Block(libs, layout, i) + libs[i].size == layout + Offset(libs, i + 1)
  {
    BaseAligned(libs, layout, i);
    AlignShift(layout, Offset(libs, i), libs[i].align);
  }

  /** `__wasilibc_tls_init`: the bases that the libraries are initialized with; 0 for a library that has
      no block.  Addresses are 32 bits wide. */
  method Init(libs: seq<Library>, layout: nat) returns (bases: seq<nat>)
    requires Legal(libs) && MaxAlign(libs, |libs|) > 0 && layout % MaxAlign(libs, |libs|) == 0
    ensures |bases| == |libs| && forall i :: 0 <= i < |libs| && libs[i].size > 0 ==>
      bases[i] == Block(libs, layout, i) % WORD
  {
    hide AlignUp, AlignUp32, Block, PowerOf2, MaxAlign;
    bases := [];
    var next := (layout + |libs| * PTR_SIZE) % WORD;
    for i := 0 to |libs|
      invariant |bases| == i && next == (layout + Offset(libs, i)) % WORD
      invariant forall j :: 0 <= j < i && libs[j].size > 0 ==> bases[j] == Block(libs, layout, j) % WORD
    {
      if libs[i].size == 0 {
        bases := bases + [0];
        continue;
      }
      NextBlock(libs, layout, i);
      WrapStep(layout + Offset(libs, i), libs[i].align, libs[i].size);
      next := AlignUp32(next, libs[i].align);
      bases := bases + [next];
      next := (next + libs[i].size) % WORD;
    }
  }

  lemma {:induction false} OffsetMono(libs: seq<Library>, i: nat, j: nat)
    requires Legal(libs) && i <= j <= |libs|
    ensures Offset(libs, i) <= Offset(libs, j)
    decreases j
  {
    if i < j { OffsetMono(libs, i, j - 1); }
  }

  /** Every block is aligned, starts after the pointer array and ends within the reported size ... */
  lemma BlockInside(libs: seq<Library>, layout: nat, i: nat)
    requires Legal(libs) && i < |libs| && libs[i].size > 0 && MaxAlign(libs, |libs|) > 0 &&
      layout % MaxAlign(libs, |libs|) == 0
    ensures Block(libs, layout, i) % libs[i].align == 0
    ensures layout + |libs| * PTR_SIZE <= Block(libs, layout, i)
    ensures Block(libs, layout, i) + libs[i].size <= layout + AlignUp(Offset(libs, |libs|), MaxAlign(libs, |libs|))
  {
    hide AlignUp, MaxAlign, PowerOf2;
    OffsetMono(libs, 0, i);
    OffsetMono(libs, i + 1, |libs|);
    BaseAligned(libs, layout, i);
    AlignShift(layout, Offset(libs, i), libs[i].align);
    AlignUpMultiple(layout + Offset(libs, i), libs[i].align);
  }

  /** ... and no two blocks overlap. */
  lemma BlocksApart(libs: seq<Library>, layout: nat, i: nat, j: nat)
    requires Legal(libs) && i < j < |libs| && libs[i].size > 0 && libs[j].size > 0
    ensures Block(libs, layout, i) + libs[i].size <= Block(libs, layout, j)
  {
    OffsetMono(libs, i + 1, j);
  }

  /** The two computations agree: a block with the reported size and alignment, somewhere in the
      address space, has room for everything. */
  method SizeThenInit(libs: seq<Library>, layout: nat) returns (size: nat, align: nat, bases: seq<nat>)
    requires Legal(libs) && MaxAlign(libs, |libs|) > 0 && layout % MaxAlign(libs, |libs|) == 0
    requires var total := AlignUp(Offset(libs, |libs|), MaxAlign(libs, |libs|)); total < WORD && layout + total <= WORD
    ensures align == MaxAlign(libs, |libs|) && |bases| == |libs|
    ensures forall i :: 0 <= i < |libs| && libs[i].size > 0 ==>
      && bases[i] % libs[i].align == 0 && layout + |libs| * PTR_SIZE <= bases[i]
      && bases[i] + libs[i].size <= layout + size
    ensures forall i, j :: 0 <= i < j < |libs| && libs[i].size > 0 && libs[j].size > 0 ==>
      bases[i] + libs[i].size <= bases[j]
  {
    hide AlignUp, Block, PowerOf2, MaxAlign, Offset;
    size, align := Size(libs);
    bases := Init(libs, layout);
    forall i | 0 <= i < |libs| && libs[i].size > 0
      ensures bases[i] == Block(libs, layout, i) && bases[i] % libs[i].align == 0
      ensures layout + |libs| * PTR_SIZE <= bases[i] && bases[i] + libs[i].size <= layout + size
    {
      BlockInside(libs, layout, i);
    }
    forall i, j | 0 <= i < j < |libs| && libs[i].size > 0 && libs[j].size > 0
      ensures bases[i] + libs[i].size <= bases[j]
    {
      BlocksApart(libs, layout, i, j);
    }
  }
}
