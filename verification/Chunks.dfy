/** dlmalloc's chunks, and the rings that link free ones of one size. */
module Chunks {

  /** What is stored at a chunk: its head and the preceding foot, and the fields of a free chunk. */
  datatype Chunk = Chunk(prevFoot: int, size: int, cinuse: bool, pinuse: bool,
                         fd: int, bk: int, left: int, right: int, parent: int, index: int)
  type Chunks = map<int, Chunk>

  const BLANK: Chunk := Chunk(0, 0, false, false, 0, 0, 0, 0, 0, 0)

  function At(c: Chunks, a: int): Chunk { if a in c then c[a] else BLANK }

  /** The list heads in the allocator's state, as addresses below every chunk. */
  function SmallBin(i: int): int { -1 - i }
  function TreeBin(i: int): int { -100 - i }

  ghost predicate Linked(c: Chunks, x: int, y: int) { At(c, x).fd == y && At(c, y).bk == x }

  /** The nodes met on the way round a ring, from its head back to its head. */
  ghost predicate Ring(c: Chunks, f: seq<int>) {
    && |f| >= 2 && f[0] == f[|f| - 1]
    && (forall j, k :: 0 <= j && k == j + 1 && k < |f| ==> Linked(c, f[j], f[k]))
    && (forall j, k :: 0 <= j < k < |f| && (0 < j || k < |f| - 1) ==> f[j] != f[k])
  }

  function With(f: seq<int>, x: int): seq<int>
    requires |f| >= 2
  {
    [f[0], x] + f[1..]
  }

  function Without(f: seq<int>, p: int): seq<int>
    requires 0 <= p < |f|
  {
    f[..p] + f[p + 1..]
  }

  /** The ring without its head, which the last node replaces. */
  function Beheaded(f: seq<int>): seq<int>
    requires |f| >= 3
  {
    [f[|f| - 2]] + f[1..|f| - 1]
  }

  /** Puts `x` between `t` and its successor. */
  function LinkAfter(c: Chunks, t: int, x: int): Chunks {
    var f := At(c, t).fd;
    var c1 := c[t := At(c, t).(fd := x)];
    var c2 := c1[f := At(c1, f).(bk := x)];
    c2[x := At(c2, x).(fd := f, bk := t)]
  }

  /** Takes `x` out of its ring. */
  function Unlinked(c: Chunks, x: int): Chunks {
    var f, r := At(c, x).fd, At(c, x).bk;
    var c1 := c[f := At(c, f).(bk := r)];
    c1[r := At(c1, r).(fd := f)]
  }

  /** Only link fields differ, and only at `at`. */
  ghost predicate LinksOnly(c: Chunks, c': Chunks, at: set<int>) {
    && (forall a :: At(c', a) == At(c, a).(fd := At(c', a).fd, bk := At(c', a).bk))
    && (forall a :: a !in at ==> At(c', a) == At(c, a))
  }

  lemma RingAdd(c: Chunks, f: seq<int>, x: int)
    requires Ring(c, f) && x !in f
    ensures Ring(LinkAfter(c, f[0], x), With(f, x))
    ensures LinksOnly(c, LinkAfter(c, f[0], x), {f[0], f[1], x})
  {
    var c', g := LinkAfter(c, f[0], x), With(f, x);
    assert Linked(c, f[0], f[1]);
    forall j, k | 0 <= j && k == j + 1 && k < |g|
      ensures Linked(c', g[j], g[k])
    {
      if j >= 2 {
        assert g[j] == f[j - 1] && g[k] == f[k - 1];
        assert Linked(c, f[j - 1], f[k - 1]) && f[j - 1] != f[0] && f[k - 1] != f[1];
      }
    }
    forall j, k | 0 <= j < k < |g| && (0 < j || k < |g| - 1)
      ensures g[j] != g[k]
    {
      assert g[j] == (if j == 0 then f[0] else if j == 1 then x else f[j - 1]);
      assert g[k] == (if k == 1 then x else f[k - 1]);
    }
  }

  lemma RingDrop(c: Chunks, f: seq<int>, p: int)
    requires Ring(c, f) && 0 < p < |f| - 1
    ensures Ring(Unlinked(c, f[p]), Without(f, p))
    ensures LinksOnly(c, Unlinked(c, f[p]), {f[p - 1], f[p + 1]})
  {
    var c', g := Unlinked(c, f[p]), Without(f, p);
    assert Linked(c, f[p - 1], f[p]) && Linked(c, f[p], f[p + 1]);
    forall j, k | 0 <= j && k == j + 1 && k < |g|
      ensures Linked(c', g[j], g[k])
    {
      var j', k' := if j < p then j else j + 1, if k < p then k else k + 1;
      assert g[j] == f[j'] && g[k] == f[k'];
      if k < p || j >= p {
        assert Linked(c, f[j'], f[k']);
        assert f[j'] != f[p - 1] && f[k'] != f[p + 1];
      }
    }
  }

  lemma RingBehead(c: Chunks, f: seq<int>)
    requires Ring(c, f) && |f| >= 3
    ensures Ring(Unlinked(c, f[0]), Beheaded(f))
    ensures LinksOnly(c, Unlinked(c, f[0]), {f[1], f[|f| - 2]})
  {
    var c', g, n := Unlinked(c, f[0]), Beheaded(f), |f|;
    assert Linked(c, f[0], f[1]) && Linked(c, f[n - 2], f[n - 1]);
    forall j, k | 0 <= j && k == j + 1 && k < |g|
      ensures Linked(c', g[j], g[k])
    {
      assert g[k] == f[k];
      if j > 0 {
        assert g[j] == f[j] && Linked(c, f[j], f[k]);
        assert f[j] != f[n - 2] && f[k] != f[1];
      }
    }
  }

  lemma RingFrame(c: Chunks, c': Chunks, f: seq<int>)
    requires Ring(c, f)
    requires forall k :: 0 <= k < |f| ==> At(c', f[k]).fd == At(c, f[k]).fd && At(c', f[k]).bk == At(c, f[k]).bk
    ensures Ring(c', f)
  {
    forall j, k | 0 <= j && k == j + 1 && k < |f|
      ensures Linked(c', f[j], f[k])
    {
      assert Linked(c, f[j], f[k]);
    }
  }

  /** A node alone in its ring is the head of no other. */
  lemma RingEnds(c: Chunks, f: seq<int>, p: int)
    requires Ring(c, f) && 0 <= p < |f| - 1
    ensures At(c, f[p]).fd == f[p + 1] && At(c, f[p]).bk == (if p == 0 then f[|f| - 2] else f[p - 1])
    ensures At(c, f[p]).bk == f[p] <==> |f| == 2
  {
    assert Linked(c, f[p], f[p + 1]);
    if p == 0 { assert Linked(c, f[|f| - 2], f[|f| - 1]); } else { assert Linked(c, f[p - 1], f[p]); }
  }
}
