/** emmalloc's 64 circular doubly linked free lists, as words of linear memory.

    A node at address `a` keeps its `prev` pointer in the word at `a + 4` and its `next` pointer in
    the word at `a + 8`.  Each list hangs off a static sentinel node.  A ring is the sequence of
    node addresses met on the way from the sentinel back to the sentinel, both ends included. */
module FreeLists {

  /** The words of linear memory by byte address; only multiples of four are ever used. */
  type Memory = seq<int>

  const NUM_RINGS: int := 64
  const NODE_SIZE: int := 16

  function Sentinel(buckets: int, i: int): int { buckets + NODE_SIZE * i }

  ghost predicate Linked(mem: Memory, x: int, y: int) {
    0 <= x && 0 <= y && x + 8 < |mem| && y + 4 < |mem| && mem[x + 8] == y && mem[y + 4] == x
  }

  /** Neighbours in `f` point at each other, and only the two ends of `f` are the same node. */
  ghost predicate Ring(mem: Memory, f: seq<int>) {
    && (forall j, k :: 0 <= j && k == j + 1 && k < |f| ==> Linked(mem, f[j], f[k]))
    && (forall j, k :: 0 <= j < k < |f| && (0 < j || k < |f| - 1) ==> f[j] != f[k])
  }

  ghost predicate RingAt(mem: Memory, s: int, f: seq<int>) {
    |f| >= 2 && f[0] == s && f[|f| - 1] == s && Ring(mem, f)
  }

  /** `free` maps every listed node to the number of its list; nodes and sentinels do not overlap. */
  ghost predicate Spaced(buckets: int, free: map<int, int>, top: int) {
    && 0 < buckets && buckets + NODE_SIZE * NUM_RINGS <= top
    && (forall a :: a in free ==>
      && buckets + NODE_SIZE * NUM_RINGS <= a && a + NODE_SIZE <= top
      && 0 <= free[a] < NUM_RINGS)
    && (forall a, b :: a in free && b in free && a < b ==> a + NODE_SIZE <= b)
  }

  /** The rings hold exactly the nodes of `free`, each in its own list. */
  ghost predicate Rings(mem: Memory, buckets: int, free: map<int, int>, rings: seq<seq<int>>) {
    && Spaced(buckets, free, |mem|)
    && |rings| == NUM_RINGS
    && (forall i :: 0 <= i < NUM_RINGS ==> RingAt(mem, Sentinel(buckets, i), rings[i]))
    && (forall i, k :: 0 <= i < NUM_RINGS && 0 < k < |rings[i]| - 1 ==> rings[i][k] in free && free[rings[i][k]] == i)
    && (forall a :: a in free ==> a in rings[free[a]])
  }

  /** Only link words of `free`'s nodes and of the sentinels differ. */
  ghost predicate LinksOnly(mem: Memory, mem': Memory, buckets: int, free: map<int, int>) {
    && |mem'| == |mem|
    && (forall w :: 0 <= w < |mem| && mem'[w] != mem[w] ==>
          w - 4 in free || w - 8 in free || buckets <= w < buckets + NODE_SIZE * NUM_RINGS)
  }

  function Without(f: seq<int>, p: int): seq<int>
    requires 0 <= p < |f|
  {
    f[..p] + f[p + 1..]
  }

  function With(f: seq<int>, p: int, a: int): seq<int>
    requires 0 <= p <= |f|
  {
    f[..p] + [a] + f[p..]
  }

  /** No `prev` word of one node of `f` is the `next` word of another. */
  ghost predicate Apart(f: seq<int>) {
    forall j, k :: 0 <= j < |f| && 0 <= k < |f| ==> f[j] + 4 != f[k] + 8
  }

  /** Joining the neighbours of node `p` takes it out of the ring. */
  lemma RingUnlink(mem: Memory, mem': Memory, f: seq<int>, p: int)
    requires Ring(mem, f) && Apart(f) && 0 < p < |f| - 1
    requires |mem'| == |mem| && Linked(mem', f[p - 1], f[p + 1])
    requires forall w :: 0 <= w < |mem| && w != f[p - 1] + 8 && w != f[p + 1] + 4 ==> mem'[w] == mem[w]
    ensures Ring(mem', Without(f, p))
  {
    var g := Without(f, p);
    forall j, k | 0 <= j && k == j + 1 && k < |g|
      ensures Linked(mem', g[j], g[k])
    {
      var j', k' := if j < p then j else j + 1, if k < p then k else k + 1;
      assert g[j] == f[j'] && g[k] == f[k'];
      if k < p || j >= p {
        assert Linked(mem, f[j'], f[k']);
        assert f[j'] != f[p - 1] && f[k'] != f[p + 1];
      }
    }
  }

  /** Linking `a` to the nodes on both sides of position `p` puts it into the ring there. */
  lemma RingLink(mem: Memory, mem': Memory, f: seq<int>, p: int, a: int)
    requires Ring(mem, f) && Apart(f) && 0 < p < |f| && a !in f
    requires forall j :: 0 <= j < |f| ==> a + 4 != f[j] + 8 && a + 8 != f[j] + 4
    requires |mem'| == |mem| && Linked(mem', f[p - 1], a) && Linked(mem', a, f[p])
    requires forall w :: 0 <= w < |mem| && w != f[p - 1] + 8 && w != f[p] + 4 && w != a + 4 && w != a + 8 ==>
      mem'[w] == mem[w]
    ensures Ring(mem', With(f, p, a))
  {
    var g := With(f, p, a);
    forall j, k | 0 <= j && k == j + 1 && k < |g|
      ensures Linked(mem', g[j], g[k])
    {
      if k < p {
        assert g[j] == f[j] && g[k] == f[k];
        assert Linked(mem, f[j], f[k]) && f[j] != f[p - 1] && f[k] != f[p];
      } else if j > p {
        assert g[j] == f[j - 1] && g[k] == f[k - 1];
        assert Linked(mem, f[j - 1], f[k - 1]) && f[j - 1] != f[p - 1] && f[k - 1] != f[p];
      }
    }
    forall j, k | 0 <= j < k < |g| && (0 < j || k < |g| - 1)
      ensures g[j] != g[k]
    {
      assert g[j] == (if j < p then f[j] else if j == p then a else f[j - 1]);
      assert g[k] == (if k < p then f[k] else if k == p then a else f[k - 1]);
    }
  }

  lemma RingFrame(mem: Memory, mem': Memory, f: seq<int>)
    requires Ring(mem, f) && |mem'| >= |mem|
    requires forall k :: 0 <= k < |f| && 0 <= f[k] && f[k] + 8 < |mem| ==>
      && mem'[f[k] + 4] == mem[f[k] + 4]
      && mem'[f[k] + 8] == mem[f[k] + 8]
    requires forall k :: 0 <= k < |f| ==> 0 <= f[k] && f[k] + 8 < |mem|
    ensures Ring(mem', f)
  {
    forall j, k | 0 <= j && k == j + 1 && k < |f|
      ensures Linked(mem', f[j], f[k])
    {
      assert Linked(mem, f[j], f[k]);
    }
  }

  /** The nodes of all rings: the sentinels and the listed free regions. */
  ghost predicate IsNode(buckets: int, free: map<int, int>, n: int) {
    n in free || (exists i :: 0 <= i < NUM_RINGS && n == Sentinel(buckets, i))
  }

  lemma NodeOf(mem: Memory, buckets: int, free: map<int, int>, rings: seq<seq<int>>, i: int, k: int)
    requires Rings(mem, buckets, free, rings) && 0 <= i < NUM_RINGS && 0 <= k < |rings[i]|
    ensures rings[i][k] == Sentinel(buckets, i) || (rings[i][k] in free && free[rings[i][k]] == i)
    ensures IsNode(buckets, free, rings[i][k])
  {
    assert RingAt(mem, Sentinel(buckets, i), rings[i]);
  }

  lemma NodesApart(buckets: int, free: map<int, int>, top: int, m: int, n: int)
    requires Spaced(buckets, free, top) && IsNode(buckets, free, m) && IsNode(buckets, free, n)
    ensures buckets <= m && m + NODE_SIZE <= top
    ensures m == n || m + NODE_SIZE <= n || n + NODE_SIZE <= m
  {
  }

  lemma RingApart(mem: Memory, buckets: int, free: map<int, int>, rings: seq<seq<int>>, i: int)
    requires Rings(mem, buckets, free, rings) && 0 <= i < NUM_RINGS
    ensures Apart(rings[i])
    ensures forall k :: 0 <= k < |rings[i]| ==> 0 <= rings[i][k] && rings[i][k] + NODE_SIZE <= |mem|
  {
    var f := rings[i];
    forall j, k | 0 <= j < |f| && 0 <= k < |f|
      ensures f[j] + 4 != f[k] + 8 && 0 <= f[k] && f[k] + NODE_SIZE <= |mem|
    {
      NodeOf(mem, buckets, free, rings, i, j);
      NodeOf(mem, buckets, free, rings, i, k);
      NodesApart(buckets, free, |mem|, f[k], f[j]);
    }
  }

  lemma OtherNode(mem: Memory, buckets: int, free: map<int, int>, rings: seq<seq<int>>, i: int, a: int, n: int, c: int,
      k: int)
    requires Rings(mem, buckets, free, rings) && 0 <= i < NUM_RINGS && 0 <= c < NUM_RINGS && c != i
    requires a in free ==> free[a] == i
    requires Spaced(buckets, free[a := i], |mem|)
    requires (n == a || n in rings[i]) && 0 <= k < |rings[c]|
    ensures n + NODE_SIZE <= rings[c][k] || rings[c][k] + NODE_SIZE <= n
  {
    if n != a {
      var l :| 0 <= l < |rings[i]| && rings[i][l] == n;
      NodeOf(mem, buckets, free, rings, i, l);
    }
    NodeOf(mem, buckets, free, rings, c, k);
    NodesApart(buckets, free[a := i], |mem|, n, rings[c][k]);
    assert a in free[a := i];
  }

  /** Writing only link words of nodes of ring `i`, and of the node `a` of no ring, keeps the others. */
  lemma OtherRing(mem: Memory, mem': Memory, buckets: int, free: map<int, int>, rings: seq<seq<int>>, i: int, a: int,
      c: int)
    requires Rings(mem, buckets, free, rings) && 0 <= i < NUM_RINGS && 0 <= c < NUM_RINGS && c != i
    requires a in free ==> free[a] == i
    requires Spaced(buckets, free[a := i], |mem|)
    requires |mem'| == |mem|
    requires forall w :: 0 <= w < |mem| && mem'[w] != mem[w] ==>
               w - 4 == a || w - 8 == a || w - 4 in rings[i] || w - 8 in rings[i]
    ensures RingAt(mem', Sentinel(buckets, c), rings[c])
  {
    var f := rings[c];
    assert RingAt(mem, Sentinel(buckets, c), f);
    RingApart(mem, buckets, free, rings, c);
    forall k, w | 0 <= k < |f| && (w == f[k] + 4 || w == f[k] + 8)
      ensures mem'[w] == mem[w]
    {
      if w - 4 == a || w - 4 in rings[i] { OtherNode(mem, buckets, free, rings, i, a, w - 4, c, k); }
      if w - 8 == a || w - 8 in rings[i] { OtherNode(mem, buckets, free, rings, i, a, w - 8, c, k); }
    }
    RingFrame(mem, mem', f);
  }

  lemma FindNode(mem: Memory, buckets: int, free: map<int, int>, rings: seq<seq<int>>, a: int) returns (p: int)
    requires Rings(mem, buckets, free, rings) && a in free
    ensures 0 <= free[a] < NUM_RINGS && 0 < p < |rings[free[a]]| - 1 && rings[free[a]][p] == a
    ensures mem[a + 4] == rings[free[a]][p - 1] && mem[a + 8] == rings[free[a]][p + 1]
  {
    var f := rings[free[a]];
    assert RingAt(mem, Sentinel(buckets, free[a]), f);
    p :| 0 <= p < |f| && f[p] == a;
    assert Linked(mem, f[p - 1], f[p]) && Linked(mem, f[p], f[p + 1]);
  }

  /** `free'` and `rings'` agree on which node is in which list. */
  ghost predicate Members(free: map<int, int>, rings: seq<seq<int>>) {
    && |rings| == NUM_RINGS
    && (forall a :: a in free ==> 0 <= free[a] < NUM_RINGS && a in rings[free[a]])
    && (forall i, k :: 0 <= i < NUM_RINGS && 0 < k < |rings[i]| - 1 ==> rings[i][k] in free && free[rings[i][k]] == i)
  }

  lemma MembersWithout(free: map<int, int>, rings: seq<seq<int>>, a: int, p: int)
    requires Members(free, rings) && a in free
    requires 0 < p < |rings[free[a]]| - 1 && rings[free[a]][p] == a
    requires forall k :: 0 <= k < |rings[free[a]]| && k != p ==> rings[free[a]][k] != a
    ensures Members(free - {a}, rings[free[a] := Without(rings[free[a]], p)])
  {
    var i := free[a];
    var f, rings' := rings[i], rings[i := Without(rings[i], p)];
    forall b | b in free - {a}
      ensures b in rings'[free[b]]
    {
      if free[b] == i {
        var q :| 0 <= q < |f| && f[q] == b;
        assert rings'[i][if q < p then q else q - 1] == b;
      }
    }
    forall c, k | 0 <= c < NUM_RINGS && 0 < k < |rings'[c]| - 1
      ensures rings'[c][k] in free - {a} && free[rings'[c][k]] == c
    {
      if c == i { assert rings'[c][k] == f[if k < p then k else k + 1]; }
    }
  }

  lemma MembersWith(free: map<int, int>, rings: seq<seq<int>>, a: int, i: int, p: int)
    requires Members(free, rings) && a !in free && 0 <= i < NUM_RINGS && 0 < p < |rings[i]|
    ensures Members(free[a := i], rings[i := With(rings[i], p, a)])
  {
    var free' := free[a := i];
    var f, rings' := rings[i], rings[i := With(rings[i], p, a)];
    forall b | b in free'
      ensures b in rings'[free'[b]]
    {
      if b == a {
        assert rings'[i][p] == a;
      } else if free[b] == i {
        var q :| 0 <= q < |f| && f[q] == b;
        assert rings'[i][if q < p then q else q + 1] == b;
      }
    }
    forall c, k | 0 <= c < NUM_RINGS && 0 < k < |rings'[c]| - 1
      ensures rings'[c][k] in free' && free'[rings'[c][k]] == c
    {
      if c == i && k != p { assert rings'[c][k] == f[if k < p then k else k - 1]; }
    }
  }

  /** Unlinking node `a`, at position `p` of its ring, removes it from the lists and nothing else. */
  lemma RingsUnlink(mem: Memory, mem': Memory, buckets: int, free: map<int, int>, rings: seq<seq<int>>, a: int, p: int)
    requires Rings(mem, buckets, free, rings) && a in free
    requires 0 < p < |rings[free[a]]| - 1 && rings[free[a]][p] == a
    requires |mem'| == |mem| && Linked(mem', rings[free[a]][p - 1], rings[free[a]][p + 1])
    requires forall w :: 0 <= w < |mem| && w != rings[free[a]][p - 1] + 8 && w != rings[free[a]][p + 1] + 4 ==>
      mem'[w] == mem[w]
    ensures Rings(mem', buckets, free - {a}, rings[free[a] := Without(rings[free[a]], p)])
  {
    var i := free[a];
    var f := rings[i];
    assert RingAt(mem, Sentinel(buckets, i), f);
    MembersWithout(free, rings, a, p);
    RingApart(mem, buckets, free, rings, i);
    RingUnlink(mem, mem', f, p);
    forall c | 0 <= c < NUM_RINGS && c != i
      ensures RingAt(mem', Sentinel(buckets, c), rings[c])
    {
      assert free[a := i] == free;
      assert f[p - 1] in f && f[p + 1] in f;
      OtherRing(mem, mem', buckets, free, rings, i, a, c);
    }
  }

  /** Linking the new node `a` at position `p` of ring `i` adds it to the lists and nothing else. */
  lemma RingsLink(mem: Memory, mem': Memory, buckets: int, free: map<int, int>, rings: seq<seq<int>>, a: int, i: int,
      p: int)
    requires Rings(mem, buckets, free, rings) && a !in free
    requires 0 <= i < NUM_RINGS && Spaced(buckets, free[a := i], |mem|)
    requires 0 < p < |rings[i]|
    requires |mem'| == |mem| && Linked(mem', rings[i][p - 1], a) && Linked(mem', a, rings[i][p])
    requires forall w ::
      0 <= w < |mem| && w != rings[i][p - 1] + 8 && w != rings[i][p] + 4 && w != a + 4 && w != a + 8 ==>
      mem'[w] == mem[w]
    ensures Rings(mem', buckets, free[a := i], rings[i := With(rings[i], p, a)])
  {
    var f := rings[i];
    assert RingAt(mem, Sentinel(buckets, i), f);
    MembersWith(free, rings, a, i, p);
    RingApart(mem, buckets, free, rings, i);
    NewNodeApart(mem, buckets, free, rings, a, i);
    RingLink(mem, mem', f, p, a);
    forall c | 0 <= c < NUM_RINGS && c != i
      ensures RingAt(mem', Sentinel(buckets, c), rings[c])
    {
      assert f[p - 1] in f && f[p] in f;
      OtherRing(mem, mem', buckets, free, rings, i, a, c);
    }
  }

  lemma NewNodeApart(mem: Memory, buckets: int, free: map<int, int>, rings: seq<seq<int>>, a: int, i: int)
    requires Rings(mem, buckets, free, rings) && a !in free
    requires 0 <= i < NUM_RINGS && Spaced(buckets, free[a := i], |mem|)
    ensures a !in rings[i]
    ensures forall j :: 0 <= j < |rings[i]| ==> a + 4 != rings[i][j] + 8 && a + 8 != rings[i][j] + 4
  {
    var f := rings[i];
    forall j | 0 <= j < |f|
      ensures a != f[j] && a + 4 != f[j] + 8 && a + 8 != f[j] + 4
    {
      NodeOf(mem, buckets, free, rings, i, j);
      var free' := free[a := i];
      assert a in free' && IsNode(buckets, free, f[j]);
      if f[j] in free { assert f[j] in free' && f[j] != a; } else { SentinelApart(buckets, free', |mem|, f[j], a); }
      NodesApart(buckets, free', |mem|, a, f[j]);
    }
  }

  /** A listed region is no sentinel. */
  lemma SentinelApart(buckets: int, free: map<int, int>, top: int, s: int, a: int)
    requires Spaced(buckets, free, top) && a in free && s !in free && IsNode(buckets, free, s)
    ensures s != a
  {
  }

  /** Writes that miss every link word, and growth of the memory, keep the lists. */
  lemma RingsFrame(mem: Memory, mem': Memory, buckets: int, free: map<int, int>, rings: seq<seq<int>>)
    requires Rings(mem, buckets, free, rings) && |mem'| >= |mem|
    requires forall n :: IsNode(buckets, free, n) && 0 <= n && n + 8 < |mem| ==>
      && mem'[n + 4] == mem[n + 4]
      && mem'[n + 8] == mem[n + 8]
    ensures Rings(mem', buckets, free, rings)
  {
    forall i | 0 <= i < NUM_RINGS
      ensures RingAt(mem', Sentinel(buckets, i), rings[i])
    {
      assert RingAt(mem, Sentinel(buckets, i), rings[i]);
      RingApart(mem, buckets, free, rings, i);
      forall k | 0 <= k < |rings[i]| ensures IsNode(buckets, free,
          rings[i][k]) { NodeOf(mem, buckets, free, rings, i, k); }
      RingFrame(mem, mem', rings[i]);
    }
  }

  /** The memory after `unlink_from_free_list(a)` ... */
  function UnlinkMem(mem: Memory, a: int): (m: Memory)
    requires 0 <= a && a + 8 < |mem|
    requires 0 <= mem[a + 4] && mem[a + 4] + 8 < |mem| && 0 <= mem[a + 8] && mem[a + 8] + 4 < |mem|
  {
    mem[mem[a + 4] + 8 := mem[a + 8]][mem[a + 8] + 4 := mem[a + 4]]
  }

  /** ... and after linking the new node `a` between `prev` and `next`. */
  function LinkMem(mem: Memory, a: int, prev: int, next: int): (m: Memory)
    requires 0 <= a && a + 8 < |mem| && 0 <= prev && prev + 8 < |mem| && 0 <= next && next + 4 < |mem|
  {
    mem[a + 4 := prev][a + 8 := next][prev + 8 := a][next + 4 := a]
  }

  lemma UnlinkStep(mem: Memory, buckets: int, free: map<int, int>, rings: seq<seq<int>>, a: int) returns (p: int)
    requires Rings(mem, buckets, free, rings) && a in free
    ensures 0 <= a && a + 8 < |mem| && 0 <= mem[a + 4] && mem[a + 4] + 8 < |mem| && 0 <= mem[a + 8] &&
      mem[a + 8] + 4 < |mem|
    ensures 0 <= free[a] < |rings| && 0 < p < |rings[free[a]]| - 1
    ensures Rings(UnlinkMem(mem, a), buckets, free - {a}, rings[free[a] := Without(rings[free[a]], p)])
    ensures LinksOnly(mem, UnlinkMem(mem, a), buckets, free)
  {
    hide Spaced, Ring, Without;
    var i := free[a];
    p := FindNode(mem, buckets, free, rings, a);
    RingNode(mem, buckets, free, rings, i, p - 1);
    RingNode(mem, buckets, free, rings, i, p);
    RingNode(mem, buckets, free, rings, i, p + 1);
    RingApart(mem, buckets, free, rings, i);
    RingsUnlink(mem, UnlinkMem(mem, a), buckets, free, rings, a, p);
  }

  /** Every node of a ring lies in memory; its link words are words of a sentinel or of a free region. */
  lemma RingNode(mem: Memory, buckets: int, free: map<int, int>, rings: seq<seq<int>>, i: int, k: int)
    requires Rings(mem, buckets, free, rings) && 0 <= i < NUM_RINGS && 0 <= k < |rings[i]|
    ensures 0 < rings[i][k] && rings[i][k] + NODE_SIZE <= |mem|
    ensures rings[i][k] in free || buckets <= rings[i][k] <= buckets + NODE_SIZE * (NUM_RINGS - 1)
  {
    NodeOf(mem, buckets, free, rings, i, k);
  }

  lemma LinkStep(mem: Memory, buckets: int, free: map<int, int>, rings: seq<seq<int>>, a: int, i: int, p: int)
    requires Rings(mem, buckets, free, rings) && a !in free && 0 <= i < NUM_RINGS
    requires Spaced(buckets, free[a := i], |mem|) && 0 < p < |rings[i]|
    ensures 0 <= a && a + 8 < |mem| && 0 <= rings[i][p - 1] && rings[i][p - 1] + 8 < |mem| && 0 <= rings[i][p] &&
      rings[i][p] + 4 < |mem|
    ensures a != rings[i][p - 1] && a != rings[i][p] && a + 8 != rings[i][p] + 4 && a + 4 != rings[i][p - 1] + 8
    ensures mem[rings[i][p - 1] + 8] == rings[i][p] && mem[rings[i][p] + 4] == rings[i][p - 1]
    ensures var mem' := LinkMem(mem, a, rings[i][p - 1], rings[i][p]);
      && Rings(mem', buckets, free[a := i], rings[i := With(rings[i], p, a)])
      && LinksOnly(mem, mem', buckets, free[a := i])
  {
    hide Spaced, With;
    var f := rings[i];
    assert RingAt(mem, Sentinel(buckets, i), f);
    assert Linked(mem, f[p - 1], f[p]);
    RingNode(mem, buckets, free, rings, i, p - 1);
    RingNode(mem, buckets, free, rings, i, p);
    NewNode(buckets, free, |mem|, a, i);
    NewNodeApart(mem, buckets, free, rings, a, i);
    RingApart(mem, buckets, free, rings, i);
    assert f[p - 1] in f && f[p] in f;
    RingsLink(mem, LinkMem(mem, a, f[p - 1], f[p]), buckets, free, rings, a, i, p);
  }

  lemma NewNode(buckets: int, free: map<int, int>, top: int, a: int, i: int)
    requires Spaced(buckets, free[a := i], top)
    ensures 0 < buckets < a && a + NODE_SIZE <= top
  {
    assert a in free[a := i];
  }

  lemma ListEnds(mem: Memory, buckets: int, free: map<int, int>, rings: seq<seq<int>>, i: int)
    requires Rings(mem, buckets, free, rings) && 0 <= i < NUM_RINGS
    ensures |rings| == NUM_RINGS && |rings[i]| >= 2
    ensures rings[i][0] == Sentinel(buckets, i) == rings[i][|rings[i]| - 1]
  {
    assert RingAt(mem, Sentinel(buckets, i), rings[i]);
  }
}
