/** What the walk of a file hierarchy promises, said of the list of visits alone. */
module FtsWalk {
  import opened Fts

  /** A visit before the entries of a directory, or the only one of something else. */
  predicate First(v: Visit) { !v.info.DP? && !v.info.DNR? }

  /** The entries first visited at `level`, in order. */
  ghost function Firsts(w: seq<Visit>, level: nat): seq<Entry> {
    if w == [] then [] else FirstOf(w[0], level) + Firsts(w[1..], level)
  }

  ghost function FirstOf(v: Visit, level: nat): seq<Entry> {
    if First(v) && v.level == level then [v.entry] else []
  }

  /** The entries of a directory that are shown. */
  ghost function Listed(seeDot: bool, es: seq<Entry>): seq<Entry> {
    if es == [] then [] else (if es[0].dot && !seeDot then [] else [es[0]]) + Listed(seeDot, es[1..])
  }

  /** The directory visited at `i` has not been left when `k` is visited. */
  ghost predicate OpenAt(w: seq<Visit>, i: int, k: int) {
    0 <= i < k < |w| && w[i].info.D? && forall m :: i < m <= k ==> w[m].level > w[i].level
  }

  /** The visit is of a directory that is one of `above`, or is open. */
  ghost predicate Cyclic(w: seq<Visit>, above: set<Id>, k: int)
    requires 0 <= k < |w|
  {
    && w[k].entry.what.Directory?
    && (w[k].entry.what.id in above || exists i :: OpenAt(w, i, k) && w[i].entry.what == w[k].entry.what)
  }

  /** How something is classified when it is first visited: a directory that is open is a cycle, and dot
      entries are not walked unless they were given by the user. */
  ghost predicate KindAt(w: seq<Visit>, above: set<Id>, k: int)
    requires 0 <= k < |w|
  {
    First(w[k]) ==>
      var what, info := w[k].entry.what, w[k].info;
      && (what.Directory? && w[k].entry.dot && w[k].level > 0 ==> info == DOT)
      && (what.Directory? && !(w[k].entry.dot && w[k].level > 0) ==> info == if Cyclic(w, above, k) then DC else D)
      && (what.Regular? ==> info == F) && (what.Symlink? ==> info == SL) && (what.DeadLink? ==> info == SLNONE)
      && (what.NoStat? ==> info == NS) && (what.Special? ==> info == DEFAULT)
  }

  /** The directory visited at `i` is left at `j`: in between there are its entries, in order, and what is
      below them. */
  ghost predicate LeftAt(fs: Fs, seeDot: bool, w: seq<Visit>, i: int, j: int) {
    && 0 <= i < j < |w| && w[i].entry.what.Directory? && w[i].entry.what.id in fs
    && w[j] == Visit(w[i].entry, DP, w[i].level) && (forall m :: i < m < j ==> w[m].level > w[i].level)
    && Firsts(w[i + 1..j], w[i].level + 1) == Listed(seeDot, fs[w[i].entry.what.id])
  }

  /** A directory is left again, or turns out at once to be unreadable. */
  ghost predicate EnteredAt(fs: Fs, seeDot: bool, w: seq<Visit>, i: int)
    requires 0 <= i < |w|
  {
    w[i].info.D? ==>
      && w[i].entry.what.Directory?
      && (if w[i].entry.what.id in fs then exists j :: LeftAt(fs, seeDot, w, i, j)
          else i + 1 < |w| && w[i + 1] == Visit(w[i].entry, DNR, w[i].level))
  }

  /** The visits `w` are a walk of `es` at `level` below the directories `above`. */
  ghost predicate Sound(fs: Fs, seeDot: bool, above: set<Id>, level: nat, w: seq<Visit>, es: seq<Entry>) {
    && (forall k :: 0 <= k < |w| ==> w[k].level >= level)
    && Firsts(w, level) == es
    && (forall i :: 0 <= i < |w| ==> EnteredAt(fs, seeDot, w, i))
    && (forall k :: 0 <= k < |w| ==> KindAt(w, above, k))
  }

  // ----- walks one after the other

  lemma {:induction false} FirstsConcat(v: seq<Visit>, w: seq<Visit>, level: nat)
    ensures Firsts(v + w, level) == Firsts(v, level) + Firsts(w, level)
    decreases |v|
  {
    hide Firsts, FirstOf;
    FirstsNone(level);
    if v == [] {
      assert v + w == w;
    } else {
      FirstsCons(v, level);
      FirstsCons(v + w, level);
      FirstsConcat(v[1..], w, level);
      assert (v + w)[1..] == v[1..] + w;
      Regrouped(FirstOf(v[0], level), Firsts(v[1..], level), Firsts(w, level));
    }
  }

  lemma FirstsNone(level: nat)
    ensures Firsts([], level) == []
  {
  }

  lemma FirstsCons(w: seq<Visit>, level: nat)
    requires w != []
    ensures Firsts(w, level) == FirstOf(w[0], level) + Firsts(w[1..], level)
  {
  }

  lemma Regrouped(a: seq<Entry>, b: seq<Entry>, c: seq<Entry>)
    ensures (a + b) + c == a + (b + c)
  {
  }

  lemma {:induction false} NoFirsts(w: seq<Visit>, level: nat)
    requires forall k :: 0 <= k < |w| ==> w[k].level > level
    ensures Firsts(w, level) == []
    decreases |w|
  {
    hide Firsts;
    FirstsNone(level);
    if w != [] {
      FirstsCons(w, level);
      NoFirsts(w[1..], level);
    }
  }

  /** What is said about one visit stays true with more visits around it. */
  lemma EnteredWithin(fs: Fs, seeDot: bool, u: seq<Visit>, w: seq<Visit>, v: seq<Visit>, i: int)
    requires 0 <= i < |w| && EnteredAt(fs, seeDot, w, i)
    ensures EnteredAt(fs, seeDot, u + w + v, |u| + i)
  {
    hide Firsts, Listed;
    var x := u + w + v;
    assert x[|u| + i] == w[i];
    if w[i].info.D? && w[i].entry.what.id in fs {
      var j :| LeftAt(fs, seeDot, w, i, j);
      assert x[|u| + i + 1..|u| + j] == w[i + 1..j];
      assert forall m :: |u| + i < m < |u| + j ==> x[m] == w[m - |u|];
      assert LeftAt(fs, seeDot, x, |u| + i, |u| + j);
    } else if w[i].info.D? {
      assert x[|u| + i + 1] == w[i + 1];
    }
  }

  /** Every directory entered in a walk has been left at its end. */
  lemma AllLeft(fs: Fs, seeDot: bool, w: seq<Visit>, v: seq<Visit>, i: int, k: int)
    requires 0 <= i < |w| <= k < |w + v| && EnteredAt(fs, seeDot, w, i)
    ensures !OpenAt(w + v, i, k)
  {
    var x := w + v;
    assert x[i] == w[i];
    if w[i].info.D? {
      if w[i].entry.what.id in fs {
        var j :| LeftAt(fs, seeDot, w, i, j);
        assert x[j] == w[j];
      } else {
        assert x[i + 1] == w[i + 1];
      }
    }
  }

  /** The open directories are the same, up to a shift. */
  lemma SameCyclic(u: seq<Visit>, w: seq<Visit>, v: seq<Visit>, x: seq<Visit>, k: int, l: int, above: set<Id>)
    requires x == u + w + v && 0 <= k < |w| && l == |u| + k && forall i :: OpenAt(x, i, l) ==> |u| <= i
    ensures Cyclic(x, above, l) <==> Cyclic(w, above, k)
  {
    assert x[|u| + k] == w[k];
    if i :| OpenAt(x, i, |u| + k) && x[i].entry.what == w[k].entry.what {
      OpenShift(u, w, v, i - |u|, k);
      assert x[i] == w[i - |u|];
    }
    if i :| OpenAt(w, i, k) && w[i].entry.what == w[k].entry.what {
      OpenShift(u, w, v, i, k);
      assert OpenAt(x, |u| + i, |u| + k) && x[|u| + i] == w[i];
    }
  }

  lemma OpenShift(u: seq<Visit>, w: seq<Visit>, v: seq<Visit>, i: int, k: int)
    requires 0 <= i < k < |w|
    ensures OpenAt(u + w + v, |u| + i, |u| + k) <==> OpenAt(w, i, k)
  {
    var x := u + w + v;
    assert forall m :: 0 <= m < |w| ==> x[|u| + m] == w[m];
    if OpenAt(x, |u| + i, |u| + k) {
      forall m | i < m <= k ensures w[m].level > w[i].level { assert x[|u| + m].level > x[|u| + i].level; }
    }
  }

  lemma KindBefore(above: set<Id>, w: seq<Visit>, v: seq<Visit>, k: int)
    requires 0 <= k < |w| && KindAt(w, above, k)
    ensures KindAt(w + v, above, k)
  {
    assert (w + v)[k] == w[k];
    SameCyclic([], w, v, w + v, k, k, above);
  }

  lemma KindAfter(fs: Fs, seeDot: bool, above: set<Id>, w: seq<Visit>, v: seq<Visit>, k: int)
    requires 0 <= k < |v| && KindAt(v, above, k) && forall i :: 0 <= i < |w| ==> EnteredAt(fs, seeDot, w, i)
    ensures KindAt(w + v, above, |w| + k)
  {
    hide EnteredAt;
    var x, l := w + v, |w| + k;
    forall i | OpenAt(x, i, l)
      ensures |w| <= i
    {
      if 0 <= i < |w| { AllLeft(fs, seeDot, w, v, i, l); }
    }
    SameCyclic(w, v, [], x, k, l, above);
  }

  lemma SoundConcat(fs: Fs, seeDot: bool, above: set<Id>, level: nat, w: seq<Visit>, es: seq<Entry>, v: seq<Visit>,
      fs': seq<Entry>)
    requires Sound(fs, seeDot, above, level, w, es) && Sound(fs, seeDot, above, level, v, fs')
    ensures Sound(fs, seeDot, above, level, w + v, es + fs')
  {
    hide Firsts, EnteredAt, KindAt;
    var x := w + v;
    FirstsConcat(w, v, level);
    forall k | 0 <= k < |x|
      ensures EnteredAt(fs, seeDot, x, k) && KindAt(x, above, k)
    {
      if k < |w| {
        EnteredWithin(fs, seeDot, [], w, v, k);
        assert [] + w + v == x;
        KindBefore(above, w, v, k);
      } else {
        EnteredWithin(fs, seeDot, w, v, [], k - |w|);
        assert w + v + [] == x;
        KindAfter(fs, seeDot, above, w, v, k - |w|);
      }
    }
  }

  // ----- the walk of one node

  /** The node is classified as it should be, below the directories `above`. */
  ghost predicate KindOf(above: set<Id>, level: nat, n: Node) {
    var what := n.entry.what;
    && (what.Directory? && n.entry.dot && level > 0 ==> n.info == DOT)
    && (what.Directory? && !(n.entry.dot && level > 0) ==> n.info == if what.id in above then DC else D)
    && (what.Regular? ==> n.info == F) && (what.Symlink? ==> n.info == SL) && (what.DeadLink? ==> n.info == SLNONE)
    && (what.NoStat? ==> n.info == NS) && (what.Special? ==> n.info == DEFAULT)
  }

  ghost function Entries(ns: seq<Node>): seq<Entry> {
    if ns == [] then [] else [ns[0].entry] + Entries(ns[1..])
  }

  lemma SoundLeaf(fs: Fs, seeDot: bool, above: set<Id>, level: nat, n: Node)
    requires KindOf(above, level, n) && !n.info.D?
    ensures Sound(fs, seeDot, above, level, [Visit(n.entry, n.info, level)], [n.entry])
  {
    var w := [Visit(n.entry, n.info, level)];
    assert w[1..] == [];
    assert forall i :: !OpenAt(w, i, 0);
  }

  lemma SoundUnreadable(fs: Fs, seeDot: bool, above: set<Id>, level: nat, n: Node)
    requires KindOf(above, level, n) && n.info.D? && n.entry.what.id !in fs
    ensures Sound(fs, seeDot, above, level, [Visit(n.entry, D, level), Visit(n.entry, DNR, level)], [n.entry])
  {
    var w := [Visit(n.entry, D, level), Visit(n.entry, DNR, level)];
    var u := w[1..];
    assert u == [Visit(n.entry, DNR, level)] && u[1..] == [];
    assert Firsts(u, level) == [];
    assert forall i :: !OpenAt(w, i, 0);
    assert KindAt(w, above, 0) && KindAt(w, above, 1) && EnteredAt(fs, seeDot, w, 0) && EnteredAt(fs, seeDot, w, 1);
  }

  /** Inside a directory, that directory is open. */
  lemma KindInside(fs: Fs, seeDot: bool, above: set<Id>, e: Entry, level: nat, w: seq<Visit>, k: int)
    requires e.what.Directory? && 0 <= k < |w| && KindAt(w, above + {e.what.id}, k)
    requires forall m :: 0 <= m < |w| ==> w[m].level > level
    ensures KindAt([Visit(e, D, level)] + w, above, k + 1)
  {
    var d := [Visit(e, D, level)];
    var x := d + w;
    assert x[k + 1] == w[k] && x[0] == d[0] && d + w + [] == x;
    assert OpenAt(x, 0, k + 1) by { assert forall m :: 0 < m <= k + 1 ==> x[m] == w[m - 1]; }
    assert Cyclic(x, above, k + 1) <==> Cyclic(w, above + {e.what.id}, k) by {
      if i :| OpenAt(x, i, k + 1) && x[i].entry.what == x[k + 1].entry.what && i > 0 {
        OpenShift(d, w, [], i - 1, k);
        assert OpenAt(w, i - 1, k) && w[i - 1] == x[i];
      }
      if i :| OpenAt(w, i, k) && w[i].entry.what == w[k].entry.what {
        OpenShift(d, w, [], i, k);
        assert OpenAt(x, i + 1, k + 1) && x[i + 1] == w[i];
      }
    }
  }

  lemma SoundInside(fs: Fs, seeDot: bool, above: set<Id>, level: nat, n: Node, w: seq<Visit>)
    requires KindOf(above, level, n) && n.info.D? && n.entry.what.Directory? && n.entry.what.id in fs
    requires Sound(fs, seeDot, above + {n.entry.what.id}, level + 1, w, Listed(seeDot, fs[n.entry.what.id]))
    ensures Sound(fs, seeDot, above, level, [Visit(n.entry, D, level)] + w + [Visit(n.entry, DP, level)], [n.entry])
  {
    hide Firsts, Listed, KindAt;
    var d, e := [Visit(n.entry, D, level)], [Visit(n.entry, DP, level)];
    var x := d + w + e;
    InsideFirsts(n.entry, level, w);
    forall k | 0 <= k < |x|
      ensures EnteredAt(fs, seeDot, x, k)
    {
      if k == 0 {
        assert x[1..|x| - 1] == w;
        assert LeftAt(fs, seeDot, x, 0, |x| - 1);
      } else if k < |x| - 1 {
        assert EnteredAt(fs, seeDot, w, k - 1);
        EnteredWithin(fs, seeDot, d, w, e, k - 1);
      }
    }
    forall k | 0 <= k < |x|
      ensures KindAt(x, above, k)
    {
      KindAround(fs, seeDot, above, level, n, w, k);
    }
  }

  lemma KindAround(fs: Fs, seeDot: bool, above: set<Id>, level: nat, n: Node, w: seq<Visit>, k: int)
    requires KindOf(above, level, n) && n.info.D? && n.entry.what.Directory?
    requires forall m :: 0 <= m < |w| ==> w[m].level > level && KindAt(w, above + {n.entry.what.id}, m)
    requires 0 <= k < |w| + 2
    ensures KindAt([Visit(n.entry, D, level)] + w + [Visit(n.entry, DP, level)], above, k)
  {
    var d, e := [Visit(n.entry, D, level)], [Visit(n.entry, DP, level)];
    if k == 0 {
      assert forall i :: !OpenAt(d, i, 0);
      assert KindAt(d, above, 0);
      KindBefore(above, d, w + e, 0);
      assert d + (w + e) == d + w + e;
    } else if k <= |w| {
      KindInside(fs, seeDot, above, n.entry, level, w, k - 1);
      KindBefore(above, d + w, e, k);
    }
  }

  lemma {:induction false} InsideFirsts(e: Entry, level: nat, w: seq<Visit>)
    requires forall k :: 0 <= k < |w| ==> w[k].level > level
    ensures Firsts([Visit(e, D, level)] + w + [Visit(e, DP, level)], level) == [e]
  {
    var d, p := [Visit(e, D, level)], [Visit(e, DP, level)];
    hide Firsts;
    FirstsConcat(d + w, p, level);
    FirstsConcat(d, w, level);
    NoFirsts(w, level);
    FirstsCons(d, level);
    FirstsCons(p, level);
    FirstsNone(level);
    assert d[1..] == [] && p[1..] == [];
  }

  // ----- the recursive walk

  lemma {:induction false} NodesKinds(seeDot: bool, above: set<Id>, level: nat, es: seq<Entry>)
    requires level > 0
    ensures forall i :: 0 <= i < |Nodes(seeDot, above, es)| ==> KindOf(above, level, Nodes(seeDot, above, es)[i])
    ensures Entries(Nodes(seeDot, above, es)) == Listed(seeDot, es)
    decreases |es|
  {
    if es != [] {
      NodesKinds(seeDot, above, level, es[1..]);
      var ns := Nodes(seeDot, above, es[1..]);
      if es[0].dot && !seeDot {
        assert Nodes(seeDot, above, es) == ns;
      } else {
        var n := Node(es[0], Classify(above, es[0]));
        assert Nodes(seeDot, above, es) == [n] + ns && ([n] + ns)[1..] == ns;
        assert KindOf(above, level, n);
      }
    }
  }

  lemma {:induction false} WalkSound(fs: Fs, seeDot: bool, above: set<Id>, level: nat, n: Node)
    requires KindOf(above, level, n)
    ensures Sound(fs, seeDot, above, level, Walk(fs, seeDot, above, level, n), [n.entry])
    decreases fs.Keys - above, 0, 0
  {
    hide Sound, Nodes, Listed;
    if !Descends(n) {
      SoundLeaf(fs, seeDot, above, level, n);
    } else if n.entry.what.id !in fs {
      SoundUnreadable(fs, seeDot, above, level, n);
    } else {
      var up := above + {n.entry.what.id};
      var ns := Nodes(seeDot, up, fs[n.entry.what.id]);
      NodesKinds(seeDot, up, level + 1, fs[n.entry.what.id]);
      WalkAllSound(fs, seeDot, up, level + 1, ns);
      SoundInside(fs, seeDot, above, level, n, WalkAll(fs, seeDot, up, level + 1, ns));
    }
  }

  lemma {:induction false} WalkAllSound(fs: Fs, seeDot: bool, above: set<Id>, level: nat, ns: seq<Node>)
    requires forall i :: 0 <= i < |ns| ==> KindOf(above, level, ns[i])
    ensures Sound(fs, seeDot, above, level, WalkAll(fs, seeDot, above, level, ns), Entries(ns))
    decreases fs.Keys - above, 1, |ns|
  {
    hide KindOf, Walk;
    if ns != [] {
      hide Sound;
      WalkSound(fs, seeDot, above, level, ns[0]);
      WalkAllSound(fs, seeDot, above, level, ns[1..]);
      SoundConcat(fs, seeDot, above, level, Walk(fs, seeDot, above, level, ns[0]), [ns[0].entry],
        WalkAll(fs, seeDot, above, level, ns[1..]), Entries(ns[1..]));
    }
  }

  lemma {:induction false} RootKinds(paths: seq<Entry>)
    ensures forall i :: 0 <= i < |RootNodes(paths)| ==> KindOf({}, 0, RootNodes(paths)[i])
    ensures Entries(RootNodes(paths)) == paths
    decreases |paths|
  {
    if paths != [] {
      var low, e := paths[..|paths| - 1], paths[|paths| - 1];
      RootKinds(low);
      var info := Classify({}, e);
      EntriesAppend(RootNodes(low), Node(e, if info == DOT then D else info));
      assert low + [e] == paths;
    }
  }

  lemma {:induction false} EntriesAppend(ns: seq<Node>, n: Node)
    ensures Entries(ns + [n]) == Entries(ns) + [n.entry]
    decreases |ns|
  {
    if ns == [] {
      assert ns + [n] == [n] && [n][1..] == [];
    } else {
      EntriesAppend(ns[1..], n);
      assert (ns + [n])[1..] == ns[1..] + [n];
    }
  }

  /** The visits of `fts_read` from `fts_open` to the end: the paths are visited in order; every directory
      that can be read is visited before and after its entries, which are visited in order in between; one
      that cannot is visited twice in a row; and a directory is a cycle exactly if it is open. */
  method Visits(fs: Fs, seeDot: bool, paths: seq<Entry>) returns (ok: bool, visits: seq<Visit>)
    ensures ok <==> NoEmptyPath(paths)
    ensures if ok then Sound(fs, seeDot, {}, 0, visits, paths) else visits == []
  {
    hide Sound, WalkAll, KindOf;
    ok, visits := WalkTree(fs, seeDot, paths);
    RootKinds(paths);
    WalkAllSound(fs, seeDot, {}, 0, RootNodes(paths));
  }
}
