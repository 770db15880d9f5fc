/** The file hierarchy walk of `fts_open` and `fts_read`, with stat information and without user
    instructions, against a recursive walk. */
module Fts {

  /** A directory is known by its device and inode. */
  datatype Id = Id(dev: int, ino: int)

  /** What `stat` says about a path. */
  datatype What = Directory(id: Id) | Regular | Symlink | DeadLink | NoStat | Special

  /** A directory entry, or a path given to `fts_open`; `dot` for "." and "..". */
  datatype Entry = Entry(name: string, dot: bool, what: What)

  /** The directories that can be read, with their entries in the order in which they are listed.
      Symbolic links may make this a graph with cycles. */
  type Fs = map<Id, seq<Entry>>

  datatype Info = D | DP | DC | DNR | DOT | F | SL | SLNONE | NS | DEFAULT

  datatype Node = Node(entry: Entry, info: Info)

  /** One return of `fts_read`. */
  datatype Visit = Visit(entry: Entry, info: Info, level: nat)

  // ----- the recursive walk

  /** `fts_stat` below the directories `above`. */
  function Classify(above: set<Id>, e: Entry): Info {
    match e.what
    case Directory(id) => if e.dot then DOT else if id in above then DC else D
    case Regular => F
    case Symlink => SL
    case DeadLink => SLNONE
    case NoStat => NS
    case Special => DEFAULT
  }

  function Nodes(seeDot: bool, above: set<Id>, es: seq<Entry>): seq<Node> {
    if es == [] then []
    else (if es[0].dot && !seeDot then [] else [Node(es[0], Classify(above, es[0]))]) + Nodes(seeDot, above, es[1..])
  }

  predicate Descends(n: Node) { n.info.D? && n.entry.what.Directory? }

  /** A directory is visited before and after its entries, or a second time as unreadable; anything
      else is visited once. */
  ghost function Walk(fs: Fs, seeDot: bool, above: set<Id>, level: nat, n: Node): seq<Visit>
    decreases fs.Keys - above, 0, 0
  {
    if !Descends(n) then [Visit(n.entry, n.info, level)]
    else
      var id := n.entry.what.id;
      if id !in fs then [Visit(n.entry, D, level), Visit(n.entry, DNR, level)]
      else if id in above then []
      else [Visit(n.entry, D, level)] + WalkAll(fs, seeDot, above + {id}, level + 1,
          Nodes(seeDot, above + {id}, fs[id])) + [Visit(n.entry, DP, level)]
  }

  ghost function WalkAll(fs: Fs, seeDot: bool, above: set<Id>, level: nat, ns: seq<Node>): seq<Visit>
    decreases fs.Keys - above, 1, |ns|
  {
    if ns == [] then [] else Walk(fs, seeDot, above, level, ns[0]) + WalkAll(fs, seeDot, above, level, ns[1..])
  }

  // ----- the state of the iterative walk

  /** A node on the way from a root to the current node, and its right siblings. */
  datatype Frame = Frame(node: Node, rest: seq<Node>)

  /** The directories of the nodes of a stack. */
  ghost function Above(s: seq<Frame>): set<Id> {
    if s == [] then {}
    else Above(s[..|s| - 1]) + (var w := s[|s| - 1].node.entry.what; if w.Directory? then {w.id} else {})
  }

  /** No node of `ns` that would be descended into is one of the directories `above`. */
  ghost predicate Fresh(above: set<Id>, ns: seq<Node>) {
    forall i :: 0 <= i < |ns| && Descends(ns[i]) ==> ns[i].entry.what.id !in above
  }

  ghost predicate Entered(fs: Fs, f: Frame) { Descends(f.node) && f.node.entry.what.id in fs }

  ghost predicate StackOk(fs: Fs, s: seq<Frame>) {
    s != [] ==>
      var below, f := s[..|s| - 1], s[|s| - 1];
      && StackOk(fs, below) && (below != [] ==> Entered(fs, below[|below| - 1]))
      && Fresh(Above(below), [f.node]) && Fresh(Above(below), f.rest)
  }

  /** The visits still to come after the subtree of the top of a stack, of which `s` is the lower part. */
  ghost function Unwind(fs: Fs, seeDot: bool, s: seq<Frame>): seq<Visit> {
    if s == [] then []
    else
      var below, f := s[..|s| - 1], s[|s| - 1];
      [Visit(f.node.entry, DP, |below|)] + WalkAll(fs, seeDot, Above(below), |below|, f.rest) + Unwind(fs, seeDot,
          below)
  }

  /** The visits still to come after the current one. */
  ghost function Future(fs: Fs, seeDot: bool, s: seq<Frame>): seq<Visit> {
    if s == [] then []
    else
      var below, f := s[..|s| - 1], s[|s| - 1];
      Inside(fs, seeDot, Above(below), |below|, f.node) + WalkAll(fs, seeDot, Above(below), |below|,
          f.rest) + Unwind(fs, seeDot, below)
  }

  /** What is left of the walk of a node after its first visit. */
  ghost function Inside(fs: Fs, seeDot: bool, above: set<Id>, level: nat, n: Node): seq<Visit> {
    var w := Walk(fs, seeDot, above, level, n);
    if w == [] then [] else w[1..]
  }

  /** The directories that were entered and not yet left are pairwise distinct. */
  lemma {:induction false} EnteredDistinct(fs: Fs, s: seq<Frame>, i: nat, j: nat)
    requires StackOk(fs, s) && i < j < |s| && s[i].node.entry.what.Directory? && Descends(s[j].node)
    ensures s[i].node.entry.what.id != s[j].node.entry.what.id
  {
    var below, f := s[..|s| - 1], s[|s| - 1];
    if j < |s| - 1 {
      EnteredDistinct(fs, below, i, j);
    } else {
      InAbove(below, i);
      assert Descends([f.node][0]);
    }
  }

  lemma {:induction false} InAbove(s: seq<Frame>, i: nat)
    requires i < |s| && s[i].node.entry.what.Directory?
    ensures s[i].node.entry.what.id in Above(s)
  {
    if i < |s| - 1 { InAbove(s[..|s| - 1], i); assert s[..|s| - 1][i] == s[i]; }
  }

  lemma {:induction false} NodesFresh(seeDot: bool, above: set<Id>, es: seq<Entry>)
    ensures Fresh(above, Nodes(seeDot, above, es))
  {
    if es != [] {
      NodesFresh(seeDot, above, es[1..]);
      var ns := Nodes(seeDot, above, es[1..]);
      assert Nodes(seeDot, above, es) == (if es[0].dot &&
          !seeDot then [] else [Node(es[0], Classify(above, es[0]))]) + ns;
    }
  }

  // ----- the stack, taken apart

  lemma AboveTop(s: seq<Frame>, f: Frame)
    requires f.node.entry.what.Directory?
    ensures Above(s + [f]) == Above(s) + {f.node.entry.what.id}
  {
    assert (s + [f])[..|s + [f]| - 1] == s;
  }

  lemma StackTop(fs: Fs, s: seq<Frame>, f: Frame)
    ensures StackOk(fs, s + [f]) <==>
      && StackOk(fs, s) && (s != [] ==> Entered(fs, s[|s| - 1]))
      && Fresh(Above(s), [f.node]) && Fresh(Above(s), f.rest)
  {
    hide Above, Fresh, Entered;
    assert (s + [f])[..|s + [f]| - 1] == s;
  }

  lemma FutureTop(fs: Fs, seeDot: bool, s: seq<Frame>, f: Frame)
    ensures Future(fs, seeDot, s + [f]) ==
      Inside(fs, seeDot, Above(s), |s|, f.node) + WalkAll(fs, seeDot, Above(s), |s|, f.rest) + Unwind(fs, seeDot, s)
  {
    hide Above, Inside, WalkAll, Unwind;
    assert (s + [f])[..|s + [f]| - 1] == s;
  }

  lemma UnwindTop(fs: Fs, seeDot: bool, s: seq<Frame>, f: Frame)
    ensures Unwind(fs, seeDot, s + [f]) ==
      [Visit(f.node.entry, DP, |s|)] + WalkAll(fs, seeDot, Above(s), |s|, f.rest) + Unwind(fs, seeDot, s)
  {
    hide Above, WalkAll;
    assert (s + [f])[..|s + [f]| - 1] == s;
  }

  /** A node that is not descended into is visited once. */
  lemma Leaf(fs: Fs, seeDot: bool, above: set<Id>, level: nat, n: Node)
    requires !Descends(n)
    ensures Inside(fs, seeDot, above, level, n) == []
  {
  }

  lemma AllNodes(fs: Fs, seeDot: bool, above: set<Id>, level: nat, ns: seq<Node>)
    ensures WalkAll(fs, seeDot, above, level, ns) ==
      if ns == [] then [] else Walk(fs, seeDot, above, level, ns[0]) + WalkAll(fs, seeDot, above, level, ns[1..])
  {
  }

  /** The walk of a node starts with the node. */
  lemma FirstVisit(fs: Fs, seeDot: bool, above: set<Id>, level: nat, n: Node)
    requires Descends(n) ==> n.entry.what.id !in above
    ensures Walk(fs, seeDot, above, level, n) == [Visit(n.entry, n.info, level)] + Inside(fs, seeDot, above, level, n)
  {
  }

  lemma Assoc(a: seq<Visit>, b: seq<Visit>, c: seq<Visit>)
    ensures (a + b) + c == a + (b + c)
  {
  }

  // ----- the steps of fts_read

  /** The next visit is `v`, and the stack `t` holds what comes after it. */
  ghost predicate Yields(fs: Fs, seeDot: bool, s: seq<Frame>, v: Visit, t: seq<Frame>) {
    StackOk(fs, t) && Future(fs, seeDot, s) == [v] + Future(fs, seeDot, t)
  }

  /** After the last sibling of a level the walk comes back to the parent. */
  lemma StepUp(fs: Fs, seeDot: bool, low: seq<Frame>, f: Frame, g: Frame)
    requires StackOk(fs, low + [f] + [g]) && g.rest == [] && !Descends(g.node)
    ensures var f' := Frame(Node(f.node.entry, DP), f.rest);
      Yields(fs, seeDot, low + [f] + [g], Visit(f.node.entry, DP, |low|), low + [f'])
  {
    hide StackOk, Future, Unwind, Walk, WalkAll, Inside, Above;
    var f' := Frame(Node(f.node.entry, DP), f.rest);
    StackTop(fs, low + [f], g);
    StackTop(fs, low, f);
    StackTop(fs, low, f');
    FutureTop(fs, seeDot, low + [f], g);
    UnwindTop(fs, seeDot, low, f);
    FutureTop(fs, seeDot, low, f');
    Leaf(fs, seeDot, Above(low + [f]), |low + [f]|, g.node);
    Leaf(fs, seeDot, Above(low), |low|, f'.node);
    AllNodes(fs, seeDot, Above(low + [f]), |low + [f]|, []);
    Assoc([Visit(f.node.entry, DP, |low|)], WalkAll(fs, seeDot, Above(low), |low|, f.rest), Unwind(fs, seeDot, low));
  }

  lemma StepAcross(fs: Fs, seeDot: bool, low: seq<Frame>, f: Frame)
    requires StackOk(fs, low + [f]) && f.rest != [] && !Descends(f.node)
    ensures var f' := Frame(f.rest[0], f.rest[1..]);
      Yields(fs, seeDot, low + [f], Visit(f.rest[0].entry, f.rest[0].info, |low|), low + [f'])
  {
    hide StackOk, Future, Unwind, Walk, WalkAll, Inside, Above, Fresh;
    var f' := Frame(f.rest[0], f.rest[1..]);
    StackTop(fs, low, f);
    StackTop(fs, low, f');
    FreshParts(Above(low), f.rest);
    FutureTop(fs, seeDot, low, f);
    FutureTop(fs, seeDot, low, f');
    Leaf(fs, seeDot, Above(low), |low|, f.node);
    FirstNode(fs, seeDot, Above(low), |low|, f.rest);
    Assoc([Visit(f.rest[0].entry, f.rest[0].info, |low|)], Inside(fs, seeDot, Above(low), |low|, f.rest[0]) +
      WalkAll(fs, seeDot, Above(low), |low|, f'.rest), Unwind(fs, seeDot, low));
  }

  lemma FreshParts(above: set<Id>, ns: seq<Node>)
    requires ns != []
    ensures Fresh(above, ns) <==> Fresh(above, [ns[0]]) && Fresh(above, ns[1..])
  {
    assert ns == [ns[0]] + ns[1..];
  }

  /** The walk of a list of nodes starts with the first of them. */
  lemma FirstNode(fs: Fs, seeDot: bool, above: set<Id>, level: nat, ns: seq<Node>)
    requires ns != [] && Fresh(above, ns)
    ensures WalkAll(fs, seeDot, above, level, ns) == [Visit(ns[0].entry, ns[0].info, level)] +
      (Inside(fs, seeDot, above, level, ns[0]) + WalkAll(fs, seeDot, above, level, ns[1..]))
  {
    hide Walk, WalkAll, Inside;
    AllNodes(fs, seeDot, above, level, ns);
    FirstVisit(fs, seeDot, above, level, ns[0]);
    Assoc([Visit(ns[0].entry, ns[0].info, level)], Inside(fs, seeDot, above, level, ns[0]),
      WalkAll(fs, seeDot, above, level, ns[1..]));
  }

  /** What is left inside a directory that can be read. */
  lemma Contents(fs: Fs, seeDot: bool, above: set<Id>, level: nat, n: Node)
    requires Descends(n) && n.entry.what.id in fs && n.entry.what.id !in above
    ensures var up := above + {n.entry.what.id};
      Inside(fs, seeDot, above, level, n) == WalkAll(fs, seeDot, up, level + 1,
          Nodes(seeDot, up, fs[n.entry.what.id])) + [Visit(n.entry, DP, level)]
  {
    hide Nodes;
    var up := above + {n.entry.what.id};
    var w := WalkAll(fs, seeDot, up, level + 1, Nodes(seeDot, up, fs[n.entry.what.id]));
    Assoc([Visit(n.entry, D, level)], w, [Visit(n.entry, DP, level)]);
  }

  /** Entering a directory that has entries. */
  lemma StepDown(fs: Fs, seeDot: bool, low: seq<Frame>, f: Frame, kids: seq<Node>)
    requires StackOk(fs, low + [f]) && Entered(fs, f) && kids != []
    requires kids == Nodes(seeDot, Above(low + [f]), fs[f.node.entry.what.id])
    ensures var g := Frame(kids[0], kids[1..]);
      Yields(fs, seeDot, low + [f], Visit(kids[0].entry, kids[0].info, |low| + 1), low + [f] + [g])
  {
    hide StackOk, Future, Unwind, Walk, WalkAll, Inside, Above, Nodes;
    var g := Frame(kids[0], kids[1..]);
    var up := Above(low + [f]);
    StackTop(fs, low, f);
    StackTop(fs, low + [f], g);
    AboveTop(low, f);
    assert Descends([f.node][0]);
    NodesFresh(seeDot, up, fs[f.node.entry.what.id]);
    FutureTop(fs, seeDot, low, f);
    FutureTop(fs, seeDot, low + [f], g);
    UnwindTop(fs, seeDot, low, f);
    Contents(fs, seeDot, Above(low), |low|, f.node);
    AllNodes(fs, seeDot, up, |low| + 1, kids);
    FirstVisit(fs, seeDot, up, |low| + 1, kids[0]);
    Regroup([Visit(kids[0].entry, kids[0].info, |low| + 1)], Inside(fs, seeDot, up, |low| + 1, kids[0]),
      WalkAll(fs, seeDot, up, |low| + 1, kids[1..]), [Visit(f.node.entry, DP, |low|)],
      WalkAll(fs, seeDot, Above(low), |low|, f.rest), Unwind(fs, seeDot, low));
  }

  lemma Regroup(a: seq<Visit>, b: seq<Visit>, c: seq<Visit>, d: seq<Visit>, e: seq<Visit>, f: seq<Visit>)
    ensures (((a + b) + c) + d) + e + f == a + (b + c + (d + e + f))
  {
  }

  /** A directory without entries, or that cannot be read, is visited a second time at once. */
  lemma StepAgain(fs: Fs, seeDot: bool, low: seq<Frame>, f: Frame, info: Info)
    requires StackOk(fs, low + [f]) && Descends(f.node)
    requires var id := f.node.entry.what.id;
      if id in fs then info == DP && Nodes(seeDot, Above(low + [f]), fs[id]) == [] else info == DNR
    ensures var f' := Frame(Node(f.node.entry, info), f.rest);
      Yields(fs, seeDot, low + [f], Visit(f.node.entry, info, |low|), low + [f'])
  {
    hide StackOk, Future, Unwind, WalkAll, Inside, Above, Nodes;
    var f' := Frame(Node(f.node.entry, info), f.rest);
    StackTop(fs, low, f);
    StackTop(fs, low, f');
    AboveTop(low, f);
    assert Descends([f.node][0]);
    FutureTop(fs, seeDot, low, f);
    FutureTop(fs, seeDot, low, f');
    Leaf(fs, seeDot, Above(low), |low|, f'.node);
    SecondVisit(fs, seeDot, Above(low), |low|, f.node, info);
    Assoc([Visit(f.node.entry, info, |low|)], WalkAll(fs, seeDot, Above(low), |low|, f.rest), Unwind(fs, seeDot, low));
  }

  lemma SecondVisit(fs: Fs, seeDot: bool, above: set<Id>, level: nat, n: Node, info: Info)
    requires Descends(n) && n.entry.what.id !in above
    requires var id := n.entry.what.id; if id in fs then info == DP &&
      Nodes(seeDot, above + {id}, fs[id]) == [] else info == DNR
    ensures Inside(fs, seeDot, above, level, n) == [Visit(n.entry, info, level)]
  {
    hide Nodes;
    if n.entry.what.id in fs {
      Contents(fs, seeDot, above, level, n);
      AllNodes(fs, seeDot, above + {n.entry.what.id}, level + 1, []);
    }
  }

  // ----- the iterative walk

  datatype Maybe = Nothing | Just(visit: Visit)

  class Stream {
    const fs: Fs
    const seeDot: bool
    /** The path from a root to `fts_cur`; empty before the first and after the last `fts_read`. */
    var stack: seq<Frame>
    /** The roots, as long as none of them was visited. */
    var roots: seq<Node>

    ghost predicate Valid()
      reads this
    {
      StackOk(fs, stack) && (stack != [] ==> roots == [])
    }

    /** The visits still to come. */
    ghost function Left(): seq<Visit>
      reads this
    {
      if stack == [] then WalkAll(fs, seeDot, {}, 0, roots) else Future(fs, seeDot, stack)
    }

    /** The part of `fts_open` that sets up the roots. */
    constructor (fs: Fs, seeDot: bool, paths: seq<Entry>)
      ensures Valid() && this.fs == fs && this.seeDot == seeDot &&
        Left() == WalkAll(fs, seeDot, {}, 0, RootNodes(paths))
    {
      this.fs, this.seeDot := fs, seeDot;
      stack := [];
      var list: seq<Node> := [];
      for i := 0 to |paths|
        invariant list == RootNodes(paths[..i])
      {
        var info := Classify({}, paths[i]);
        if info == DOT { info := D; }
        list := list + [Node(paths[i], info)];
        assert paths[..i + 1][..i] == paths[..i];
      }
      assert paths[..|paths|] == paths;
      roots := list;
    }

    /** `fts_stat`: looks for a directory among those on the way to it. */
    method Stat(e: Entry) returns (info: Info)
      ensures info == Classify(Above(stack), e)
      ensures e.what.Directory? && e.dot ==> info == DOT
      ensures e.what.Directory? && !e.dot ==>
        info == if exists t :: 0 <= t < |stack| && stack[t].node.entry.what == e.what then DC else D
      ensures (e.what.Regular? ==> info == F) && (e.what.Symlink? ==> info == SL)
      ensures (e.what.DeadLink? ==> info == SLNONE) && (e.what.NoStat? ==> info == NS)
      ensures e.what.Special? ==> info == DEFAULT
    {
      match e.what
      case Directory(id) =>
        if e.dot { return DOT; }
        var t := |stack|;
        assert stack[..t] == stack;
        while t > 0
          invariant 0 <= t <= |stack| && (id in Above(stack) <==> id in Above(stack[..t]))
          invariant forall u :: t <= u < |stack| ==> stack[u].node.entry.what != e.what
        {
          t := t - 1;
          assert stack[..t + 1][..t] == stack[..t];
          var w := stack[t].node.entry.what;
          if w.Directory? && w.id == id { return DC; }
        }
        return D;
      case Regular => return F;
      case Symlink => return SL;
      case DeadLink => return SLNONE;
      case NoStat => return NS;
      case Special => return DEFAULT;
    }

    /** `fts_build`: the nodes for the entries of the current directory. */
    method Build(es: seq<Entry>) returns (kids: seq<Node>)
      ensures kids == Nodes(seeDot, Above(stack), es)
    {
      kids := [];
      assert es[..0] == [];
      for i := 0 to |es|
        invariant kids == Nodes(seeDot, Above(stack), es[..i])
      {
        NodesAppend(seeDot, Above(stack), es[..i], es[i]);
        assert es[..i] + [es[i]] == es[..i + 1];
        if es[i].dot && !seeDot { continue; }
        var info := Stat(es[i]);
        kids := kids + [Node(es[i], info)];
      }
      assert es[..|es|] == es;
    }

    /** `fts_read` */
    method Read() returns (r: Maybe)
      requires Valid()
      modifies this
      ensures Valid()
      ensures r == if old(Left()) == [] then Nothing else Just(old(Left())[0])
      ensures Left() == if old(Left()) == [] then [] else old(Left())[1..]
    {
      hide StackOk, Future, Nodes;
      if stack == [] {
        if roots == [] { return Nothing; }
        FirstRoot(fs, seeDot, roots);
        var p := roots[0];
        stack, roots := [Frame(p, roots[1..])], [];
        return Just(Visit(p.entry, p.info, 0));
      }
      var top := |stack| - 1;
      var p := stack[top].node;
      if Descends(p) {
        r := ReadDirectory();
        return;
      }
      if stack[top].rest != [] {
        assert stack == stack[..top] + [stack[top]];
        StepAcross(fs, seeDot, stack[..top], stack[top]);
        p := stack[top].rest[0];
        stack := stack[..top] + [Frame(p, stack[top].rest[1..])];
        return Just(Visit(p.entry, p.info, top));
      }
      if top == 0 {
        LastRoot(fs, seeDot, stack);
        stack := [];
        return Nothing;
      }
      assert stack == stack[..top - 1] + [stack[top - 1]] + [stack[top]];
      StepUp(fs, seeDot, stack[..top - 1], stack[top - 1], stack[top]);
      p := stack[top - 1].node;
      stack := stack[..top - 1] + [Frame(Node(p.entry, DP), stack[top - 1].rest)];
      return Just(Visit(p.entry, DP, top - 1));
    }

    /** `fts_read` after the first visit of a directory. */
    method ReadDirectory() returns (r: Maybe)
      requires Valid() && stack != [] && Descends(stack[|stack| - 1].node)
      modifies this
      ensures Valid() && old(Left()) != [] && r == Just(old(Left())[0]) && Left() == old(Left())[1..]
    {
      hide StackOk, Future, Nodes;
      var top := |stack| - 1;
      var p := stack[top].node;
      var id := p.entry.what.id;
      assert stack == stack[..top] + [stack[top]];
      if id !in fs {
        StepAgain(fs, seeDot, stack[..top], stack[top], DNR);
        stack := stack[..top] + [Frame(Node(p.entry, DNR), stack[top].rest)];
        return Just(Visit(p.entry, DNR, top));
      }
      var kids := Build(fs[id]);
      if kids == [] {
        StepAgain(fs, seeDot, stack[..top], stack[top], DP);
        stack := stack[..top] + [Frame(Node(p.entry, DP), stack[top].rest)];
        return Just(Visit(p.entry, DP, top));
      }
      StepDown(fs, seeDot, stack[..top], stack[top], kids);
      stack := stack + [Frame(kids[0], kids[1..])];
      return Just(Visit(kids[0].entry, kids[0].info, top + 1));
    }
  }

  /** The paths given by the user are walked even if they are "." or "..". */
  function RootNodes(paths: seq<Entry>): seq<Node> {
    if paths == [] then []
    else
      var e := paths[|paths| - 1];
      var info := Classify({}, e);
      RootNodes(paths[..|paths| - 1]) + [Node(e, if info == DOT then D else info)]
  }

  lemma {:induction false} NodesAppend(seeDot: bool, above: set<Id>, es: seq<Entry>, e: Entry)
    ensures Nodes(seeDot, above, es + [e]) == Nodes(seeDot, above, es) + (if e.dot &&
      !seeDot then [] else [Node(e, Classify(above, e))])
  {
    if es == [] {
      assert es + [e] == [e];
    } else {
      NodesAppend(seeDot, above, es[1..], e);
      assert (es + [e])[1..] == es[1..] + [e];
    }
  }

  lemma FirstRoot(fs: Fs, seeDot: bool, ns: seq<Node>)
    requires ns != []
    ensures StackOk(fs, [Frame(ns[0], ns[1..])])
    ensures WalkAll(fs, seeDot, {}, 0, ns) == [Visit(ns[0].entry, ns[0].info, 0)] + Future(fs, seeDot,
      [Frame(ns[0], ns[1..])])
  {
    hide Walk, WalkAll, Inside, Future, StackOk;
    var f := Frame(ns[0], ns[1..]);
    assert [] + [f] == [f];
    StackTop(fs, [], f);
    NoStack(fs, seeDot);
    FutureTop(fs, seeDot, [], f);
    AllNodes(fs, seeDot, {}, 0, ns);
    FirstVisit(fs, seeDot, {}, 0, ns[0]);
    Assoc([Visit(ns[0].entry, ns[0].info, 0)], Inside(fs, seeDot, {}, 0, ns[0]), WalkAll(fs, seeDot, {}, 0, ns[1..]));
  }

  lemma NoStack(fs: Fs, seeDot: bool)
    ensures StackOk(fs, []) && Above([]) == {} && Unwind(fs, seeDot, []) == []
  {
  }

  lemma LastRoot(fs: Fs, seeDot: bool, s: seq<Frame>)
    requires |s| == 1 && s[0].rest == [] && !Descends(s[0].node)
    ensures Future(fs, seeDot, s) == [] && WalkAll(fs, seeDot, {}, 0, []) == [] && StackOk(fs, [])
  {
    assert s[..0] == [];
  }

  predicate NoEmptyPath(paths: seq<Entry>) { forall i :: 0 <= i < |paths| ==> paths[i].name != "" }

  /** `fts_open` refuses a list with an empty path. */
  method Open(fs: Fs, seeDot: bool, paths: seq<Entry>) returns (sp: Stream?)
    ensures sp != null <==> NoEmptyPath(paths)
    ensures sp != null ==> fresh(sp) && sp.Valid() && sp.Left() == WalkAll(fs, seeDot, {}, 0, RootNodes(paths))
  {
    hide Stream.Left, Stream.Valid, WalkAll, RootNodes;
    for i := 0 to |paths|
      invariant NoEmptyPath(paths[..i])
    {
      if paths[i].name == "" { return null; }
    }
    assert paths[..|paths|] == paths;
    sp := new Stream(fs, seeDot, paths);
  }

  /** Calling `fts_read` until it is done yields the recursive walk of the given paths, and ends, also
      on a file system with cycles. */
  method WalkTree(fs: Fs, seeDot: bool, paths: seq<Entry>) returns (ok: bool, visits: seq<Visit>)
    ensures ok <==> NoEmptyPath(paths)
    ensures visits == if ok then WalkAll(fs, seeDot, {}, 0, RootNodes(paths)) else []
  {
    hide Stream.Left, Stream.Valid, WalkAll, RootNodes;
    visits := [];
    var sp := Open(fs, seeDot, paths);
    ok := sp != null;
    if !ok { return; }
    ghost var all := sp.Left();
    while true
      invariant fresh(sp) && sp.Valid() && visits + sp.Left() == all
      decreases |sp.Left()|
    {
      ghost var left := sp.Left();
      var r := sp.Read();
      if r.Nothing? { break; }
      assert left == [r.visit] + sp.Left();
      Assoc(visits, [r.visit], sp.Left());
      visits := visits + [r.visit];
    }
  }
}
