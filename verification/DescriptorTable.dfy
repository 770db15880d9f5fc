/** The file descriptor table: a growing array with an allocation hint, and reference counted objects. */
module DescriptorTable {

  /** The content of an unoccupied slot; objects have other names. */
  const FREE: int := 0
  const MINSIZE: nat := 8
  const MAX_DESCRIPTOR: int := 0x10_0000

  datatype DupOp = Dup | Dup2 | Dup3 | DupFd

  datatype Result = Fd(fd: int) | BadFd | Invalid | NoMemory

  /** What a table means: which object each descriptor refers to. */
  ghost function View(entries: seq<int>): map<int, int> {
    map fd | 0 <= fd < |entries| && entries[fd] != FREE :: entries[fd]
  }

  /** Vacating a slot takes away one mention of its object. */
  lemma Vacated(entries: seq<int>, fd: nat)
    requires fd < |entries| && entries[fd] != FREE
    ensures View(entries[fd := FREE]) == View(entries) - {fd}
    ensures forall o :: o != FREE ==>
      multiset(entries)[o] == multiset(entries[fd := FREE])[o] + multiset{entries[fd]}[o]
  {
    assert entries == entries[..fd] + [entries[fd]] + entries[fd + 1..];
    assert entries[fd := FREE] == entries[..fd] + [FREE] + entries[fd + 1..];
  }

  /** `fd` is the lowest descriptor from `from` on that is not in use. */
  ghost predicate LowestFree(v: map<int, int>, from: int, fd: int) {
    from <= fd && fd !in v && forall i :: from <= i < fd ==> i in v
  }

  /** Every slot from `from` on is in use. */
  ghost predicate Full(entries: seq<int>, from: nat) { forall i :: from <= i < |entries| ==> entries[i] != FREE }

  /** The number of references to `o`. */
  function Count(cnt: map<int, nat>, o: int): nat { if o in cnt then cnt[o] else 0 }

  class Table {
    var entries: seq<int>
    var nextFd: nat
    var cnt: map<int, nat>
    /** References handed out by lookups and not yet given back. */
    ghost var held: multiset<int>
    /** All objects that were ever put in the table, and those that were deallocated. */
    ghost var known: set<int>
    ghost var dead: set<int>

    /** Every slot below the hint is occupied. */
    ghost predicate Hinted()
      reads `entries, `nextFd
    {
      nextFd <= |entries| && forall i :: 0 <= i < nextFd ==> entries[i] != FREE
    }

    /** Every object is counted once for each slot and each outstanding reference, and is deallocated
        exactly when there is none left. */
    ghost predicate Counted(extra: multiset<int>)
      reads `entries, `cnt, `held, `known, `dead
    {
      && (forall o :: o != FREE ==> Count(cnt, o) == multiset(entries)[o] + held[o] + extra[o])
      && (forall o :: o in known ==> o != FREE && (o in dead <==> Count(cnt, o) == 0))
      && (forall o :: o !in known && o != FREE ==> Count(cnt, o) == 0 && o !in dead)
      && held[FREE] == 0 && FREE !in dead
    }

    ghost predicate Valid()
      reads this
    {
      Hinted() && Counted(multiset{})
    }

    constructor ()
      ensures Valid() && entries == [] && known == {} && dead == {} && held == multiset{}
    {
      entries, nextFd, cnt := [], 0, map[];
      held, known, dead := multiset{}, {}, {};
    }

    // ----- reference counts

    /** `descriptor_table_entry_inc` */
    method Inc(o: int, ghost extra: multiset<int>)
      requires Counted(extra) && o in known && o !in dead
      modifies `cnt
      ensures Counted(extra + multiset{o})
    {
      cnt := cnt[o := Count(cnt, o) + 1];
    }

    /** `descriptor_table_entry_dec`: the last reference takes the object with it. */
    method Dec(o: int, ghost extra: multiset<int>)
      requires Counted(extra) && o in extra && o != FREE
      modifies `cnt, `dead
      ensures Counted(extra - multiset{o})
      ensures dead == old(dead) + (if Count(cnt, o) == 0 then {o} else {}) && o !in old(dead)
    {
      assert Count(cnt, o) > 0;
      assert o in known && o !in dead;
      cnt := cnt[o := Count(cnt, o) - 1];
      if cnt[o] == 0 {
        dead := dead + {o};
      }
    }

    // ----- slots

    /** `table_grow`; `memory` says whether `realloc` succeeds. */
    method Grow(needed: nat, memory: bool, ghost extra: multiset<int>) returns (ok: bool)
      requires Hinted() && Counted(extra)
      modifies `entries
      ensures Hinted() && Counted(extra) && View(entries) == View(old(entries)) && |old(entries)| <= |entries|
      ensures ok == (memory || needed <= |old(entries)|) && (ok ==> needed <= |entries|)
      ensures |entries| == |old(entries)| || |entries| == MINSIZE || |entries| < 2 * needed
    {
      if needed <= |entries| { return true; }
      var newLen := if |entries| == 0 then MINSIZE else |entries|;
      while newLen < needed
        invariant 0 < newLen && |entries| <= newLen && (newLen == MINSIZE || newLen < 2 * needed)
        decreases needed - newLen
      {
        newLen := newLen * 2;
      }
      if !memory { return false; }
      GrowCount(entries, newLen);
      entries := Grown(entries, newLen);
      return true;
    }

    /** The search loops of `table_allocate` and of DUPFD: the lowest free slot from `from` on, or the
        end of the table. */
    method FirstFree(from: nat) returns (fd: nat)
      requires Hinted() && nextFd <= from
      ensures LowestFree(View(entries), from, fd)
    {
      fd := from;
      while fd < |entries| && entries[fd] != FREE
        invariant from <= fd && (forall i :: from <= i < fd ==> i in View(entries))
      {
        fd := fd + 1;
      }
    }

    /** The hint does not change the outcome of a search. */
    lemma HintedSearch(from: int, start: int, fd: int)
      requires Hinted() && 0 <= from <= start <= (if from < nextFd then nextFd else from) &&
        LowestFree(View(entries), start, fd)
      ensures LowestFree(View(entries), from, fd)
    {
      assert forall i :: from <= i < start && 0 <= i ==> i in View(entries);
    }

    /** Puts a counted reference to `o` in a slot; the reference that was there is left over. */
    method Place(fd: nat, o: int, ghost extra: multiset<int>)
      requires Hinted() && Counted(extra + multiset{o}) && fd < |entries| && o != FREE
      modifies `entries
      ensures Hinted() && entries == old(entries)[fd := o] && View(entries) == View(old(entries))[fd := o]
      ensures Counted(extra + (if old(entries)[fd] == FREE then multiset{} else multiset{old(entries)[fd]}))
    {
      entries := entries[fd := o];
    }

    /** `table_allocate` */
    method Allocate(o: int, memory: bool, ghost extra: multiset<int>) returns (fd: int)
      requires Hinted() && Counted(extra + multiset{o}) && o != FREE
      modifies `entries, `nextFd
      ensures Hinted() && (fd < 0 ==> Counted(extra + multiset{o}) && View(entries) == View(old(entries)))
      ensures fd < 0 <==> !memory && Full(old(entries), 0)
      ensures fd >= 0 ==>
        && Counted(extra) && View(entries) == View(old(entries))[fd := o]
        && LowestFree(View(old(entries)), 0, fd)
    {
      hide Counted;
      var i := FirstFree(nextFd);
      HintedSearch(0, nextFd, i);
      assert i <= |entries| by { assert |entries| !in View(entries); }
      if i == |entries| {
        forall k | 0 <= k < |entries|
          ensures entries[k] != FREE
        {
          assert k in View(entries);
        }
        var ok := Grow(|entries| + 1, memory, extra + multiset{o});
        if !ok { return -1; }
      }
      assert i !in View(entries) && (forall k :: 0 <= k < i ==> k in View(entries));
      Place(i, o, extra);
      forall k | 0 <= k <= i
        ensures entries[k] != FREE
      {
        assert k in View(entries);
      }
      assert extra + multiset{} == extra;
      nextFd := i + 1;
      return i;
    }

    // ----- the operations

    /** `descriptor_table_insert` of a new object, which is deallocated again if there is no memory. */
    method Insert(o: int, memory: bool) returns (r: Result)
      requires Valid() && o !in known && o != FREE
      modifies this
      ensures Valid() && held == old(held) && known == old(known) + {o}
      ensures r.Fd? ==>
        && View(entries) == View(old(entries))[r.fd := o] && LowestFree(View(old(entries)), 0, r.fd)
        && dead == old(dead)
      ensures !r.Fd? ==> r.NoMemory? && View(entries) == View(old(entries)) && dead == old(dead) + {o}
      ensures !r.Fd? <==> !memory && Full(old(entries), 0)
    {
      known := known + {o};
      cnt := cnt[o := 1];
      assert Counted(multiset{} + multiset{o});
      r := InsertEntry(o, memory);
    }

    /** `descriptor_table_insert_entry`, with a reference that the caller counted. */
    method InsertEntry(o: int, memory: bool) returns (r: Result)
      requires Hinted() && Counted(multiset{} + multiset{o}) && o != FREE
      modifies `entries, `nextFd, `cnt, `dead
      ensures Valid()
      ensures r.Fd? ==>
        && View(entries) == View(old(entries))[r.fd := o] && LowestFree(View(old(entries)), 0, r.fd)
        && dead == old(dead)
      ensures !r.Fd? ==> r.NoMemory? && View(entries) == View(old(entries))
      ensures !r.Fd? <==> !memory && Full(old(entries), 0)
      ensures !r.Fd? ==>
        && dead == old(dead) + (if Count(cnt, o) == 0 then {o} else {})
        && Count(cnt, o) + 1 == Count(old(cnt), o)
    {
      var fd := Allocate(o, memory, multiset{});
      if fd < 0 {
        Dec(o, multiset{} + multiset{o});
        assert multiset{} + multiset{o} - multiset{o} == multiset{};
        return NoMemory;
      }
      return Fd(fd);
    }

    /** `descriptor_table_get`: the object, with a reference that the caller gives back. */
    method Get(fd: int) returns (o: int)
      requires Valid()
      modifies `cnt, `held
      ensures Valid() && o == (if fd in View(entries) then View(entries)[fd] else FREE)
      ensures held == old(held) + (if o == FREE then multiset{} else multiset{o})
    {
      o := Lookup(fd);
      if o != FREE {
        InUse(fd);
        Inc(o, multiset{});
        assert multiset{} + multiset{o} == multiset{o};
        held := held + multiset{o};
      }
    }

    /** The caller of `descriptor_table_get` gives its reference back. */
    method Release(o: int)
      requires Valid() && o in held
      modifies `cnt, `held, `dead
      ensures Valid() && held == old(held) - multiset{o}
      ensures dead == old(dead) + (if o !in held && o !in View(entries).Values then {o} else {})
    {
      held := held - multiset{o};
      Dec(o, multiset{o});
      assert multiset{o} - multiset{o} == multiset{};
      Unreferenced(o);
    }

    /** `table_lookup` */
    method Lookup(fd: int) returns (o: int)
      ensures o == if fd in View(entries) then View(entries)[fd] else FREE
    {
      if fd < 0 || fd >= |entries| || entries[fd] == FREE { return FREE; }
      return entries[fd];
    }

    lemma InUse(fd: int)
      requires Valid() && fd in View(entries)
      ensures View(entries)[fd] in known && View(entries)[fd] !in dead && View(entries)[fd] != FREE
    {
      assert entries[fd] in multiset(entries);
    }

    /** An object is gone exactly if no descriptor and no outstanding reference leads to it. */
    lemma Unreferenced(o: int)
      requires Counted(multiset{}) && o != FREE
      ensures Count(cnt, o) == 0 <==> o !in held && o !in View(entries).Values
    {
      if o in View(entries).Values {
        var fd :| fd in View(entries) && View(entries)[fd] == o;
        assert entries[fd] in multiset(entries);
      }
      if o in multiset(entries) {
        assert o in entries;
        var fd :| 0 <= fd < |entries| && entries[fd] == o;
        assert fd in View(entries) && View(entries)[fd] == o;
      }
    }

    /** Empties a slot; its reference is left over. */
    method Vacate(fd: nat) returns (o: int)
      requires Valid() && fd < |entries| && entries[fd] != FREE
      modifies `entries, `nextFd
      ensures Hinted() && Counted(multiset{o}) && o != FREE && o == old(entries)[fd]
      ensures entries == old(entries)[fd := FREE] && View(entries) == View(old(entries)) - {fd}
    {
      o := entries[fd];
      Vacated(entries, fd);
      entries := entries[fd := FREE];
      if fd < nextFd { nextFd := fd; }
    }

    /** `descriptor_table_remove` */
    method Remove(fd: int) returns (ok: bool)
      requires Valid()
      modifies this
      ensures Valid() && held == old(held) && known == old(known)
      ensures ok == (fd in View(old(entries))) && View(entries) == View(old(entries)) - {fd}
      ensures ok ==> |entries| == |old(entries)| && entries == old(entries)[fd := FREE]
      ensures dead == old(dead) + Dropped(View(old(entries)), fd, View(entries), held)
    {
      hide Counted;
      if fd < 0 || fd >= |entries| || entries[fd] == FREE {
        Undropped(View(entries), fd, held);
        return false;
      }
      var o := Vacate(fd);
      Dec(o, multiset{o});
      assert multiset{o} - multiset{o} == multiset{};
      Unreferenced(o);
      return true;
    }

    /** `descriptor_table_clear`: only objects to which there are outstanding references survive. */
    method Clear()
      requires Valid()
      modifies this
      ensures Valid() && entries == [] && held == old(held) && known == old(known)
      ensures forall o :: o in known ==> (o in dead <==> o !in held)
    {
      for i := 0 to |entries|
        invariant Valid() && held == old(held) && known == old(known) && |entries| == |old(entries)|
        invariant forall k :: 0 <= k < i ==> entries[k] == FREE
      {
        if entries[i] != FREE { var ok := Remove(i); }
      }
      NoObjects(entries);
      entries := [];
      nextFd := 0;
    }

    /** The part of `descriptor_table_dup` for a given new descriptor, which may be in use. */
    method DuplicateTo(o: int, arg: int, memory: bool) returns (r: Result)
      requires Valid() && o in known && o !in dead
      modifies this
      ensures Valid() && held == old(held)
      ensures !r.Fd? ==>
        && View(entries) == View(old(entries)) && dead == old(dead)
        && (r.BadFd? || r.NoMemory?)
      ensures known == old(known) && (r.BadFd? <==> !(0 <= arg < MAX_DESCRIPTOR))
      ensures r.NoMemory? <==> 0 <= arg < MAX_DESCRIPTOR && |old(entries)| <= arg && !memory
      ensures r.Fd? ==> r.fd == arg && 0 <= arg < MAX_DESCRIPTOR && View(entries) == View(old(entries))[arg := o]
      ensures r.Fd? ==> dead == old(dead) + Dropped(View(old(entries)), arg, View(entries), held)
    {
      hide Counted;
      if arg < 0 || arg >= MAX_DESCRIPTOR { return BadFd; }
      var ok := Grow(arg + 1, memory, multiset{});
      if !ok { return NoMemory; }
      Inc(o, multiset{});
      var prev := entries[arg];
      assert prev != FREE ==> arg in View(entries);
      Place(arg, o, multiset{});
      if prev != FREE {
        assert multiset{} + multiset{prev} == multiset{prev} && multiset{prev} - multiset{prev} == multiset{};
        Dec(prev, multiset{prev});
        Unreferenced(prev);
      } else {
        ghost var none: multiset<int> := multiset{};
        assert none + none == none;
      }
      return Fd(arg);
    }

    /** The part of `descriptor_table_dup` for the lowest descriptor from `arg` on. */
    method DuplicateFrom(o: int, arg: int, memory: bool) returns (r: Result)
      requires Valid() && o in known && o !in dead
      modifies this
      ensures Valid() && held == old(held) && dead == old(dead)
      ensures !r.Fd? ==> View(entries) == View(old(entries)) && (r.Invalid? || r.NoMemory?)
      ensures known == old(known) && (r.Invalid? <==> !(0 <= arg < MAX_DESCRIPTOR))
      ensures r.NoMemory? <==> 0 <= arg < MAX_DESCRIPTOR && Full(old(entries), arg) && !memory
      ensures r.Fd? ==>
        && LowestFree(View(old(entries)), arg, r.fd) && 0 <= arg < MAX_DESCRIPTOR
        && View(entries) == View(old(entries))[r.fd := o]
    {
      hide Counted;
      if arg < 0 || arg >= MAX_DESCRIPTOR { return Invalid; }
      var minfd := if arg < nextFd then nextFd else arg;
      var fd := FirstFree(minfd);
      HintedSearch(arg, minfd, fd);
      forall k | arg <= k < |entries| && k < fd
        ensures entries[k] != FREE
      {
        assert k in View(entries);
      }
      var ok := Grow(fd + 1, memory, multiset{});
      if !ok { return NoMemory; }
      Inc(o, multiset{});
      assert fd !in View(entries);
      Place(fd, o, multiset{});
      ghost var none: multiset<int> := multiset{};
      assert none + none == none;
      return Fd(fd);
    }

    /** `descriptor_table_dup` */
    method Duplicate(fd: int, op: DupOp, arg: int, memory: bool) returns (r: Result)
      requires Valid()
      modifies this
      ensures Valid() && held == old(held) && known == old(known)
      ensures !r.Fd? ==> View(entries) == View(old(entries)) && dead == old(dead)
      ensures r.BadFd? <==>
        || fd !in View(old(entries))
        || ((op.Dup2? || op.Dup3?) && fd != arg && !(0 <= arg < MAX_DESCRIPTOR))
      ensures r.Invalid? <==>
        && fd in View(old(entries))
        && ((op.Dup3? && fd == arg) || (op.DupFd? && !(0 <= arg < MAX_DESCRIPTOR)))
      ensures r.Fd? ==> fd in View(old(entries)) && View(entries) == View(old(entries))[r.fd := View(old(entries))[fd]]
      ensures r.Fd? && op.Dup? ==> LowestFree(View(old(entries)), 0, r.fd) && dead == old(dead)
      ensures r.Fd? && op.DupFd? ==>
        && LowestFree(View(old(entries)), arg, r.fd) && 0 <= arg < MAX_DESCRIPTOR
        && dead == old(dead)
      ensures r.Fd? && (op.Dup2? || op.Dup3?) ==> r.fd == arg && (fd == arg ==> op.Dup2? && dead == old(dead))
      ensures r.Fd? && (op.Dup2? || op.Dup3?) && fd != arg ==>
        dead == old(dead) + Dropped(View(old(entries)), arg, View(entries), held)
      ensures r.NoMemory? ==> fd in View(old(entries)) && !memory
      ensures fd in View(old(entries)) && !memory ==>
        && (op.Dup? ==> (r.NoMemory? <==> Full(old(entries), 0)))
        && (op.DupFd? && 0 <= arg < MAX_DESCRIPTOR ==> (r.NoMemory? <==> Full(old(entries), arg)))
        && (op.Dup2? || op.Dup3? ==> (r.NoMemory? <==> fd != arg && |old(entries)| <= arg < MAX_DESCRIPTOR))
    {
      var o := Lookup(fd);
      if o == FREE { return BadFd; }
      InUse(fd);
      match op
      case Dup =>
        Inc(o, multiset{});
        r := InsertEntry(o, memory);
        if !r.Fd? { InUse(fd); }
      case Dup2 =>
        if fd == arg { return Fd(arg); }
        r := DuplicateTo(o, arg, memory);
      case Dup3 =>
        if fd == arg { return Invalid; }
        r := DuplicateTo(o, arg, memory);
      case DupFd =>
        r := DuplicateFrom(o, arg, memory);
    }
  }

  /** The object that lost its last reference when descriptor `fd` was taken over. */
  ghost function Dropped(v: map<int, int>, fd: int, v': map<int, int>, held: multiset<int>): set<int> {
    if fd in v && v[fd] !in held && v[fd] !in v'.Values then {v[fd]} else {}
  }

  lemma Undropped(v: map<int, int>, fd: int, held: multiset<int>)
    requires fd !in v
    ensures Dropped(v, fd, v, held) == {} && v - {fd} == v
  {
  }

  function Grown(s: seq<int>, n: nat): seq<int>
    requires |s| <= n
  {
    s + seq(n - |s|, i => FREE)
  }

  lemma GrowCount(s: seq<int>, n: nat)
    requires |s| <= n
    ensures forall o :: o != FREE ==> multiset(Grown(s, n))[o] == multiset(s)[o]
    ensures View(Grown(s, n)) == View(s)
  {
    var frees := seq(n - |s|, i => FREE);
    NoObjects(frees);
    assert multiset(s + frees) == multiset(s) + multiset(frees);
  }

  lemma NoObjects(frees: seq<int>)
    requires forall i :: 0 <= i < |frees| ==> frees[i] == FREE
    ensures forall o :: o != FREE ==> multiset(frees)[o] == 0
  {
    forall o | o != FREE
      ensures multiset(frees)[o] == 0
    {
      assert o !in frees;
    }
  }
}
