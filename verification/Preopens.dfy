/** The table of preopened directories, and the search for the one that leads to a path. */
module Preopens {

  /** C strings, without their terminator; reading at the end gives the terminator. */
  function At(s: string, i: nat): char { if i < |s| then s[i] else '\0' }

  predicate IsCString(s: string) { forall i :: 0 <= i < |s| ==> s[i] != '\0' }

  // ----- normalization

  /** A path without the leading parts that stand for the root. */
  function Strip(path: string): string
    decreases |path|
  {
    if path == "" then path
    else if path[0] == '/' then Strip(path[1..])
    else if path[0] == '.' && |path| > 1 && path[1] == '/' then Strip(path[2..])
    else if path == "." then ""
    else path
  }

  /** `strip_prefixes` */
  method StripPrefixes(path: string) returns (r: string)
    requires IsCString(path)
    ensures r == Strip(path) && IsCString(r)
  {
    r := path;
    while true
      invariant IsCString(r) && Strip(r) == Strip(path)
      decreases |r|
    {
      if At(r, 0) == '/' {
        r := r[1..];
      } else if At(r, 0) == '.' && At(r, 1) == '/' {
        r := r[2..];
      } else if At(r, 0) == '.' && At(r, 1) == '\0' {
        assert r == ".";
        r := r[1..];
      } else {
        break;
      }
    }
  }

  /** What is left starts with a directory name, or is empty ... */
  lemma {:induction false} Stripped(path: string)
    ensures At(Strip(path), 0) != '/' && !("./" <= Strip(path)) && Strip(path) != "."
    ensures Strip(Strip(path)) == Strip(path)
    decreases |path|
  {
    if path != "" && path[0] == '/' { Stripped(path[1..]); }
    else if path != "" && path[0] == '.' && |path| > 1 && path[1] == '/' { Stripped(path[2..]); }
  }

  /** Parts that stand for the root: slashes, and dots that are followed by a slash. */
  predicate RootParts(s: string) {
    || s == ""
    || (s[0] == '/' && RootParts(s[1..]))
    || (|s| > 1 && s[0] == '.' && s[1] == '/' && RootParts(s[2..]))
  }

  /** `rest` is the end of the path, after such parts only, or nothing if a single dot comes after those. */
  ghost predicate RestOf(path: string, rest: string) {
    && |rest| <= |path| && rest == path[|path| - |rest|..]
    && (var gone := path[..|path| - |rest|];
        RootParts(gone) || (rest == "" != path && path[|path| - 1] == '.' && RootParts(path[..|path| - 1])))
  }

  /** ... and is what such parts leave of the path. */
  lemma {:induction false} StrippedSuffix(path: string)
    ensures RestOf(path, Strip(path))
    decreases |path|
  {
    hide RestOf, RootParts;
    if path != "" && path[0] == '/' {
      StrippedSuffix(path[1..]);
      RestOfMore(path, 1, Strip(path[1..]));
    } else if path != "" && path[0] == '.' && |path| > 1 && path[1] == '/' {
      StrippedSuffix(path[2..]);
      RestOfMore(path, 2, Strip(path[2..]));
    } else {
      RestOfNothing(path);
    }
  }

  lemma RestOfNothing(path: string)
    ensures RestOf(path, path) && (path == "." ==> RestOf(path, ""))
  {
    assert path[..0] == "" && path[0..] == path;
  }

  lemma {:induction false} RestOfMore(path: string, k: nat, rest: string)
    requires (k == 1 && |path| > 0 && path[0] == '/') || (k == 2 && |path| > 1 && path[0] == '.' && path[1] == '/')
    requires RestOf(path[k..], rest)
    ensures RestOf(path, rest)
  {
    hide RootParts;
    var n := |path| - |rest|;
    assert path[k..][n - k..] == path[n..];
    if RootParts(path[k..][..n - k]) {
      RootPartsMore(path, k, n);
    } else {
      RootPartsMore(path, k, |path| - 1);
    }
  }

  lemma {:induction false} RootPartsMore(path: string, k: nat, n: nat)
    requires (k == 1 && |path| > 0 && path[0] == '/') || (k == 2 && |path| > 1 && path[0] == '.' && path[1] == '/')
    requires k <= n <= |path| && RootParts(path[k..][..n - k])
    ensures RootParts(path[..n])
  {
    assert path[..n][k..] == path[k..][..n - k];
  }

  // ----- matching

  /** `prefix` leads to a directory on the way of `path`: it is empty, or `path` goes on after it with a
      new component, or ends there. */
  ghost predicate Leads(prefix: string, path: string) {
    prefix == "" || (prefix <= path && (prefix[|prefix| - 1] == '/' || At(path, |prefix|) == '/' || |path| == |prefix|))
  }

  /** `prefix_matches` */
  method PrefixMatches(prefix: string, path: string) returns (r: bool)
    requires IsCString(prefix) && IsCString(path)
    ensures r <==> Leads(prefix, path)
  {
    if At(path, 0) != '/' && |prefix| == 0 { return true; }
    if !(prefix <= path) { return false; }
    var i := |prefix|;
    while i > 0 && prefix[i - 1] == '/'
      invariant 0 <= i <= |prefix| && (forall j :: i <= j < |prefix| ==> prefix[j] == '/')
      invariant i == |prefix| || prefix[|prefix| - 1] == '/'
    {
      i := i - 1;
    }
    var last := At(path, i);
    return last == '/' || last == '\0';
  }

  // ----- the table

  datatype Preopen = Preopen(prefix: string, fd: int)

  datatype Found = NoEntry | Found(fd: int, prefix: string, relative: string)

  /** Preopen `k` leads to the path, no other one that does is longer, and no later one is as long. */
  ghost predicate Best(table: seq<Preopen>, path: string, k: int) {
    && 0 <= k < |table| && Leads(table[k].prefix, path)
    && (forall i :: 0 <= i < |table| && Leads(table[i].prefix, path) ==>
          |table[i].prefix| < |table[k].prefix| || (|table[i].prefix| == |table[k].prefix| && i <= k))
  }

  class Table {
    /** The allocated slots, of which the first `num` are in use. */
    var slots: seq<Preopen>
    var num: nat

    ghost predicate Valid()
      reads this
    {
      && num <= |slots|
      && (forall i :: 0 <= i < num ==>
        && IsCString(slots[i].prefix) && slots[i].fd >= 0
        && Strip(slots[i].prefix) == slots[i].prefix)
    }

    /** The registered preopens, in the order of their registration. */
    ghost function Registered(): seq<Preopen>
      requires Valid()
      reads this
    {
      slots[..num]
    }

    constructor ()
      ensures Valid() && Registered() == []
    {
      slots, num := [], 0;
    }

    /** `resize`; `memory` says whether `calloc` succeeds. */
    method Resize(memory: bool) returns (ok: bool)
      requires Valid()
      modifies `slots
      ensures Valid() && Registered() == old(Registered()) && ok == memory
      ensures |slots| == if !ok then |old(slots)| else if old(slots) == [] then 4 else 2 * |old(slots)|
    {
      var capacity := if |slots| == 0 then 4 else |slots| * 2;
      if !memory { return false; }
      slots := slots[..num] + seq(capacity - num, i => Preopen("", -1));
      return true;
    }

    /** `internal_register_preopened_fd_unlocked`; `memory`, `copied` and `added` say which of its
        steps succeed. */
    method Register(fd: int, prefix: string, memory: bool, copied: bool, added: bool) returns (ok: bool)
      requires Valid() && fd >= 0 && IsCString(prefix)
      modifies this
      ensures Valid()
      ensures Registered() == old(Registered()) + (if ok then [Preopen(Strip(prefix), fd)] else [])
      ensures ok <==> copied && added && (memory || old(num) < |old(slots)|)
    {
      assert slots[..num] + [] == slots[..num];
      if num == |slots| {
        var resized := Resize(memory);
        if !resized { return false; }
      }
      if !copied { return false; }
      var stripped := StripPrefixes(prefix);
      Stripped(prefix);
      if !added { return false; }
      slots := slots[num := Preopen(stripped, fd)];
      num := num + 1;
      return true;
    }

    /** Preopen `best` beats the ones from `i` on; -1 if none of them leads to the path. */
    ghost predicate BestFrom(p: string, best: int, i: nat)
      requires Valid() && i <= num
      reads this
    {
      if best == -1 then forall j :: i <= j < num ==> !Leads(slots[j].prefix, p)
      else
        && i <= best < num && Leads(slots[best].prefix, p)
        && (forall j :: i <= j < num && Leads(slots[j].prefix, p) ==>
              |slots[j].prefix| < |slots[best].prefix| || (|slots[j].prefix| == |slots[best].prefix| && j <= best))
    }

    /** The search loop of `__wasilibc_find_abspath`, from the latest preopen to the first. */
    method FindBest(p: string) returns (best: int)
      requires Valid() && IsCString(p)
      ensures best >= -1 && BestFrom(p, best, 0)
    {
      hide Leads;
      best := -1;
      var i := num;
      while i > 0
        invariant 0 <= i <= num && best >= -1 && BestFrom(p, best, i)
      {
        i := i - 1;
        if best == -1 || |slots[i].prefix| > |slots[best].prefix| {
          var matches := PrefixMatches(slots[i].prefix, p);
          if matches { best := i; }
        }
      }
    }

    /** `__wasilibc_find_abspath` */
    method FindAbspath(path: string) returns (r: Found)
      requires Valid() && IsCString(path)
      ensures r.NoEntry? <==> forall i :: 0 <= i < num ==> !Leads(slots[i].prefix, NoSlashes(path))
      ensures r.Found? ==> exists k ::
        && Best(Registered(), NoSlashes(path), k) && r.fd == slots[k].fd && r.prefix == slots[k].prefix
        && Continues(r.prefix, r.relative, NoSlashes(path))
    {
      hide NoSlashes, Continues;
      var p := SkipSlashes(path);
      NoSlashesStart(path);
      var best := FindBest(p);
      if best == -1 { return NoEntry; }
      assert Best(Registered(), p, best);
      var prefix := slots[best].prefix;
      assert prefix == p[..|prefix|];
      var rest := SkipSlashes(p[|prefix|..]);
      SlashesBetween(p, |prefix|);
      r := Found(slots[best].fd, prefix, if rest == "" then "." else rest);
    }
  }

  /** A path without leading slashes. */
  function NoSlashes(path: string): string {
    if path != "" && path[0] == '/' then NoSlashes(path[1..]) else path
  }

  lemma {:induction false} NoSlashesStart(path: string)
    requires IsCString(path)
    ensures At(NoSlashes(path), 0) != '/' && IsCString(NoSlashes(path)) && |NoSlashes(path)| <= |path|
    ensures var n := |path| - |NoSlashes(path)|;
      NoSlashes(path) == path[n..] && forall i :: 0 <= i < n ==> path[i] == '/'
  {
    if path != "" && path[0] == '/' { NoSlashesStart(path[1..]); }
  }

  method SkipSlashes(path: string) returns (r: string)
    ensures r == NoSlashes(path)
  {
    r := path;
    while At(r, 0) == '/'
      invariant NoSlashes(r) == NoSlashes(path)
      decreases |r|
    {
      r := r[1..];
    }
  }

  /** The path is the prefix, then slashes, then the relative part, which is not empty and does not
      start with a slash; "." stands for an empty one. */
  ghost predicate Continues(prefix: string, relative: string, path: string) {
    && relative != "" && relative[0] != '/'
    && exists n: nat :: path == prefix + Slashes(n) + relative || (relative == "." && path == prefix + Slashes(n))
  }

  /** This leaves no choice. */
  lemma ContinuesOneWay(prefix: string, relative: string, path: string)
    requires Continues(prefix, relative, path)
    ensures var rest := NoSlashes(path[|prefix|..]); relative == (if rest == "" then "." else rest)
  {
    var n: nat :| path == prefix + Slashes(n) + relative || (relative == "." && path == prefix + Slashes(n));
    if relative == "." && path == prefix + Slashes(n) {
      assert path[|prefix|..] == Slashes(n) + "";
      PastSlashes(n, "");
    } else {
      assert path[|prefix|..] == Slashes(n) + relative;
      PastSlashes(n, relative);
    }
  }

  lemma {:induction false} PastSlashes(n: nat, rest: string)
    requires rest == "" || rest[0] != '/'
    ensures NoSlashes(Slashes(n) + rest) == rest
  {
    if n > 0 {
      assert (Slashes(n) + rest)[1..] == Slashes(n - 1) + rest;
      PastSlashes(n - 1, rest);
    } else {
      assert Slashes(0) + rest == rest;
    }
  }

  function Slashes(n: nat): string { seq(n, i => '/') }

  lemma {:induction false} SlashCount(path: string) returns (n: nat)
    ensures path == Slashes(n) + NoSlashes(path)
  {
    n := 0;
    if path != "" && path[0] == '/' {
      var m := SlashCount(path[1..]);
      n := m + 1;
      assert path == ['/'] + path[1..];
      assert Slashes(n) == ['/'] + Slashes(m);
    }
  }

  lemma SlashesBetween(path: string, k: nat)
    requires IsCString(path) && k <= |path|
    ensures var rest := NoSlashes(path[k..]); Continues(path[..k], if rest == "" then "." else rest, path)
  {
    var n := SlashCount(path[k..]);
    var rest := NoSlashes(path[k..]);
    NoSlashesStart(path[k..]);
    assert path == path[..k] + path[k..];
    assert path == path[..k] + Slashes(n) + rest;
    if rest == "" { assert path == path[..k] + Slashes(n); }
  }
}
