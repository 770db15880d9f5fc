/** The check that a C string is well-formed UTF-8, against the encoding of section 3 of RFC 3629. */
module Utf8 {
  import opened Bits

  type Bytes = seq<int>

  predicate IsBytes(s: Bytes) { forall i :: 0 <= i < |s| ==> 0 <= s[i] <= 0xFF }

  predicate Scalar(cp: int) { 0 <= cp <= 0x10FFFF && !(0xD800 <= cp <= 0xDFFF) }

  /** The bytes of one character. */
  function Encode(cp: int): Bytes
    requires Scalar(cp)
  {
    if cp < 0x80 then [cp]
    else if cp < 0x800 then [0xC0 + cp / 64, 0x80 + cp % 64]
    else if cp < 0x10000 then [0xE0 + cp / 4096, 0x80 + cp / 64 % 64, 0x80 + cp % 64]
    else [0xF0 + cp / 262144, 0x80 + cp / 4096 % 64, 0x80 + cp / 64 % 64, 0x80 + cp % 64]
  }

  /** `s` is the encoding of `cps`, one character after the other. */
  ghost predicate Encodes(cps: seq<int>, s: Bytes) {
    if cps == [] then s == []
    else Scalar(cps[0]) && Encode(cps[0]) <= s && Encodes(cps[1..], s[|Encode(cps[0])|..])
  }

  ghost predicate WellFormed(s: Bytes) { exists cps :: Encodes(cps, s) }

  // ----- the tests that the validator makes

  predicate Continues(b: nat) { And(b, 0xC0) == 0x80 }

  /** The number of bytes of the character that starts with `c`; 0 if none does. */
  function Size(c: nat): nat {
    if c <= 0x7F then 1
    else if And(c, 0xE0) == 0xC0 then (if c <= 0xC1 then 0 else 2)
    else if And(c, 0xF0) == 0xE0 then 3
    else if And(c, 0xF8) == 0xF0 then (if c > 0xF4 then 0 else 4)
    else 0
  }

  /** Overlong forms, surrogates and values beyond U+10FFFF, told by the first two bytes. */
  predicate Excluded(c: nat, b: nat) {
    || (c == 0xE0 && And(b, 0x20) == 0)
    || (c == 0xED && b >= 0xA0)
    || (c == 0xF0 && And(b, 0x30) == 0)
    || (c == 0xF4 && b >= 0x90)
  }

  lemma {:induction false} AndEven(x: nat, y: nat)
    ensures And(x, 2 * y) == 2 * And(x / 2, y)
  {
    AndHalf(x, 2 * y);
  }

  lemma {:induction false} AndZero(x: nat)
    ensures And(x, 0) == 0
  {
    if x > 0 { AndZero(x / 2); }
  }

  lemma And1(x: nat)
    ensures And(x, 1) == x % 2
  {
    hide And;
    AndZero(x / 2);
    AndHalf(x, 1);
  }

  lemma And3(x: nat)
    ensures And(x, 3) == x % 4
  {
    hide And;
    And1(x / 2);
    AndHalf(x, 3);
    FourParts(x, And(x, 3));
  }

  lemma FourParts(x: nat, y: nat)
    requires y / 2 == x / 2 % 2 && (y % 2 == 1 <==> x % 2 == 1)
    ensures y == x % 4
  {
  }

  lemma {:induction false} AndAll(x: nat, k: nat)
    requires x < Pow2(k)
    ensures And(x, Pow2(k) - 1) == x
    decreases k
  {
    if k > 0 {
      AndHalf(x, Pow2(k) - 1);
      AndAll(x / 2, k - 1);
      assert (Pow2(k) - 1) / 2 == Pow2(k - 1) - 1;
    }
  }

  lemma AndFull(x: nat)
    ensures (x < 4 ==> And(x, 3) == x) && (x < 8 ==> And(x, 7) == x) && (x < 16 ==> And(x, 15) == x) &&
      (x < 32 ==> And(x, 31) == x)
  {
    hide And;
    assert Pow2(2) == 4 && Pow2(3) == 8 && Pow2(4) == 16 && Pow2(5) == 32;
    if x < 4 { AndAll(x, 2); }
    if x < 8 { AndAll(x, 3); }
    if x < 16 { AndAll(x, 4); }
    if x < 32 { AndAll(x, 5); }
  }

  lemma Mask4(x: nat, m: nat)
    ensures And(x, 16 * m) == 16 * And(x / 16, m) && And(x, 8 * m) == 8 * And(x / 8, m)
  {
    hide And;
    AndEven(x, 8 * m);
    AndEven(x / 2, 4 * m);
    AndEven(x / 4, 2 * m);
    AndEven(x / 8, m);
    AndEven(x, 4 * m);
    AndEven(x / 2, 2 * m);
    AndEven(x / 4, m);
  }

  lemma Masks(c: nat)
    requires c <= 0xFF
    ensures And(c, 0xC0) == 0x80 <==> 0x80 <= c <= 0xBF
    ensures And(c, 0xE0) == 0xC0 <==> 0xC0 <= c <= 0xDF
    ensures And(c, 0xF0) == 0xE0 <==> 0xE0 <= c <= 0xEF
    ensures And(c, 0xF8) == 0xF0 <==> 0xF0 <= c <= 0xF7
  {
    hide And;
    Mask4(c, 12);
    AndEven(c / 16, 6);
    AndEven(c / 32, 3);
    AndFull(c / 64);
    Mask4(c, 14);
    AndEven(c / 16, 7);
    AndFull(c / 32);
    Mask4(c, 15);
    AndFull(c / 16);
    Mask4(c, 31);
    AndFull(c / 8);
  }

  lemma Exclusions(b: nat)
    requires 0x80 <= b <= 0xBF
    ensures And(b, 0x20) == 0 <==> b < 0xA0
    ensures And(b, 0x30) == 0 <==> b < 0x90
  {
    hide And;
    Mask4(b, 2);
    AndEven(b / 16, 1);
    And1(b / 32);
    Mask4(b, 3);
    And3(b / 16);
  }

  // ----- one character

  /** The validator accepts a character at the start of `s`. */
  ghost predicate Accepts(s: Bytes)
    requires IsBytes(s)
  {
    s != [] && var k := Size(s[0]);
    && 1 <= k <= |s| && (forall j :: 1 <= j < k ==> Continues(s[j])) && (k > 1 ==> !Excluded(s[0], s[1]))
  }

  /** The code point that the payload bits of an accepted character make up. */
  function Decode(s: Bytes): int
    requires s != []
  {
    if s[0] < 0x80 || |s| < 2 then s[0]
    else if s[0] < 0xE0 || |s| < 3 then (s[0] - 0xC0) * 64 + (s[1] - 0x80)
    else if s[0] < 0xF0 || |s| < 4 then (s[0] - 0xE0) * 4096 + (s[1] - 0x80) * 64 + (s[2] - 0x80)
    else (s[0] - 0xF0) * 262144 + (s[1] - 0x80) * 4096 + (s[2] - 0x80) * 64 + (s[3] - 0x80)
  }

  lemma Payload2(a: int, b: int)
    requires 0 <= b < 64
    ensures (a * 64 + b) / 64 == a && (a * 64 + b) % 64 == b
  {
  }

  lemma Payload3(a: int, b: int, c: int)
    requires 0 <= b < 64 && 0 <= c < 64
    ensures var cp := a * 4096 + b * 64 + c; cp / 4096 == a && cp / 64 % 64 == b && cp % 64 == c
  {
    Payload2(a * 64 + b, c);
    Payload2(a, b);
  }

  lemma Payload4(a: int, b: int, c: int, d: int)
    requires 0 <= b < 64 && 0 <= c < 64 && 0 <= d < 64
    ensures var cp := a * 262144 + b * 4096 + c * 64 + d;
      cp / 262144 == a && cp / 4096 % 64 == b && cp / 64 % 64 == c && cp % 64 == d
  {
    Payload2(a * 4096 + b * 64 + c, d);
    Payload3(a, b, c);
    Payload3(a * 64 + b, c, d);
  }

  /** What acceptance says, in ranges. */
  lemma AcceptedRanges(s: Bytes)
    requires IsBytes(s) && Accepts(s)
    ensures var c, k := s[0], Size(s[0]);
      && k <= |s| && (k == 1 ==> c < 0x80) && (k == 2 ==> 0xC2 <= c < 0xE0) && (k == 3 ==> 0xE0 <= c < 0xF0) &&
        (k == 4 ==> 0xF0 <= c <= 0xF4)
      && 1 <= k <= 4 && (forall j :: 1 <= j < k ==> 0x80 <= s[j] <= 0xBF)
      && (c == 0xE0 ==> s[1] >= 0xA0) && (c == 0xED ==> s[1] < 0xA0) && (c == 0xF0 ==> s[1] >= 0x90) &&
        (c == 0xF4 ==> s[1] < 0x90)
  {
    hide And;
    Masks(s[0]);
    forall j | 1 <= j < Size(s[0])
      ensures 0x80 <= s[j] <= 0xBF
    {
      Masks(s[j]);
    }
    if Size(s[0]) >= 2 { Exclusions(s[1]); }
  }

  lemma Accepted2(s: Bytes)
    requires |s| >= 2 && 0xC2 <= s[0] < 0xE0 && 0x80 <= s[1] <= 0xBF
    ensures Scalar(Decode(s)) && Encode(Decode(s)) == s[..2]
  {
    Payload2(s[0] - 0xC0, s[1] - 0x80);
  }

  lemma Accepted3(s: Bytes)
    requires |s| >= 3 && 0xE0 <= s[0] < 0xF0 && 0x80 <= s[1] <= 0xBF && 0x80 <= s[2] <= 0xBF
    requires (s[0] == 0xE0 ==> s[1] >= 0xA0) && (s[0] == 0xED ==> s[1] < 0xA0)
    ensures Scalar(Decode(s)) && Encode(Decode(s)) == s[..3]
  {
    Payload3(s[0] - 0xE0, s[1] - 0x80, s[2] - 0x80);
  }

  lemma Accepted4(s: Bytes)
    requires |s| >= 4 && 0xF0 <= s[0] <= 0xF4 && 0x80 <= s[1] <= 0xBF && 0x80 <= s[2] <= 0xBF && 0x80 <= s[3] <= 0xBF
    requires (s[0] == 0xF0 ==> s[1] >= 0x90) && (s[0] == 0xF4 ==> s[1] < 0x90)
    ensures Scalar(Decode(s)) && Encode(Decode(s)) == s[..4]
  {
    Payload4(s[0] - 0xF0, s[1] - 0x80, s[2] - 0x80, s[3] - 0x80);
  }

  /** Every accepted character is the encoding of a scalar value ... */
  lemma AcceptedIsEncoding(s: Bytes)
    requires IsBytes(s) && Accepts(s)
    ensures Scalar(Decode(s)) && Encode(Decode(s)) <= s && |Encode(Decode(s))| == Size(s[0])
  {
    hide Size, Accepts;
    AcceptedRanges(s);
    var k := Size(s[0]);
    if k == 1 { assert Decode(s) == s[0]; }
    else {
      hide Decode, Encode, Scalar;
      if k == 2 { Accepted2(s); } else if k == 3 { Accepted3(s); } else { Accepted4(s); }
    }
  }

  /** The ranges of the bytes of an encoding. */
  lemma EncodingRanges(cp: int)
    requires Scalar(cp)
    ensures var e := Encode(cp);
      && 1 <= |e| <= 4 && (|e| == 1 ==> e[0] < 0x80) && (|e| == 2 ==> 0xC2 <= e[0] < 0xE0) &&
        (|e| == 3 ==> 0xE0 <= e[0] < 0xF0)
      && (|e| == 4 ==> 0xF0 <= e[0] <= 0xF4) && (forall j :: 1 <= j < |e| ==> 0x80 <= e[j] <= 0xBF)
      && (e[0] == 0xE0 ==> e[1] >= 0xA0) && (e[0] == 0xED ==> e[1] < 0xA0) && (e[0] == 0xF0 ==> e[1] >= 0x90) &&
        (e[0] == 0xF4 ==> e[1] < 0x90)
  {
  }

  /** ... and every encoding is accepted, with its own length. */
  lemma EncodingIsAccepted(cp: int, s: Bytes)
    requires IsBytes(s) && Scalar(cp) && Encode(cp) <= s
    ensures Accepts(s) && Size(s[0]) == |Encode(cp)|
  {
    hide And, Encode, Scalar;
    var e := Encode(cp);
    EncodingRanges(cp);
    forall j | 0 <= j < |e|
      ensures s[j] == e[j]
    {
    }
    Masks(s[0]);
    forall j | 1 <= j < |e|
      ensures Continues(s[j])
    {
      Masks(s[j]);
    }
    if |e| >= 2 { Exclusions(s[1]); }
  }

  // ----- whole strings

  /** A nonempty string is well-formed exactly if the validator accepts its first character and the
      rest is well-formed. */
  lemma FirstCharacter(s: Bytes)
    requires IsBytes(s) && s != []
    ensures WellFormed(s) <==> Accepts(s) && WellFormed(s[Size(s[0])..])
  {
    hide Size, Decode, Encode, Continues, Excluded;
    if WellFormed(s) {
      var cps :| Encodes(cps, s);
      EncodingIsAccepted(cps[0], s);
      assert Encodes(cps[1..], s[Size(s[0])..]);
    }
    if Accepts(s) && WellFormed(s[Size(s[0])..]) {
      AcceptedIsEncoding(s);
      var cps :| Encodes(cps, s[Size(s[0])..]);
      var all := [Decode(s)] + cps;
      assert all[1..] == cps;
      assert Encodes(all, s);
    }
  }

  ghost predicate CString(s: Bytes) {
    IsBytes(s) && s != [] && s[|s| - 1] == 0 && forall i :: 0 <= i < |s| - 1 ==> s[i] != 0
  }

  lemma NulEnds()
    ensures !Continues(0)
  {
  }

  /** Are all of `s[i + 1..i + k]` continuation bytes?  Reading stops at the first that is not. */
  method Continuations(s: Bytes, i: nat, k: nat) returns (ok: bool)
    requires CString(s) && i + 1 < |s| && k >= 1
    ensures ok <==> k <= |s| - 1 - i && forall m :: i < m < i + k ==> Continues(s[m])
  {
    hide Continues;
    NulEnds();
    var j := 1;
    while j < k
      invariant 1 <= j <= k && i + j < |s| && forall m :: i < m < i + j ==> Continues(s[m])
    {
      if !Continues(s[i + j]) { return false; }
      assert i + j < |s| - 1;
      j := j + 1;
    }
    return true;
  }

  /** What the tests at position `i` of the string say about the rest of it. */
  lemma Tested(s: Bytes, i: nat)
    requires CString(s) && i + 1 < |s|
    ensures var rest, k := s[..|s| - 1][i..], Size(s[i]);
      Accepts(rest) <==>
          && 1 <= k <= |s| - 1 - i && (forall m :: i < m < i + k ==> Continues(s[m]))
          && (k > 1 ==> !Excluded(s[i], s[i + 1]))
  {
    hide Continues, Excluded, Size;
    var rest, k := s[..|s| - 1][i..], Size(s[i]);
    forall m | i < m < |s| - 1
      ensures s[m] == rest[m - i]
    {
    }
    forall j | 0 <= j < |rest|
      ensures rest[j] == s[i + j]
    {
    }
  }

  /** `validate_utf8`: the length of a well-formed string, -1 for any other.  No byte after the
      terminator is read. */
  method ValidateUtf8(s: Bytes) returns (r: int)
    requires CString(s)
    ensures r == if WellFormed(s[..|s| - 1]) then |s| - 1 else -1
  {
    hide And, WellFormed, Continues, Accepts, Size, Excluded;
    ghost var text := s[..|s| - 1];
    var i := 0;
    assert text[0..] == text;
    while true
      invariant 0 <= i < |s| && (WellFormed(text) <==> WellFormed(text[i..]))
      decreases |s| - i
    {
      var c := s[i];
      if c == 0 { break; }
      ghost var rest := text[i..];
      FirstCharacter(rest);
      Tested(s, i);
      var k := Size(c);
      if k == 0 { return -1; }
      if k > 1 && Excluded(c, s[i + 1]) { return -1; }
      var ok := Continuations(s, i, k);
      if !ok { return -1; }
      assert rest[k..] == text[i + k..];
      i := i + k;
    }
    NoCharacters();
    assert text[i..] == [];
    return i;
  }

  lemma NoCharacters()
    ensures WellFormed([])
  {
    assert Encodes([], []);
  }
}
