/** The few functions of Go's `strings` package that the models use. */
module Strings {
  import opened Basics

  /** `unicode.IsSpace`. */
  predicate IsSpace(c: char) {
    c in {' ', '\t', '\n', '\U{0B}', '\U{0C}', '\r', '\U{85}', '\U{A0}', '\U{1680}', '\U{2028}', '\U{2029}',
          '\U{202F}', '\U{205F}', '\U{3000}'} || '\U{2000}' <= c <= '\U{200A}'
  }

  function TrimLeft(s: string): string {
    if s != "" && IsSpace(s[0]) then TrimLeft(s[1..]) else s
  }

  function TrimRight(s: string): string {
    if s != "" && IsSpace(s[|s| - 1]) then TrimRight(s[..|s| - 1]) else s
  }

  /** `strings.TrimSpace`. */
  function Trim(s: string): string {
    TrimRight(TrimLeft(s))
  }

  predicate Trimmed(s: string) {
    s != "" ==> !IsSpace(s[0]) && !IsSpace(s[|s| - 1])
  }

  lemma {:induction false} TrimRightKeepsStart(s: string)
    ensures TrimRight(s) == "" || TrimRight(s)[0] == s[0]
    ensures TrimRight(s) == "" || !IsSpace(TrimRight(s)[|TrimRight(s)| - 1])
  {
    if s != "" && IsSpace(s[|s| - 1]) {
      TrimRightKeepsStart(s[..|s| - 1]);
    }
  }

  lemma {:induction false} TrimLeftTrims(s: string)
    ensures TrimLeft(s) == "" || !IsSpace(TrimLeft(s)[0])
  {
    if s != "" && IsSpace(s[0]) {
      TrimLeftTrims(s[1..]);
    }
  }

  lemma TrimTrims(s: string)
    ensures Trimmed(Trim(s)) && Trim(Trim(s)) == Trim(s)
  {
    TrimLeftTrims(s);
    TrimRightKeepsStart(TrimLeft(s));
  }

  predicate HasPrefix(s: string, p: string) {
    p <= s
  }

  predicate HasSuffix(s: string, p: string) {
    |p| <= |s| && s[|s| - |p|..] == p
  }

  predicate OccursAt(s: string, sub: string, i: nat) {
    i + |sub| <= |s| && s[i..i + |sub|] == sub
  }

  /** `strings.Index`: the first occurrence. */
  function Index(s: string, sub: string): (r: Option<nat>)
    ensures r.Some? ==> OccursAt(s, sub, r.value) && forall i: nat | i < r.value :: !OccursAt(s, sub, i)
    ensures r.None? ==> forall i: nat :: !OccursAt(s, sub, i)
  {
    IndexFrom(s, sub, 0)
  }

  function IndexFrom(s: string, sub: string, from: nat): (r: Option<nat>)
    requires from <= |s| + 1 && forall i: nat | i < from :: !OccursAt(s, sub, i)
    ensures r.Some? ==> OccursAt(s, sub, r.value) && forall i: nat | i < r.value :: !OccursAt(s, sub, i)
    ensures r.None? ==> forall i: nat :: !OccursAt(s, sub, i)
    decreases |s| + 1 - from
  {
    if from > |s| then None
    else if OccursAt(s, sub, from) then Some(from)
    else IndexFrom(s, sub, from + 1)
  }

  /** `strings.Split` by a one-character separator. */
  function Split(s: string, sep: char): (parts: seq<string>)
    ensures parts != []
  {
    if s == "" then [""]
    else
      var rest := Split(s[1..], sep);
      if s[0] == sep then [""] + rest else [[s[0]] + rest[0]] + rest[1..]
  }

  lemma {:induction false} SplitCount(s: string, sep: char)
    ensures |Split(s, sep)| > 1 <==> sep in s
    ensures sep !in s ==> Split(s, sep) == [s]
    decreases |s|
  {
    if s != "" {
      SplitCount(s[1..], sep);
      assert s == [s[0]] + s[1..];
    }
  }

  /** How `Split` goes on from the character before it. */
  function Grow(c: char, sep: char, rest: seq<string>): seq<string>
    requires rest != []
  {
    if c == sep then [""] + rest else [[c] + rest[0]] + rest[1..]
  }

  lemma GrowFront(c: char, sep: char, rest: seq<string>, back: seq<string>)
    requires rest != []
    ensures Grow(c, sep, rest + back) == Grow(c, sep, rest) + back
  {
    assert (rest + back)[0] == rest[0] && (rest + back)[1..] == rest[1..] + back;
  }

  /** A separator between two texts splits them. */
  lemma {:induction false} SplitJoin(x: string, sep: char, y: string)
    ensures Split(x + [sep] + y, sep) == Split(x, sep) + Split(y, sep)
    decreases |x|
  {
    if x == "" {
      assert x + [sep] + y == [sep] + y;
    } else {
      var rest := x[1..];
      assert x == [x[0]] + rest && x + [sep] + y == [x[0]] + (rest + [sep] + y);
      SplitJoin(rest, sep, y);
      GrowFront(x[0], sep, Split(rest, sep), Split(y, sep));
    }
  }

  /** `len` of a Go string, which counts the bytes of its UTF-8 encoding. */
  function Bytes(s: string): (n: nat)
    ensures n >= |s|
  {
    if s == "" then 0
    else
      var c := s[|s| - 1];
      Bytes(s[..|s| - 1]) + if c < '\U{80}' then 1 else if c < '\U{800}' then 2 else if c < '\U{10000}' then 3 else 4
  }

  /** Lower case of the ASCII letters. */
  function ToLower(s: string): string {
    seq(|s|, i requires 0 <= i < |s| => if 'A' <= s[i] <= 'Z' then (s[i] as int + 32) as char else s[i])
  }
}
