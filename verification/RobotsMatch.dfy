/**
  Matching a path against a robots.txt pattern: the greedy loop of the program against the declarative meaning of `*`
  (any run) and a final `$` (end of path), as in section 2.2.3 of RFC 9309.
*/
module RobotsMatch {
  import opened Basics
  import opened Strings

  // The meaning

  /** The pattern matches a prefix of the path, or all of it when anchored. */
  ghost predicate Matches(pattern: string, path: string, anchored: bool)
    decreases |pattern|
  {
    if pattern == "" then !anchored || path == ""
    else if pattern[0] == '*' then exists k | 0 <= k <= |path| :: Matches(pattern[1..], path[k..], anchored)
    else path != "" && path[0] == pattern[0] && Matches(pattern[1..], path[1..], anchored)
  }

  // The program

  /** What is left of the path after the greedy placement of the parts, or None. Empty parts are skipped; the first
      part that is not empty must come at once. */
  function Place(parts: seq<string>, first: bool, rest: string): Option<string>
    decreases |parts|
  {
    if parts == [] then Some(rest)
    else if parts[0] == "" then Place(parts[1..], first, rest)
    else if first then
      if HasPrefix(rest, parts[0]) then Place(parts[1..], false, rest[|parts[0]|..]) else None
    else
      match Index(rest, parts[0])
      case None => None
      case Some(i) => Place(parts[1..], false, rest[i + |parts[0]|..])
  }

  function Wildcard(path: string, pattern: string, endAnchor: bool): bool {
    if pattern == "" then !endAnchor || path == ""
    else if pattern == "*" then true
    else
      var left := Place(Split(pattern, '*'), true, path);
      left.Some? && (endAnchor ==> left.value == "")
  }

  method MatchWildcard(urlPath: string, pattern: string, endAnchor: bool) returns (r: bool)
    ensures r == Wildcard(urlPath, pattern, endAnchor)
  {
    if pattern == "" {
      return !endAnchor || urlPath == "";
    }
    if pattern == "*" {
      return true;
    }
    var parts := Split(pattern, '*');
    var pos, firstPart := 0, true;
    for n := 0 to |parts|
      invariant Placing(parts, n, firstPart, urlPath, pos)
    {
      var part := parts[n];
      if part == "" {
        continue;
      }
      if firstPart {
        if !HasPrefix(urlPath, part) {
          return false;
        }
        pos := |part|;
        firstPart := false;
      } else {
        var idx := Index(urlPath[pos..], part);
        if idx.None? {
          return false;
        }
        pos := pos + idx.value + |part|;
      }
    }
    if endAnchor && pos != |urlPath| {
      return false;
    }
    r := true;
  }

  /** `n` parts are placed, and the rest of the path starts at `pos`. */
  ghost predicate Placing(parts: seq<string>, n: nat, first: bool, path: string, pos: int) {
    && n <= |parts| && 0 <= pos <= |path| && (first ==> pos == 0)
    && Place(parts, true, path) == Place(parts[n..], first, path[pos..])
  }

  // The meaning in terms of parts

  /** The parts come in order without overlap, the first one at once; anchored, the last one ends the text. */
  ghost predicate InOrder(parts: seq<string>, text: string, anchored: bool)
    requires parts != []
    decreases |parts|, 0
  {
    parts[0] <= text && SomewhereAfter(parts[1..], text[|parts[0]|..], anchored)
  }

  ghost predicate SomewhereAfter(parts: seq<string>, text: string, anchored: bool)
    decreases |parts|, 1
  {
    if parts == [] then !anchored || text == ""
    else exists k | 0 <= k <= |text| :: InOrder(parts, text[k..], anchored)
  }

  lemma {:induction false} MatchesByParts(pattern: string, path: string, anchored: bool)
    ensures Matches(pattern, path, anchored) <==> InOrder(Split(pattern, '*'), path, anchored)
    decreases |pattern|
  {
    if pattern != "" {
      var parts, rest := Split(pattern, '*'), Split(pattern[1..], '*');
      if pattern[0] == '*' {
        assert parts[1..] == rest && path[0..] == path;
        forall k | 0 <= k <= |path|
          ensures Matches(pattern[1..], path[k..], anchored) <==> InOrder(rest, path[k..], anchored)
        {
          MatchesByParts(pattern[1..], path[k..], anchored);
        }
      } else {
        assert parts[1..] == rest[1..];
        if path != "" {
          MatchesByParts(pattern[1..], path[1..], anchored);
          assert parts[0] <= path <==> path[0] == pattern[0] && rest[0] <= path[1..];
          if parts[0] <= path {
            assert path[|parts[0]|..] == path[1..][|rest[0]|..];
          }
        }
      }
    }
  }

  // Soundness

  lemma FoundInOrder(parts: seq<string>, rest: string, i: nat, anchored: bool)
    requires parts != [] && OccursAt(rest, parts[0], i)
    requires SomewhereAfter(parts[1..], rest[i + |parts[0]|..], anchored)
    ensures SomewhereAfter(parts, rest, anchored)
  {
    var text := rest[i..];
    assert parts[0] == text[..|parts[0]|];
    assert InOrder(parts, rest[i..], anchored);
  }

  lemma {:induction false} PlacedIsInOrder(parts: seq<string>, rest: string, anchored: bool)
    requires Place(parts, false, rest).Some? && (anchored ==> Place(parts, false, rest).value == "")
    ensures SomewhereAfter(parts, rest, anchored)
    decreases |parts|
  {
    if parts != [] {
      var i := if parts[0] == "" then 0 else Index(rest, parts[0]).value;
      assert rest[0..] == rest;
      PlacedIsInOrder(parts[1..], rest[i + |parts[0]|..], anchored);
      FoundInOrder(parts, rest, i, anchored);
    }
  }

  lemma {:induction false} FirstPlacedIsInOrder(parts: seq<string>, path: string, anchored: bool)
    requires parts != []
    requires Place(parts, true, path).Some? && (anchored ==> Place(parts, true, path).value == "")
    ensures InOrder(parts, path, anchored)
    decreases |parts|
  {
    if parts[0] == "" {
      assert path[0..] == path;
      if |parts| > 1 {
        FirstPlacedIsInOrder(parts[1..], path, anchored);
        assert InOrder(parts[1..], path[0..], anchored);
      }
    } else {
      PlacedIsInOrder(parts[1..], path[|parts[0]|..], anchored);
    }
  }

  /** Whatever the pattern, with or without `$`: what the program matches does match. */
  lemma WildcardSound(path: string, pattern: string, endAnchor: bool)
    requires Wildcard(path, pattern, endAnchor)
    ensures Matches(pattern, path, endAnchor)
  {
    if pattern == "*" {
      assert path[|path|..] == "" && Matches("", path[|path|..], endAnchor);
    } else if pattern != "" {
      FirstPlacedIsInOrder(Split(pattern, '*'), path, endAnchor);
      MatchesByParts(pattern, path, endAnchor);
    }
  }

  // Completeness without `$`

  /** A text with room for the parts has room for them when it is longer at the front. */
  lemma {:induction false} MoreRoom(parts: seq<string>, text: string, k: nat)
    requires k <= |text| && SomewhereAfter(parts, text[k..], false)
    ensures SomewhereAfter(parts, text, false)
  {
    if parts != [] {
      var j :| 0 <= j <= |text[k..]| && InOrder(parts, text[k..][j..], false);
      assert text[k..][j..] == text[k + j..];
    }
  }

  /** The exchange argument: the leftmost place for a part leaves the most room for the others. */
  lemma {:induction false} LeftmostIsBest(parts: seq<string>, rest: string, k: nat) returns (i: nat)
    requires parts != [] && parts[0] != "" && k <= |rest| && InOrder(parts, rest[k..], false)
    ensures Index(rest, parts[0]) == Some(i) && i + |parts[0]| <= |rest|
    ensures SomewhereAfter(parts[1..], rest[i + |parts[0]|..], false)
  {
    var p := parts[0];
    PrefixOccurs(rest, p, k);
    i := Index(rest, p).value;
    MoreRoom(parts[1..], rest[i + |p|..], k - i);
  }

  /** One step of the placement keeps room for the parts that are left. */
  lemma {:induction false} PlaceOne(parts: seq<string>, rest: string, k: nat) returns (left: string)
    requires parts != [] && k <= |rest| && InOrder(parts, rest[k..], false)
    ensures SomewhereAfter(parts[1..], left, false)
    ensures Place(parts, false, rest) == Place(parts[1..], false, left)
  {
    if parts[0] == "" {
      left := rest;
    } else {
      var i := LeftmostIsBest(parts, rest, k);
      left := rest[i + |parts[0]|..];
    }
  }

  lemma {:induction false} GreedyFinds(parts: seq<string>, rest: string)
    requires SomewhereAfter(parts, rest, false)
    ensures Place(parts, false, rest).Some?
    decreases |parts|
  {
    if parts != [] {
      var k :| 0 <= k <= |rest| && InOrder(parts, rest[k..], false);
      var left := PlaceOne(parts, rest, k);
      GreedyFinds(parts[1..], left);
    }
  }

  lemma PrefixOccurs(text: string, p: string, k: nat)
    requires k <= |text| && p <= text[k..]
    ensures OccursAt(text, p, k)
  {
    assert text[k..k + |p|] == text[k..][..|p|];
  }

  function StripStars(pattern: string): string {
    if pattern != "" && pattern[0] == '*' then StripStars(pattern[1..]) else pattern
  }

  predicate AllStars(pattern: string) {
    forall i | 0 <= i < |pattern| :: pattern[i] == '*'
  }

  lemma {:induction false} PlaceStripped(pattern: string, path: string)
    ensures StripStars(pattern) == "" || StripStars(pattern)[0] != '*'
    ensures StripStars(pattern) == "" <==> AllStars(pattern)
    ensures Place(Split(pattern, '*'), true, path) == Place(Split(StripStars(pattern), '*'), true, path)
    decreases |pattern|
  {
    if pattern != "" && pattern[0] == '*' {
      PlaceStripped(pattern[1..], path);
      assert Split(pattern, '*')[1..] == Split(pattern[1..], '*');
      assert AllStars(pattern) <==> AllStars(pattern[1..]) by {
        assert forall i | 0 <= i < |pattern[1..]| :: pattern[1..][i] == pattern[i + 1];
        assert forall i | 0 < i < |pattern| :: pattern[i] == pattern[1..][i - 1];
      }
    }
  }

  lemma FirstPart(pattern: string)
    requires pattern != "" && pattern[0] != '*'
    ensures Split(pattern, '*')[0] != "" && Split(pattern, '*')[0][0] == pattern[0]
  {
  }

  /** Without `$` the program decides exactly the pattern without its leading stars: they do not float. */
  lemma WildcardExact(path: string, pattern: string)
    ensures Wildcard(path, pattern, false) <==> Matches(StripStars(pattern), path, false)
  {
    var core := StripStars(pattern);
    PlaceStripped(pattern, path);
    if core == "" {
      assert Split("", '*') == [""];
      assert Place([""], true, path) == Place([""][1..], true, path) == Some(path);
    } else {
      var parts := Split(core, '*');
      FirstPart(core);
      MatchesByParts(core, path, false);
      if InOrder(parts, path, false) {
        GreedyFinds(parts[1..], path[|parts[0]|..]);
      }
      if Place(parts, true, path).Some? {
        FirstPlacedIsInOrder(parts, path, false);
      }
    }
  }

  // When it is exact

  /** The pattern with every star standing for nothing. */
  function Joined(parts: seq<string>): string {
    if parts == [] then "" else parts[0] + Joined(parts[1..])
  }

  /** What follows an occurrence of `p` no later than the one after `before`. */
  lemma Remainder(text: string, before: string, p: string, after: string, i: nat)
    requires text == before + p + after && i <= |before|
    ensures text[i + |p|..] == text[i + |p|..|before| + |p|] + after
  {
    var cut := |before| + |p|;
    assert text[..cut] + text[cut..] == text && text[cut..] == after;
  }

  lemma {:induction false} GreedyLeaves(parts: seq<string>, before: string, after: string)
    ensures var left := Place(parts, false, before + Joined(parts) + after); left.Some? && |left.value| >= |after|
    decreases |parts|
  {
    if parts != [] {
      var p, tail := parts[0], Joined(parts[1..]) + after;
      var text := before + p + tail;
      assert before + Joined(parts) + after == text;
      if p == "" {
        GreedyLeaves(parts[1..], before, after);
        assert text == before + Joined(parts[1..]) + after;
      } else {
        LeftmostLeaves(parts, before, after, text);
      }
    }
  }

  lemma {:induction false} LeftmostLeaves(parts: seq<string>, before: string, after: string, text: string)
    requires parts != [] && parts[0] != "" && text == before + parts[0] + (Joined(parts[1..]) + after)
    ensures Place(parts, false, text).Some? && |Place(parts, false, text).value| >= |after|
    decreases |parts|, 0
  {
    var p, rest := parts[0], Joined(parts[1..]);
    assert text[|before|..] == p + (rest + after);
    PrefixOccurs(text, p, |before|);
    var i := Index(text, p).value;
    Remainder(text, before, p, rest + after, i);
    var before' := text[i + |p|..|before| + |p|];
    Regroup(before', rest, after);
    GreedyLeaves(parts[1..], before', after);
  }

  lemma PlaceFirst(parts: seq<string>, rest: string)
    requires parts != [] && parts[0] != ""
    ensures Place(parts, true, parts[0] + rest) == Place(parts[1..], false, rest)
  {
    var text := parts[0] + rest;
    assert parts[0] <= text && text[|parts[0]|..] == rest;
  }

  lemma {:induction false} GreedyLeavesFirst(parts: seq<string>, after: string)
    requires parts != [] && parts[0] != ""
    ensures var left := Place(parts, true, Joined(parts) + after); left.Some? && |left.value| >= |after|
  {
    var rest := Joined(parts[1..]);
    GreedyLeaves(parts[1..], "", after);
    assert "" + rest + after == rest + after;
    PlaceFirst(parts, rest + after);
    Regroup(parts[0], rest, after);
  }

  /** The last star can stand for a copy of the last part, or for anything when it is at the end. */
  lemma {:induction false} LastStarAbsorbs(parts: seq<string>, extra: string)
    requires parts != [] && (parts[|parts| - 1] == extra || parts[|parts| - 1] == "")
    ensures SomewhereAfter(parts, Joined(parts) + extra, true)
    decreases |parts|
  {
    if |parts| == 1 {
      LastPartAbsorbs(parts, extra);
    } else {
      LastStarAbsorbs(parts[1..], extra);
      FirstFits(parts, Joined(parts[1..]) + extra);
      Regroup(parts[0], Joined(parts[1..]), extra);
    }
  }

  lemma LastPartAbsorbs(parts: seq<string>, extra: string)
    requires |parts| == 1 && (parts[0] == extra || parts[0] == "")
    ensures SomewhereAfter(parts, Joined(parts) + extra, true)
  {
    var text, p := Joined(parts) + extra, parts[0];
    assert Joined(parts) == p + "" == p;
    assert text[|extra|..] == p && p[|p|..] == "";
    assert InOrder(parts, text[|extra|..], true);
  }

  lemma FirstFits(parts: seq<string>, rest: string)
    requires parts != [] && SomewhereAfter(parts[1..], rest, true)
    ensures SomewhereAfter(parts, parts[0] + rest, true)
  {
    var text := parts[0] + rest;
    assert text[|parts[0]|..] == rest && text[0..] == text;
    assert InOrder(parts, text[0..], true);
  }

  /** Anchored, a pattern with a star that does not lead is wrong about the path that repeats its last part. */
  lemma AnchoredStarFails(pattern: string) returns (path: string)
    requires pattern != "" && pattern[0] != '*' && '*' in pattern
    ensures path != "" && path[0] == pattern[0]
    ensures Matches(pattern, path, true) && !Wildcard(path, pattern, true)
  {
    var parts := Split(pattern, '*');
    var last := parts[|parts| - 1];
    var extra := if last == "" then "a" else last;
    SplitCount(pattern, '*');
    FirstPart(pattern);
    path := Joined(parts) + extra;
    GreedyLeavesFirst(parts, extra);
    RepeatedLastFits(parts, extra);
    MatchesByParts(pattern, path, true);
  }

  lemma {:induction false} RepeatedLastFits(parts: seq<string>, extra: string)
    requires |parts| > 1 && (parts[|parts| - 1] == extra || parts[|parts| - 1] == "")
    ensures InOrder(parts, Joined(parts) + extra, true)
  {
    LastStarAbsorbs(parts[1..], extra);
    assert (Joined(parts) + extra)[|parts[0]|..] == Joined(parts[1..]) + extra;
  }

  lemma {:induction false} JoinedMatches(parts: seq<string>, anchored: bool)
    requires parts != []
    ensures InOrder(parts, Joined(parts), anchored)
    decreases |parts|
  {
    var text := Joined(parts);
    assert text[|parts[0]|..] == Joined(parts[1..]);
    if |parts| > 1 {
      JoinedMatches(parts[1..], anchored);
      assert Joined(parts[1..])[0..] == Joined(parts[1..]);
      assert InOrder(parts[1..], Joined(parts[1..])[0..], anchored);
    }
  }

  /** A leading star that is followed by some text is wrong about a path that starts with something else. */
  lemma LeadingStarFails(pattern: string, anchored: bool) returns (path: string)
    requires pattern != "" && pattern[0] == '*' && !AllStars(pattern)
    ensures Matches(pattern, path, anchored) && !Wildcard(path, pattern, anchored)
  {
    var core, rest := StripStars(pattern), pattern[1..];
    PlaceStripped(pattern, "");
    var c := if core[0] == 'a' then 'b' else 'a';
    path := [c] + Joined(Split(rest, '*'));
    assert path[1..] == Joined(Split(rest, '*'));
    JoinedMatches(Split(rest, '*'), anchored);
    MatchesByParts(rest, path[1..], anchored);
    assert Matches(pattern[1..], path[1..], anchored);
    PlaceStripped(pattern, path);
    FirstPart(core);
  }

  lemma {:induction false} AllStarsMatch(pattern: string, path: string, anchored: bool)
    requires AllStars(pattern) && pattern != ""
    ensures Matches(pattern, path, anchored)
    decreases |pattern|
  {
    if |pattern| == 1 {
      assert path[|path|..] == "" && Matches(pattern[1..], path[|path|..], anchored);
    } else {
      assert forall i | 0 <= i < |pattern[1..]| :: pattern[1..][i] == pattern[i + 1];
      AllStarsMatch(pattern[1..], path[0..], anchored);
      assert Matches(pattern[1..], path[0..], anchored);
    }
  }

  lemma {:induction false} Starless(pattern: string, path: string, anchored: bool)
    requires '*' !in pattern
    ensures Matches(pattern, path, anchored) <==> pattern <= path && (anchored ==> pattern == path)
    ensures Split(pattern, '*') == [pattern]
    decreases |pattern|
  {
    if pattern != "" {
      Starless(pattern[1..], if path == "" then path else path[1..], anchored);
      assert pattern == [pattern[0]] + pattern[1..];
      if path != "" && pattern[0] == path[0] {
        assert path == [path[0]] + path[1..];
      }
    }
  }

  /** Which patterns the program gets right on every path. */
  predicate ExactWildcard(pattern: string, endAnchor: bool) {
    if endAnchor then '*' !in pattern || pattern == "*"
    else pattern == "" || pattern[0] != '*' || AllStars(pattern)
  }

  lemma WildcardExactIff(pattern: string, endAnchor: bool)
    ensures (forall path :: Wildcard(path, pattern, endAnchor) == Matches(pattern, path, endAnchor))
            <==> ExactWildcard(pattern, endAnchor)
  {
    if ExactWildcard(pattern, endAnchor) {
      forall path ensures Wildcard(path, pattern, endAnchor) == Matches(pattern, path, endAnchor) {
        ExactOn(path, pattern, endAnchor);
      }
    } else {
      var path := WrongOn(pattern, endAnchor);
    }
  }

  lemma ExactOn(path: string, pattern: string, endAnchor: bool)
    requires ExactWildcard(pattern, endAnchor)
    ensures Wildcard(path, pattern, endAnchor) == Matches(pattern, path, endAnchor)
  {
    if pattern == "*" {
      AllStarsMatch(pattern, path, endAnchor);
    } else if endAnchor {
      Starless(pattern, path, true);
      assert Split(pattern, '*') == [pattern];
      if pattern != "" {
        assert Place([pattern], true, path) ==
               if pattern <= path then Place([pattern][1..], false, path[|pattern|..]) else None;
      }
    } else {
      WildcardExact(path, pattern);
      PlaceStripped(pattern, path);
      if pattern != "" && AllStars(pattern) {
        AllStarsMatch(pattern, path, false);
      }
    }
  }

  lemma WrongOn(pattern: string, endAnchor: bool) returns (path: string)
    requires !ExactWildcard(pattern, endAnchor)
    ensures Wildcard(path, pattern, endAnchor) != Matches(pattern, path, endAnchor)
  {
    if pattern[0] != '*' {
      path := AnchoredStarFails(pattern);
    } else if AllStars(pattern) {
      path := "a";
      AllStarsMatch(pattern, path, true);
      PlaceStripped(pattern, path);
      assert Split("", '*') == [""] && Place([""], true, path) == Place([""][1..], true, path);
    } else {
      path := LeadingStarFails(pattern, endAnchor);
    }
  }

  // A whole rule

  /** The meaning of a rule's pattern: a final `$` anchors it. */
  ghost predicate RuleMeans(pattern: string, path: string) {
    if HasSuffix(pattern, "$") then Matches(pattern[..|pattern| - 1], path, true) else Matches(pattern, path, false)
  }

  function RuleMatches(path: string, pattern: string): bool {
    if pattern == "" then true
    else
      var endAnchor := HasSuffix(pattern, "$");
      var body := if endAnchor then pattern[..|pattern| - 1] else pattern;
      if '*' in body then Wildcard(path, body, endAnchor)
      else if endAnchor then path == body
      else body <= path && (HasSuffix(body, "/") || |path| == |body| || path[|body|] == '/')
  }

  method MatchRule(urlPath: string, pattern: string) returns (r: bool)
    ensures r == RuleMatches(urlPath, pattern)
  {
    if pattern == "" {
      return true;
    }
    var endAnchor, body := false, pattern;
    if HasSuffix(pattern, "$") {
      endAnchor := true;
      body := pattern[..|pattern| - 1];
    }
    if '*' in body {
      r := MatchWildcard(urlPath, body, endAnchor);
      return;
    }
    if endAnchor {
      return urlPath == body;
    }
    if !HasPrefix(urlPath, body) {
      return false;
    }
    if HasSuffix(body, "/") {
      return true;
    }
    var nextIdx := |body|;
    if nextIdx < |urlPath| && urlPath[nextIdx] != '/' {
      return false;
    }
    r := true;
  }

  /** A rule never matches a path that its pattern does not. */
  lemma RuleSound(path: string, pattern: string)
    requires RuleMatches(path, pattern)
    ensures RuleMeans(pattern, path)
  {
    var endAnchor := HasSuffix(pattern, "$");
    var body := if endAnchor then pattern[..|pattern| - 1] else pattern;
    if '*' in body {
      WildcardSound(path, body, endAnchor);
    } else {
      Starless(body, path, endAnchor);
    }
  }

  /** The patterns that mean to the program what they mean: plain ones end in `/` or `$`, a star neither leads nor goes
      together with `$`. */
  predicate ExactRule(pattern: string) {
    var endAnchor := HasSuffix(pattern, "$");
    var body := if endAnchor then pattern[..|pattern| - 1] else pattern;
    pattern == "" || (if '*' in body then ExactWildcard(body, endAnchor) else endAnchor || HasSuffix(body, "/"))
  }

  lemma RuleExactIff(pattern: string)
    ensures (forall path :: RuleMatches(path, pattern) == RuleMeans(pattern, path)) <==> ExactRule(pattern)
  {
    var endAnchor := HasSuffix(pattern, "$");
    var body := if endAnchor then pattern[..|pattern| - 1] else pattern;
    if '*' in body {
      WildcardExactIff(body, endAnchor);
      if !ExactRule(pattern) {
        var path := WrongOn(body, endAnchor);
        assert RuleMatches(path, pattern) != RuleMeans(pattern, path);
      }
    } else if ExactRule(pattern) {
      forall path ensures RuleMatches(path, pattern) == RuleMeans(pattern, path) {
        Starless(body, path, endAnchor);
      }
    } else {
      var path := pattern + "a";
      Starless(body, path, false);
      assert path[|pattern|] == 'a';
      assert RuleMatches(path, pattern) != RuleMeans(pattern, path);
    }
  }
}
