/**
  Which robots.txt patterns the program gets right on the paths it really sees: `IsAllowed` roots every path first, so
  only paths that start with `/` count.
*/
module RobotsRooted {
  import opened Basics
  import opened Strings
  import opened RobotsMatch
  import opened RobotsSelect

  predicate Rooted(path: string) {
    path != "" && path[0] == '/'
  }

  /** The first part of a pattern that is not empty. */
  function Head(pattern: string): string {
    Split(StripStars(pattern), '*')[0]
  }

  /** A star in front is harmless only when all that follows up to the next star is the root itself. With a star and
      `$` only `*$` is left; patterns that no rooted path can match are right about all of them. */
  predicate ExactWildcardRooted(pattern: string, endAnchor: bool) {
    if pattern == "" || pattern == "*" then true
    else if pattern[0] == '*' then !endAnchor && (AllStars(pattern) || Head(pattern) == "/")
    else !endAnchor || '*' !in pattern || pattern[0] != '/'
  }

  predicate ExactRuleRooted(pattern: string) {
    var endAnchor := HasSuffix(pattern, "$");
    var body := if endAnchor then pattern[..|pattern| - 1] else pattern;
    if pattern == "" then true
    else if '*' in body then ExactWildcardRooted(body, endAnchor)
    else endAnchor || HasSuffix(body, "/") || body[0] != '/'
  }

  /** Leading stars stand for any start of the path. */
  lemma {:induction false} StarsSkip(pattern: string, path: string, k: nat, anchored: bool)
    requires pattern != "" && pattern[0] == '*' && k <= |path| && Matches(StripStars(pattern), path[k..], anchored)
    ensures Matches(pattern, path, anchored)
    decreases |pattern|
  {
    var rest := pattern[1..];
    if rest != "" && rest[0] == '*' {
      StarsSkip(rest, path, k, anchored);
      assert path[0..] == path && Matches(rest, path[0..], anchored);
    } else {
      assert StripStars(pattern) == rest;
      assert Matches(rest, path[k..], anchored);
    }
  }

  lemma {:induction false} SkippedByStars(pattern: string, path: string, anchored: bool) returns (k: nat)
    requires Matches(pattern, path, anchored)
    ensures k <= |path| && Matches(StripStars(pattern), path[k..], anchored)
    decreases |pattern|
  {
    if pattern != "" && pattern[0] == '*' {
      var j :| 0 <= j <= |path| && Matches(pattern[1..], path[j..], anchored);
      k := SkippedByStars(pattern[1..], path[j..], anchored);
      k := j + k;
    } else {
      k := 0;
      assert path[0..] == path;
    }
  }

  /** A pattern whose first part is the root matches at the root if it matches anywhere. */
  lemma RootFloats(core: string, path: string, k: nat)
    requires Rooted(path) && k <= |path| && Split(core, '*')[0] == "/" && Matches(core, path[k..], false)
    ensures Matches(core, path, false)
  {
    var parts := Split(core, '*');
    MatchesByParts(core, path[k..], false);
    MoreRoom(parts[1..], path[1..], k);
    assert "/" <= path;
    MatchesByParts(core, path, false);
  }

  lemma StarredExact(path: string, pattern: string)
    requires Rooted(path) && pattern != "" && pattern[0] == '*' && Head(pattern) == "/"
    ensures Wildcard(path, pattern, false) == Matches(pattern, path, false)
  {
    var core := StripStars(pattern);
    WildcardExact(path, pattern);
    if Matches(pattern, path, false) {
      var k := SkippedByStars(pattern, path, false);
      RootFloats(core, path, k);
    }
    if Matches(core, path, false) {
      assert path[0..] == path;
      StarsSkip(pattern, path, 0, false);
    }
  }

  lemma ExactOnRooted(path: string, pattern: string, endAnchor: bool)
    requires Rooted(path) && ExactWildcardRooted(pattern, endAnchor)
    ensures Wildcard(path, pattern, endAnchor) == Matches(pattern, path, endAnchor)
  {
    if ExactWildcard(pattern, endAnchor) {
      ExactOn(path, pattern, endAnchor);
    } else if pattern[0] == '*' {
      StarredExact(path, pattern);
    } else if Wildcard(path, pattern, endAnchor) {
      WildcardSound(path, pattern, endAnchor);
    }
  }

  /** After a leading star the text may come later than at the root. */
  lemma LateText(pattern: string, anchored: bool) returns (path: string)
    requires pattern != "" && pattern[0] == '*' && !AllStars(pattern) && Head(pattern) != "/"
    ensures Rooted(path) && Matches(pattern, path, anchored) && !Wildcard(path, pattern, anchored)
  {
    var core, head := StripStars(pattern), Head(pattern);
    PlaceStripped(pattern, "");
    FirstPart(core);
    var c := if |head| > 1 && head[1] == 'a' then 'b' else 'a';
    var text := Joined(Split(core, '*'));
    path := ['/', c] + text;
    assert path[2..] == text;
    JoinedMatches(Split(core, '*'), anchored);
    MatchesByParts(core, text, anchored);
    StarsSkip(pattern, path, 2, anchored);
    PlaceStripped(pattern, path);
    assert !(head <= path);
  }

  /** Anchored, the root after the stars may come again at the end. */
  lemma LateRoot(pattern: string) returns (path: string)
    requires pattern != "" && pattern[0] == '*' && Head(pattern) == "/"
    ensures Rooted(path) && Matches(pattern, path, true) && !Wildcard(path, pattern, true)
  {
    var core := StripStars(pattern);
    PlaceStripped(pattern, "");
    if '*' in core {
      path := AnchoredStarFails(core);
      FirstPart(core);
      assert path[0..] == path;
      StarsSkip(pattern, path, 0, true);
    } else {
      path := "//";
      Starless(core, path[1..], true);
      StarsSkip(pattern, path, 1, true);
      assert Place(["/"], true, path) == Place(["/"][1..], false, path[1..]);
    }
    PlaceStripped(pattern, path);
  }

  lemma WrongOnRooted(pattern: string, endAnchor: bool) returns (path: string)
    requires !ExactWildcardRooted(pattern, endAnchor)
    ensures Rooted(path) && Wildcard(path, pattern, endAnchor) != Matches(pattern, path, endAnchor)
  {
    if pattern[0] != '*' {
      path := AnchoredStarFails(pattern);
    } else if AllStars(pattern) {
      path := "/";
      AllStarsMatch(pattern, path, true);
      PlaceStripped(pattern, path);
      assert Split("", '*') == [""] && Place([""], true, path) == Place([""][1..], true, path);
    } else if Head(pattern) == "/" {
      path := LateRoot(pattern);
    } else {
      path := LateText(pattern, endAnchor);
    }
  }

  /** A rule is right about every path that can reach it, exactly when its pattern is one of those. */
  lemma RuleExactOnRootedIff(pattern: string)
    ensures (forall path | Rooted(path) :: RuleMatches(path, pattern) == RuleMeans(pattern, path))
            <==> ExactRuleRooted(pattern)
  {
    var endAnchor := HasSuffix(pattern, "$");
    var body := if endAnchor then pattern[..|pattern| - 1] else pattern;
    if ExactRuleRooted(pattern) {
      forall path | Rooted(path) ensures RuleMatches(path, pattern) == RuleMeans(pattern, path) {
        RuleRightOn(path, pattern);
      }
    } else {
      var path := RuleWrongOn(pattern);
    }
  }

  lemma RuleRightOn(path: string, pattern: string)
    requires Rooted(path) && ExactRuleRooted(pattern)
    ensures RuleMatches(path, pattern) == RuleMeans(pattern, path)
  {
    var endAnchor := HasSuffix(pattern, "$");
    var body := if endAnchor then pattern[..|pattern| - 1] else pattern;
    if '*' in body {
      ExactOnRooted(path, body, endAnchor);
    } else {
      Starless(body, path, endAnchor);
    }
  }

  lemma RuleWrongOn(pattern: string) returns (path: string)
    requires !ExactRuleRooted(pattern)
    ensures Rooted(path) && RuleMatches(path, pattern) != RuleMeans(pattern, path)
  {
    var endAnchor := HasSuffix(pattern, "$");
    var body := if endAnchor then pattern[..|pattern| - 1] else pattern;
    if '*' in body {
      path := WrongOnRooted(body, endAnchor);
    } else {
      path := pattern + "a";
      Starless(body, path, false);
      assert path[|pattern|] == 'a';
    }
  }

  // The paths that reach a rule

  /** `url.PathUnescape` keeps a leading slash. */
  ghost predicate KeepsRoot(unescape: string -> Option<string>) {
    forall p | Rooted(p) && unescape(p).Some? :: Rooted(unescape(p).value)
  }

  ghost predicate NoneMeant(rules: seq<Rule>, path: string) {
    forall r | r in rules :: !RuleMeans(r.pattern, path)
  }

  /** Of the rules whose pattern means the path, the earliest longest one. */
  ghost predicate IsMeantWinner(rules: seq<Rule>, path: string, i: nat) {
    && i < |rules| && RuleMeans(rules[i].pattern, path)
    && (forall j | 0 <= j < |rules| && RuleMeans(rules[j].pattern, path) ::
          Bytes(rules[j].pattern) <= Bytes(rules[i].pattern))
    && (forall j | 0 <= j < i && RuleMeans(rules[j].pattern, path) ::
          Bytes(rules[j].pattern) < Bytes(rules[i].pattern))
  }

  /** The verdict by the meaning of the patterns: of those that match the path the earliest longest one decides. */
  ghost predicate MeantVerdict(rules: seq<Rule>, path: string) {
    NoneMeant(rules, path) || exists i: nat :: IsMeantWinner(rules, path, i) && rules[i].allowed
  }

  lemma DecodedIsRooted(urlPath: string, unescape: string -> Option<string>)
    requires KeepsRoot(unescape)
    ensures Rooted(Decoded(urlPath, unescape))
    ensures !Rooted(urlPath) ==> Decoded(urlPath, unescape) == Decoded("/" + urlPath, unescape)
    ensures Rooted(urlPath) && unescape(urlPath).Some? ==> Decoded(urlPath, unescape) == unescape(urlPath).value
    ensures Rooted(urlPath) && unescape(urlPath).None? ==> Decoded(urlPath, unescape) == urlPath
  {
  }

  /** With patterns the program gets right, what `IsAllowed` decides is what the patterns mean, on every path. */
  lemma ExactRulesDecide(rules: seq<Rule>, urlPath: string, unescape: string -> Option<string>)
    requires KeepsRoot(unescape) && forall r | r in rules :: ExactRuleRooted(r.pattern)
    ensures var path := Decoded(urlPath, unescape); Verdict(rules, path) == MeantVerdict(rules, path)
  {
    var path := Decoded(urlPath, unescape);
    DecodedIsRooted(urlPath, unescape);
    forall r | r in rules ensures Applies(r, path) == RuleMeans(r.pattern, path) {
      RuleRightOn(path, r.pattern);
    }
  }


  /** The rule that should decide is one that the program misses. */
  ghost predicate Missed(rules: seq<Rule>, path: string, i: nat) {
    IsMeantWinner(rules, path, i) && !Applies(rules[i], path)
  }

  lemma MeantWinnerDecides(rules: seq<Rule>, path: string, i: nat)
    requires IsMeantWinner(rules, path, i)
    ensures MeantVerdict(rules, path) == rules[i].allowed
  {
    assert rules[i] in rules;
    if MeantVerdict(rules, path) {
      var j: nat :| IsMeantWinner(rules, path, j) && rules[j].allowed;
      assert i == j;
    }
  }

  lemma {:induction false} MeantWinnerExists(rules: seq<Rule>, path: string) returns (i: nat)
    requires !NoneMeant(rules, path)
    ensures IsMeantWinner(rules, path, i)
    decreases |rules|
  {
    var n := |rules| - 1;
    var init := rules[..n];
    assert rules == init + [rules[n]];
    if NoneMeant(init, path) {
      i := n;
      assert forall j | 0 <= j < n :: rules[j] in init;
    } else {
      var k := MeantWinnerExists(init, path);
      assert forall j | 0 <= j < n :: init[j] == rules[j];
      i := if RuleMeans(rules[n].pattern, path) && Bytes(rules[n].pattern) > Bytes(rules[k].pattern) then n else k;
    }
  }

  lemma FoundWinner(rules: seq<Rule>, path: string, i: nat)
    requires IsMeantWinner(rules, path, i) && Applies(rules[i], path)
    ensures IsWinner(rules, path, i)
  {
    forall j | 0 <= j < |rules| && Applies(rules[j], path) ensures RuleMeans(rules[j].pattern, path) {
      RuleSound(path, rules[j].pattern);
    }
  }

  /** On any file and path the program decides as the patterns mean, exactly when it does not miss the rule that should
      decide, or what it finds instead says the same. */
  lemma MissedIff(rules: seq<Rule>, path: string)
    ensures Verdict(rules, path) == MeantVerdict(rules, path) <==>
            forall i: nat | Missed(rules, path, i) :: rules[i].allowed == Verdict(rules, path)
  {
    if NoneMeant(rules, path) {
      forall r | r in rules ensures !Applies(r, path) {
        if Applies(r, path) {
          RuleSound(path, r.pattern);
        }
      }
      assert forall i: nat | i < |rules| :: rules[i] in rules;
    } else {
      var i := MeantWinnerExists(rules, path);
      MeantWinnerDecides(rules, path, i);
      assert forall j: nat | IsMeantWinner(rules, path, j) :: j == i;
      if Applies(rules[i], path) {
        FoundWinner(rules, path, i);
        WinnerDecides(rules, path, i);
      } else {
        assert Missed(rules, path, i);
      }
    }
  }
}
