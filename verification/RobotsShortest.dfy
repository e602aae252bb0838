/**
  What a robots.txt pattern with `$` matches: the leftmost placement of its parts ends at the end of the shortest prefix
  of the path that the pattern matches, so the whole path must be that prefix.
*/
module RobotsShortest {
  import opened Basics
  import opened Strings
  import opened RobotsMatch

  /** The placement ends at `e`, and cut off there the text leaves nothing. */
  ghost predicate EndsAt(parts: seq<string>, rest: string, e: nat) {
    && e <= |rest| && Place(parts, false, rest) == Some(rest[e..])
    && Place(parts, false, rest[..e]) == Some("")
  }

  lemma EndsAtOnce(rest: string)
    ensures EndsAt([], rest, 0)
  {
    assert rest[0..] == rest && rest[..0] == "";
  }

  lemma EndsAfterEmpty(parts: seq<string>, rest: string, e: nat)
    requires parts != [] && parts[0] == "" && EndsAt(parts[1..], rest, e)
    ensures EndsAt(parts, rest, e)
  {
  }

  lemma EndsAfterFound(parts: seq<string>, rest: string, i: nat, d: nat)
    requires parts != [] && parts[0] != "" && Index(rest, parts[0]) == Some(i)
    requires EndsAt(parts[1..], rest[i + |parts[0]|..], d)
    ensures EndsAt(parts, rest, i + |parts[0]| + d)
  {
    PlaceFound(parts, rest, i);
    PlaceFoundCut(parts, rest, i, d);
  }

  lemma {:induction false} PlaceCut(parts: seq<string>, rest: string) returns (e: nat)
    requires Place(parts, false, rest).Some?
    ensures EndsAt(parts, rest, e)
    decreases |parts|
  {
    if parts == [] {
      e := 0;
      EndsAtOnce(rest);
    } else if parts[0] == "" {
      e := PlaceCut(parts[1..], rest);
      EndsAfterEmpty(parts, rest, e);
    } else {
      var i := Index(rest, parts[0]).value;
      var d := PlaceCut(parts[1..], rest[i + |parts[0]|..]);
      e := i + |parts[0]| + d;
      EndsAfterFound(parts, rest, i, d);
    }
  }

  lemma PlaceFoundCut(parts: seq<string>, rest: string, i: nat, d: nat)
    requires parts != [] && parts[0] != "" && Index(rest, parts[0]) == Some(i) && i + |parts[0]| + d <= |rest|
    ensures var a := i + |parts[0]|;
      && rest[a..][d..] == rest[a + d..]
      && Place(parts, false, rest[..a + d]) == Place(parts[1..], false, rest[a..][..d])
  {
    var a := i + |parts[0]|;
    CutRest(rest, a, d);
    SamePlace(rest, parts[0], i, a + d);
    PlaceFound(parts, rest[..a + d], i);
  }

  lemma CutRest(text: string, a: nat, d: nat)
    requires a + d <= |text|
    ensures text[a..][..d] == text[..a + d][a..] && text[a..][d..] == text[a + d..]
  {
  }

  lemma PlaceFound(parts: seq<string>, rest: string, i: nat)
    requires parts != [] && parts[0] != "" && Index(rest, parts[0]) == Some(i)
    ensures Place(parts, false, rest) == Place(parts[1..], false, rest[i + |parts[0]|..])
  {
  }

  /** The first occurrence stays the first one in every prefix that holds it. */
  lemma SamePlace(text: string, p: string, i: nat, e: nat)
    requires e <= |text| && i + |p| <= e
    ensures Index(text, p) == Some(i) <==> Index(text[..e], p) == Some(i)
  {
    forall j: nat | j + |p| <= e ensures OccursAt(text, p, j) <==> OccursAt(text[..e], p, j) {
      assert text[..e][j..j + |p|] == text[j..j + |p|];
    }
  }

  /** What follows the text does not change the placement. */
  lemma {:induction false} PlaceExtended(parts: seq<string>, rest: string, more: string)
    requires Place(parts, false, rest).Some?
    ensures Place(parts, false, rest + more) == Some(Place(parts, false, rest).value + more)
    decreases |parts|
  {
    if parts != [] {
      if parts[0] == "" {
        PlaceExtended(parts[1..], rest, more);
      } else {
        var p, i := parts[0], Index(rest, parts[0]).value;
        assert (rest + more)[..|rest|] == rest;
        SamePlace(rest + more, p, i, |rest|);
        PlaceExtended(parts[1..], rest[i + |p|..], more);
        assert (rest + more)[i + |p|..] == rest[i + |p|..] + more;
        PlaceFound(parts, rest + more, i);
      }
    }
  }

  lemma {:induction false} AnchoredMatches(pattern: string, path: string)
    requires Matches(pattern, path, true)
    ensures Matches(pattern, path, false)
    decreases |pattern|
  {
    if pattern != "" {
      if pattern[0] == '*' {
        var k :| 0 <= k <= |path| && Matches(pattern[1..], path[k..], true);
        AnchoredMatches(pattern[1..], path[k..]);
      } else {
        AnchoredMatches(pattern[1..], path[1..]);
      }
    }
  }

  /** How the first part and the others are placed when no star leads. */
  lemma PlaceCore(core: string, path: string)
    requires core != "" && core[0] != '*'
    ensures var parts := Split(core, '*');
      Place(parts, true, path) == if parts[0] <= path then Place(parts[1..], false, path[|parts[0]|..]) else None
  {
    FirstPart(core);
  }

  /** The placement ends where the shortest prefix of the path that the pattern matches ends. */
  lemma CoreEnds(core: string, path: string) returns (e: nat)
    requires core != "" && core[0] != '*' && Place(Split(core, '*'), true, path).Some?
    ensures e <= |path| && |Place(Split(core, '*'), true, path).value| == |path| - e
    ensures Matches(core, path[..e], true)
  {
    var parts := Split(core, '*');
    PlaceCore(core, path);
    var p := parts[0];
    var d := PlaceCut(parts[1..], path[|p|..]);
    e := |p| + d;
    CutRest(path, |p|, d);
    assert p <= path[..e];
    PlaceCore(core, path[..e]);
    FirstPlacedIsInOrder(parts, path[..e], true);
    MatchesByParts(core, path[..e], true);
  }

  lemma CoreFits(core: string, cut: string)
    requires core != "" && core[0] != '*' && Matches(core, cut, false)
    ensures Split(core, '*')[0] <= cut && Place(Split(core, '*')[1..], false, cut[|Split(core, '*')[0]|..]).Some?
  {
    MatchesByParts(core, cut, false);
    GreedyFinds(Split(core, '*')[1..], cut[|Split(core, '*')[0]|..]);
  }

  lemma CoreIsShortest(core: string, path: string, k: nat)
    requires core != "" && core[0] != '*' && k <= |path| && Matches(core, path[..k], true)
    ensures Place(Split(core, '*'), true, path).Some?
    ensures |Place(Split(core, '*'), true, path).value| >= |path| - k
  {
    var cut, n := path[..k], |Split(core, '*')[0]|;
    AnchoredMatches(core, cut);
    CoreFits(core, cut);
    PlaceCore(core, path);
    RestExtended(Split(core, '*')[1..], path, n, k);
  }

  lemma RestExtended(parts: seq<string>, path: string, n: nat, k: nat)
    requires n <= k <= |path| && Place(parts, false, path[..k][n..]).Some?
    ensures Place(parts, false, path[n..]).Some? && |Place(parts, false, path[n..]).value| >= |path| - k
  {
    PlaceExtended(parts, path[..k][n..], path[k..]);
    assert path[n..] == path[..k][n..] + path[k..];
  }

  ghost predicate ShortestIsAll(core: string, path: string) {
    Matches(core, path, true) && forall k | 0 <= k < |path| :: !Matches(core, path[..k], true)
  }

  lemma CoreAnchored(core: string, path: string)
    requires core != "" && core[0] != '*'
    ensures Place(Split(core, '*'), true, path) == Some("") <==> ShortestIsAll(core, path)
  {
    assert path[..|path|] == path;
    if Place(Split(core, '*'), true, path).Some? {
      var e := CoreEnds(core, path);
    }
    forall k | 0 <= k <= |path| && Matches(core, path[..k], true)
      ensures Place(Split(core, '*'), true, path).Some?
      ensures |Place(Split(core, '*'), true, path).value| >= |path| - k
    {
      CoreIsShortest(core, path, k);
    }
  }

  lemma EmptyAnchored(path: string)
    ensures Place(Split("", '*'), true, path) == Some(path)
    ensures ShortestIsAll("", path) <==> path == ""
  {
    assert Split("", '*') == [""];
    assert Place([""], true, path) == Place([""][1..], true, path) == Some(path);
  }

  /** With `$` the program decides whether the pattern without its leading stars matches all of the path and no shorter
      prefix of it: the leftmost placement ends at the shortest match. */
  lemma WildcardAnchored(path: string, pattern: string)
    requires pattern != "*"
    ensures Wildcard(path, pattern, true) <==>
            Matches(StripStars(pattern), path, true) &&
            forall k | 0 <= k < |path| :: !Matches(StripStars(pattern), path[..k], true)
  {
    var core := StripStars(pattern);
    PlaceStripped(pattern, path);
    WildcardIsPlaced(path, pattern);
    if core == "" {
      EmptyAnchored(path);
    } else {
      CoreAnchored(core, path);
    }
    assert ShortestIsAll(core, path) <==> Wildcard(path, pattern, true);
  }

  lemma WildcardIsPlaced(path: string, pattern: string)
    requires pattern != "*"
    ensures Wildcard(path, pattern, true) <==> Place(Split(StripStars(pattern), '*'), true, path) == Some("")
  {
    PlaceStripped(pattern, path);
    if pattern == "" {
      EmptyAnchored(path);
    }
  }
}
