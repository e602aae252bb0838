/**
  What a robots.txt pattern without a star matches: whole segments of the path.
*/
module RobotsSegments {
  import opened Basics
  import opened Strings
  import opened RobotsMatch

  lemma RuleBody(path: string, pattern: string)
    requires pattern != "" && '*' !in pattern && !HasSuffix(pattern, "$")
    ensures RuleMatches(path, pattern) <==>
            pattern <= path && (HasSuffix(pattern, "/") || |path| == |pattern| || path[|pattern|] == '/')
    ensures RuleMeans(pattern, path) <==> pattern <= path
  {
    Starless(pattern, path, false);
  }

  /** The path begins with the text and goes on, if at all, with a new segment. */
  predicate AtBoundary(text: string, path: string) {
    text <= path && (|path| == |text| || path[|text|] == '/')
  }

  lemma SplitParts(s: string)
    ensures s == "" ==> Split(s, '/') == [""]
    ensures s != "" && s[0] == '/' ==> Split(s, '/') == [""] + Split(s[1..], '/') && |Split(s, '/')| >= 2
    ensures s != "" && s[0] != '/' ==>
              var rest := Split(s[1..], '/'); Split(s, '/') == [[s[0]] + rest[0]] + rest[1..]
  {
  }

  lemma FirstSegment(s: string)
    ensures Split(s, '/')[0] == "" <==> s == "" || s[0] == '/'
    ensures s != "" && s[0] != '/' ==> Split(s, '/')[0][0] == s[0]
  {
  }

  lemma BoundaryStep(text: string, path: string)
    requires text != "" && path != "" && text[0] == path[0]
    ensures AtBoundary(text, path) <==> AtBoundary(text[1..], path[1..])
  {
    assert text == [text[0]] + text[1..] && path == [path[0]] + path[1..];
  }

  /** A path goes on from a text at a segment boundary exactly when its segments begin with those of the text. */
  lemma {:induction false} SegmentsBegin(text: string, path: string)
    ensures Split(text, '/') <= Split(path, '/') <==> AtBoundary(text, path)
    decreases |text|
  {
    SplitParts(text);
    SplitParts(path);
    FirstSegment(text);
    FirstSegment(path);
    if text != "" && path != "" && text[0] == path[0] {
      var a, b := Split(text[1..], '/'), Split(path[1..], '/');
      SegmentsBegin(text[1..], path[1..]);
      BoundaryStep(text, path);
      if text[0] == '/' {
        TailPrefix("", a, b);
      } else {
        GrowPrefix(text[0], a, b);
      }
    } else if Split(text, '/') <= Split(path, '/') {
      assert Split(text, '/')[0] == Split(path, '/')[0];
    }
  }

  lemma TailPrefix(x: string, a: seq<string>, b: seq<string>)
    ensures [x] + a <= [x] + b <==> a <= b
  {
    assert ([x] + a)[1..] == a && ([x] + b)[1..] == b;
  }

  lemma GrowPrefix(c: char, a: seq<string>, b: seq<string>)
    requires a != [] && b != []
    ensures [[c] + a[0]] + a[1..] <= [[c] + b[0]] + b[1..] <==> a <= b
  {
    var x, y := [c] + a[0], [c] + b[0];
    assert x[1..] == a[0] && y[1..] == b[0];
    assert a == [a[0]] + a[1..] && b == [b[0]] + b[1..];
    if a[0] == b[0] {
      TailPrefix(x, a[1..], b[1..]);
      TailPrefix(a[0], a[1..], b[1..]);
    } else {
      assert ([x] + a[1..])[0] == x && ([y] + b[1..])[0] == y;
    }
  }

  /** A plain pattern that does not end in a slash matches the paths whose first segments are its segments. */
  lemma PlainIsSegments(path: string, pattern: string)
    requires pattern != "" && '*' !in pattern && !HasSuffix(pattern, "$") && !HasSuffix(pattern, "/")
    ensures RuleMatches(path, pattern) <==> Split(pattern, '/') <= Split(path, '/')
  {
    RuleBody(path, pattern);
    SegmentsBegin(pattern, path);
  }

  lemma LongerAtSlash(directory: string, path: string)
    ensures AtBoundary(directory, path) && |path| > |directory| <==> directory + "/" <= path
    ensures directory + "/" <= path ==> |Split(directory, '/')| < |Split(path, '/')|
  {
    if directory + "/" <= path {
      var below := path[|directory| + 1..];
      assert path == directory + ['/'] + below;
      SplitJoin(directory, '/', below);
    }
  }

  /** One that does matches what lies below that directory, and not the directory itself without its slash. */
  lemma DirectoryIsSegments(path: string, directory: string)
    requires '*' !in directory
    ensures RuleMatches(path, directory + "/") <==>
            Split(directory, '/') <= Split(path, '/') && |Split(directory, '/')| < |Split(path, '/')|
  {
    DirectoryRule(path, directory);
    SegmentsBegin(directory, path);
    LongerAtSlash(directory, path);
    assert AtBoundary(directory, path) && |path| == |directory| ==> path == directory;
  }

  lemma DirectoryRule(path: string, directory: string)
    requires '*' !in directory
    ensures RuleMatches(path, directory + "/") <==> directory + "/" <= path
  {
    var pattern := directory + "/";
    assert pattern[|pattern| - 1..] == "/";
    RuleBody(path, pattern);
  }

  /** With `$` a plain pattern matches itself only. */
  lemma PlainAnchored(path: string, text: string)
    requires '*' !in text
    ensures RuleMatches(path, text + "$") <==> path == text
  {
    var pattern := text + "$";
    assert pattern[..|pattern| - 1] == text && pattern[|pattern| - 1..] == "$";
  }

  /** A plain pattern differs from what it means exactly on the paths that go on in the middle of its last segment. */
  lemma PlainDiffers(path: string, pattern: string)
    requires pattern != "" && '*' !in pattern && !HasSuffix(pattern, "$") && !HasSuffix(pattern, "/")
    ensures RuleMatches(path, pattern) != RuleMeans(pattern, path) <==>
            pattern <= path && !(Split(pattern, '/') <= Split(path, '/'))
  {
    RuleBody(path, pattern);
    PlainIsSegments(path, pattern);
  }
}
