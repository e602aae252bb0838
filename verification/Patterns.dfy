/**
  URL path patterns: a compiler from globs to anchored regular expressions, as text, and the matcher that combines
  them. Go's `regexp` is replaced by a parser and a matcher for the syntax the compiler emits.
*/
module Patterns {
  import opened Basics

  // Globs

  /** A piece of a glob: a character, `*`, or `**`. */
  datatype Item = Literal(c: char) | Star | DoubleStar

  function Items(glob: string): seq<Item>
    decreases |glob|
  {
    if glob == "" then []
    else if glob[0] != '*' then [Literal(glob[0])] + Items(glob[1..])
    else if |glob| > 1 && glob[1] == '*' then [DoubleStar] + Items(glob[2..])
    else [Star] + Items(glob[1..])
  }

  /** What a piece may stand for. Without the `s` flag a dot does not match a newline. */
  predicate StandsFor(item: Item, run: string) {
    match item
    case Literal(c) => run == [c]
    case Star => '/' !in run
    case DoubleStar => '\n' !in run
  }

  function Concat(runs: seq<string>): string {
    if runs == [] then "" else runs[0] + Concat(runs[1..])
  }

  /** The path is a run of text for each piece of the glob, one after the other. */
  ghost predicate GlobMeans(glob: string, path: string) {
    exists runs: seq<string> :: Spells(Items(glob), runs, path)
  }

  ghost predicate Spells(items: seq<Item>, runs: seq<string>, path: string) {
    |runs| == |items| && Concat(runs) == path && forall i | 0 <= i < |items| :: StandsFor(items[i], runs[i])
  }

  // Regular expressions

  predicate IsSpecial(c: char) {
    c in {'?', '+', '(', ')', '[', ']', '{', '}', '^', '$', '|', '\\', '.'}
  }

  function EmitItem(item: Item): string {
    match item
    case Literal(c) => if IsSpecial(c) then ['\\', c] else [c]
    case Star => "[^/]*"
    case DoubleStar => ".*"
  }

  function Emit(items: seq<Item>): string {
    if items == [] then "" else Emit(items[..|items| - 1]) + EmitItem(items[|items| - 1])
  }

  function CompiledText(glob: string): string {
    "^" + Emit(Items(glob)) + "$"
  }

  lemma EmitBack(items: seq<Item>, item: Item)
    ensures Emit(items + [item]) == Emit(items) + EmitItem(item)
  {
    assert (items + [item])[..|items|] == items;
  }

  /** The piece at position `i`, and where the next one starts. */
  lemma NextItem(glob: string, i: nat) returns (item: Item, next: nat)
    requires i < |glob|
    ensures i < next <= |glob| && Items(glob[i..]) == [item] + Items(glob[next..])
    ensures glob[i] != '*' ==> item == Literal(glob[i]) && next == i + 1
    ensures glob[i] == '*' ==>
              if i + 1 < |glob| && glob[i + 1] == '*' then item == DoubleStar && next == i + 2
              else item == Star && next == i + 1
  {
    var rest := glob[i..];
    assert rest[1..] == glob[i + 1..];
    if glob[i] != '*' {
      item, next := Literal(glob[i]), i + 1;
    } else if i + 1 < |glob| && glob[i + 1] == '*' {
      item, next := DoubleStar, i + 2;
      assert rest[2..] == glob[i + 2..];
    } else {
      item, next := Star, i + 1;
    }
  }

  /** Up to position `i` the pieces `before` have been written. */
  ghost predicate Written(glob: string, i: nat, before: seq<Item>, text: string)
    requires i <= |glob|
  {
    Items(glob) == before + Items(glob[i..]) && text == "^" + Emit(before)
  }

  lemma WriteNext(glob: string, i: nat, before: seq<Item>, text: string, item: Item, next: nat)
    requires i < next <= |glob| && Written(glob, i, before, text)
    requires Items(glob[i..]) == [item] + Items(glob[next..])
    ensures Written(glob, next, before + [item], text + EmitItem(item))
  {
    EmitBack(before, item);
    var written, more, tail := Emit(before), EmitItem(item), Items(glob[next..]);
    Regroup("^", written, more);
    Regroup(before, [item], tail);
  }

  method GlobToRegex(glob: string) returns (text: string)
    ensures text == CompiledText(glob)
  {
    text := "^";
    var i := 0;
    ghost var before: seq<Item> := [];
    while i < |glob|
      invariant 0 <= i <= |glob|
      invariant Written(glob, i, before, text)
    {
      ghost var item, next := NextItem(glob, i);
      WriteNext(glob, i, before, text, item, next);
      var c := glob[i];
      if c == '*' {
        if i + 1 < |glob| && glob[i + 1] == '*' {
          text := text + ".*";
          i := i + 2;
        } else {
          text := text + "[^/]*";
          i := i + 1;
        }
      } else if IsSpecial(c) {
        text := text + ['\\', c];
        i := i + 1;
      } else {
        text := text + [c];
        i := i + 1;
      }
      before := before + [item];
    }
    assert before + [] == before;
    text := text + "$";
  }

  /** The characters that have a meaning in Go's regular expressions, as `regexp.QuoteMeta` lists them. */
  const META: set<char> := {'\\', '.', '+', '*', '?', '(', ')', '|', '[', ']', '{', '}', '^', '$'}

  /** The items of a regular expression after its `^`, up to the final `$`; None for any syntax but the emitted one. */
  function ParseItems(text: string): Option<seq<Item>>
    decreases |text|
  {
    if text == "" then None
    else if text == "$" then Some([])
    else if text[0] == '\\' then
      if |text| > 1 && text[1] in META then Prepend(Literal(text[1]), ParseItems(text[2..])) else None
    else if "[^/]*" <= text then Prepend(Star, ParseItems(text[5..]))
    else if ".*" <= text then Prepend(DoubleStar, ParseItems(text[2..]))
    else if text[0] in META then None
    else Prepend(Literal(text[0]), ParseItems(text[1..]))
  }

  function Prepend(item: Item, rest: Option<seq<Item>>): Option<seq<Item>> {
    if rest.Some? then Some([item] + rest.value) else None
  }

  function ParseRegex(text: string): Option<seq<Item>> {
    if text != "" && text[0] == '^' then ParseItems(text[1..]) else None
  }

  /** Whether the items match all of the path. */
  predicate Accepts(items: seq<Item>, path: string)
    decreases |items|
  {
    if items == [] then path == ""
    else
      exists k | 0 <= k <= |path| :: StandsFor(items[0], path[..k]) && Accepts(items[1..], path[k..])
  }

  predicate MatchString(regex: string, path: string) {
    var items := ParseRegex(regex);
    items.Some? && Accepts(items.value, path)
  }

  // The compiler preserves meaning

  /** No literal of a glob is a star, so what the compiler emits is never ambiguous. */
  ghost predicate FromGlob(items: seq<Item>) {
    forall i | 0 <= i < |items| :: items[i] != Literal('*')
  }

  lemma {:induction false} ItemsFromGlob(glob: string)
    ensures FromGlob(Items(glob))
    decreases |glob|
  {
    if glob != "" {
      if glob[0] != '*' {
        ItemsFromGlob(glob[1..]);
      } else if |glob| > 1 && glob[1] == '*' {
        ItemsFromGlob(glob[2..]);
      } else {
        ItemsFromGlob(glob[1..]);
      }
    }
  }

  lemma {:induction false} EmitFront(item: Item, rest: seq<Item>)
    ensures Emit([item] + rest) == EmitItem(item) + Emit(rest)
  {
    if rest == [] {
      EmitBack([], item);
      assert [item] + rest == [] + [item];
    } else {
      var init, last := rest[..|rest| - 1], rest[|rest| - 1];
      var front, middle, back := EmitItem(item), Emit(init), EmitItem(last);
      EmitFront(item, init);
      InitOfConcat([item], rest);
      Regroup(front, middle, back);
    }
  }

  lemma ParseOne(item: Item, tail: string)
    requires item != Literal('*') && tail != ""
    ensures ParseItems(EmitItem(item) + tail) == Prepend(item, ParseItems(tail))
  {
    var text := EmitItem(item) + tail;
    assert text[|EmitItem(item)|..] == tail;
    match item
    case Literal(c) => assert text != "$";
    case Star => assert text[..5] == "[^/]*";
    case DoubleStar => assert text[..2] == ".*" && text[0] == '.';
  }

  lemma {:induction false} ParseEmitted(items: seq<Item>)
    requires FromGlob(items)
    ensures ParseItems(Emit(items) + "$") == Some(items)
    decreases |items|
  {
    if items == [] {
      assert Emit(items) + "$" == "$";
    } else {
      var item, rest := items[0], items[1..];
      assert items == [item] + rest;
      EmitFront(item, rest);
      ParseEmitted(rest);
      assert Emit(items) + "$" == EmitItem(item) + (Emit(rest) + "$");
      ParseOne(item, Emit(rest) + "$");
    }
  }

  /** Parsing what the compiler writes gives back exactly the pieces of the glob; so compiling never fails. */
  lemma RoundTrip(glob: string)
    ensures ParseRegex(CompiledText(glob)) == Some(Items(glob))
  {
    ItemsFromGlob(glob);
    ParseEmitted(Items(glob));
    assert CompiledText(glob)[1..] == Emit(Items(glob)) + "$";
  }

  lemma {:induction false} AcceptsSpelled(items: seq<Item>, runs: seq<string>, path: string)
    requires Spells(items, runs, path)
    ensures Accepts(items, path)
    decreases |items|
  {
    if items != [] {
      var k := |runs[0]|;
      assert path[..k] == runs[0] && path[k..] == Concat(runs[1..]);
      AcceptsSpelled(items[1..], runs[1..], path[k..]);
    }
  }

  lemma {:induction false} SpellsAccepted(items: seq<Item>, path: string) returns (runs: seq<string>)
    requires Accepts(items, path)
    ensures Spells(items, runs, path)
    decreases |items|
  {
    if items == [] {
      runs := [];
    } else {
      var k :| 0 <= k <= |path| && StandsFor(items[0], path[..k]) && Accepts(items[1..], path[k..]);
      var rest := SpellsAccepted(items[1..], path[k..]);
      runs := [path[..k]] + rest;
      SpellsMore(items, path[..k], rest, path[k..]);
      assert path[..k] + path[k..] == path;
    }
  }

  lemma SpellsMore(items: seq<Item>, run: string, runs: seq<string>, path: string)
    requires items != [] && StandsFor(items[0], run) && Spells(items[1..], runs, path)
    ensures Spells(items, [run] + runs, run + path)
  {
    assert ([run] + runs)[1..] == runs;
    assert forall i | 0 < i < |items| :: ([run] + runs)[i] == runs[i - 1] && items[i] == items[1..][i - 1];
  }

  /** The compiled regular expression accepts a path exactly when the glob means it. */
  lemma CompilerPreservesMeaning(glob: string, path: string)
    ensures MatchString(CompiledText(glob), path) <==> GlobMeans(glob, path)
  {
    RoundTrip(glob);
    if MatchString(CompiledText(glob), path) {
      var runs := SpellsAccepted(Items(glob), path);
    }
    if GlobMeans(glob, path) {
      var runs :| Spells(Items(glob), runs, path);
      AcceptsSpelled(Items(glob), runs, path);
    }
  }

  /** `**` is documented to match any sequence; a path with a newline is the exception. */
  lemma DoubleStarIsNotEverything(path: string)
    ensures GlobMeans("**", path) <==> '\n' !in path
  {
    var g := "**";
    assert g[2..] == "" && Items(g[2..]) == [];
    assert Items(g) == [DoubleStar] + [] == [DoubleStar];
    if '\n' !in path {
      assert [path][1..] == [] && Concat([path]) == path + "" == path;
      assert Spells([DoubleStar], [path], path);
    }
    if GlobMeans(g, path) {
      var runs :| Spells([DoubleStar], runs, path);
      assert |runs| == 1 && Concat(runs[1..]) == "";
      assert Concat(runs) == runs[0] + Concat(runs[1..]) == runs[0];
      assert StandsFor(DoubleStar, runs[0]);
    }
  }

  // Globs with one star, and without

  lemma {:induction false} LiteralItems(glob: string)
    requires '*' !in glob
    ensures |Items(glob)| == |glob| && forall i | 0 <= i < |glob| :: Items(glob)[i] == Literal(glob[i])
    decreases |glob|
  {
    if glob != "" {
      LiteralItems(glob[1..]);
    }
  }

  lemma {:induction false} LiteralRuns(glob: string, runs: seq<string>)
    requires |runs| == |glob| && forall i | 0 <= i < |glob| :: runs[i] == [glob[i]]
    ensures Concat(runs) == glob
    decreases |glob|
  {
    if glob != "" {
      LiteralRuns(glob[1..], runs[1..]);
      assert glob == [glob[0]] + glob[1..];
    }
  }

  function Singles(text: string): seq<string> {
    seq(|text|, i requires 0 <= i < |text| => [text[i]])
  }

  lemma LiteralSpells(glob: string, runs: seq<string>, path: string)
    requires '*' !in glob && Spells(Items(glob), runs, path)
    ensures path == glob
  {
    LiteralItems(glob);
    LiteralRuns(glob, runs);
  }

  lemma SpellsLiteral(glob: string)
    requires '*' !in glob
    ensures Spells(Items(glob), Singles(glob), glob)
  {
    LiteralItems(glob);
    LiteralRuns(glob, Singles(glob));
  }

  /** A glob without stars matches itself only. */
  lemma LiteralGlob(glob: string, path: string)
    requires '*' !in glob
    ensures GlobMeans(glob, path) <==> path == glob
  {
    SpellsLiteral(glob);
    if GlobMeans(glob, path) {
      var runs :| Spells(Items(glob), runs, path);
      LiteralSpells(glob, runs, path);
    }
  }

  lemma {:induction false} ItemsConcat(x: string, y: string)
    requires '*' !in x
    ensures Items(x + y) == Items(x) + Items(y)
    decreases |x|
  {
    if x == "" {
      assert x + y == y;
    } else {
      assert (x + y)[1..] == x[1..] + y;
      ItemsConcat(x[1..], y);
    }
  }

  lemma {:induction false} ConcatBack(x: seq<string>, y: seq<string>)
    ensures Concat(x + y) == Concat(x) + Concat(y)
    decreases |x|
  {
    if x == [] {
      assert x + y == y;
    } else {
      assert (x + y)[1..] == x[1..] + y;
      ConcatBack(x[1..], y);
    }
  }

  /** `Items` of a star between texts without stars. */
  lemma StarItems(before: string, after: string)
    requires '*' !in before && '*' !in after
    ensures Items(before + "*" + after) == Items(before) + ([Star] + Items(after))
    ensures Items(before + "**" + after) == Items(before) + ([DoubleStar] + Items(after))
  {
    Regroup(before, "*", after);
    Regroup(before, "**", after);
    ItemsConcat(before, "*" + after);
    ItemsConcat(before, "**" + after);
    assert ("*" + after)[1..] == after && ("**" + after)[2..] == after;
    assert |after| > 0 ==> ("*" + after)[1] == after[0] && after[0] in after;
  }

  lemma SpellsSplit(x: seq<Item>, y: seq<Item>, runs: seq<string>, path: string)
    requires Spells(x + y, runs, path)
    ensures var a, b := runs[..|x|], runs[|x|..];
      Spells(x, a, Concat(a)) && Spells(y, b, Concat(b)) && path == Concat(a) + Concat(b)
  {
    var a, b, items := runs[..|x|], runs[|x|..], x + y;
    assert runs == a + b;
    ConcatBack(a, b);
    assert forall i | 0 <= i < |x| :: x[i] == items[i] && a[i] == runs[i];
    assert forall i | 0 <= i < |y| :: y[i] == items[|x| + i] && b[i] == runs[|x| + i];
  }

  lemma SpellsJoin(x: seq<Item>, y: seq<Item>, a: seq<string>, b: seq<string>, p: string, q: string)
    requires Spells(x, a, p) && Spells(y, b, q)
    ensures Spells(x + y, a + b, p + q)
  {
    ConcatBack(a, b);
  }

  lemma OneRun(item: Item, run: string)
    ensures Concat([run]) == run
    ensures Spells([item], [run], run) <==> StandsFor(item, run)
  {
    assert [run][1..] == [];
  }

  lemma SpelledAround(before: string, item: Item, after: string, runs: seq<string>, path: string)
    requires '*' !in before && '*' !in after
    requires Spells(Items(before) + ([item] + Items(after)), runs, path)
    ensures exists run :: StandsFor(item, run) && path == before + run + after
  {
    var back := [item] + Items(after);
    SpellsSplit(Items(before), back, runs, path);
    var a, b := runs[..|Items(before)|], runs[|Items(before)|..];
    LiteralSpells(before, a, Concat(a));
    SpellsSplit([item], Items(after), b, Concat(b));
    LiteralSpells(after, b[1..], Concat(b[1..]));
    assert b[..1] == [b[0]];
    OneRun(item, b[0]);
    Regroup(before, b[0], after);
  }

  lemma SpellAround(before: string, item: Item, after: string, run: string)
    requires '*' !in before && '*' !in after && StandsFor(item, run)
    ensures exists runs: seq<string> :: Spells(Items(before) + ([item] + Items(after)), runs, before + run + after)
  {
    OneRun(item, run);
    SpellsLiteral(before);
    SpellsLiteral(after);
    SpellsJoin([item], Items(after), [run], Singles(after), run, after);
    SpellsJoin(Items(before), [item] + Items(after), Singles(before), [run] + Singles(after), before, run + after);
    Regroup(before, run, after);
  }

  /** One star between texts stands for any run without a slash, two stars for any run without a newline. */
  lemma OneStarGlob(before: string, after: string, path: string)
    requires '*' !in before && '*' !in after
    ensures GlobMeans(before + "*" + after, path) <==> exists run :: '/' !in run && path == before + run + after
    ensures GlobMeans(before + "**" + after, path) <==> exists run :: '\n' !in run && path == before + run + after
  {
    StarItems(before, after);
    AroundIff(before, Star, after, before + "*" + after, path);
    AroundIff(before, DoubleStar, after, before + "**" + after, path);
    assert forall run :: StandsFor(Star, run) <==> '/' !in run;
    assert forall run :: StandsFor(DoubleStar, run) <==> '\n' !in run;
  }

  lemma AroundIff(before: string, item: Item, after: string, glob: string, path: string)
    requires '*' !in before && '*' !in after && Items(glob) == Items(before) + ([item] + Items(after))
    ensures GlobMeans(glob, path) <==> exists run :: StandsFor(item, run) && path == before + run + after
  {
    if GlobMeans(glob, path) {
      var runs :| Spells(Items(glob), runs, path);
      SpelledAround(before, item, after, runs, path);
    }
    if exists run :: StandsFor(item, run) && path == before + run + after {
      var run :| StandsFor(item, run) && path == before + run + after;
      SpellAround(before, item, after, run);
    }
  }

  // The documented meaning

  /** By the documentation `**` stands for any run. */
  predicate MayStandFor(item: Item, run: string) {
    item.DoubleStar? || StandsFor(item, run)
  }

  ghost predicate MaySpell(items: seq<Item>, runs: seq<string>, path: string) {
    |runs| == |items| && Concat(runs) == path && forall i | 0 <= i < |items| :: MayStandFor(items[i], runs[i])
  }

  ghost predicate DocMeans(glob: string, path: string) {
    exists runs: seq<string> :: MaySpell(Items(glob), runs, path)
  }

  lemma MeansWhatItMay(glob: string, path: string)
    requires GlobMeans(glob, path)
    ensures DocMeans(glob, path)
  {
    var runs :| Spells(Items(glob), runs, path);
    assert MaySpell(Items(glob), runs, path);
  }

  lemma {:induction false} RunsOf(runs: seq<string>, i: nat, c: char)
    requires i < |runs| && c in runs[i]
    ensures c in Concat(runs)
    decreases |runs|
  {
    if i > 0 {
      RunsOf(runs[1..], i - 1, c);
    }
  }

  /** On a path without a newline the code does what its documentation says, whatever the glob, and on no other. */
  lemma NewlineIff(path: string)
    ensures (forall glob :: GlobMeans(glob, path) == DocMeans(glob, path)) <==> '\n' !in path
  {
    if '\n' in path {
      DoubleStarIsNotEverything(path);
      AnyPathMayMatch(path);
    } else {
      forall glob ensures GlobMeans(glob, path) == DocMeans(glob, path) {
        WithoutNewline(glob, path);
      }
    }
  }

  lemma AnyPathMayMatch(path: string)
    ensures DocMeans("**", path)
  {
    var g := "**";
    assert g[2..] == "" && Items(g[2..]) == [];
    assert Items(g) == [DoubleStar] + [] == [DoubleStar];
    assert [path][1..] == [] && Concat([path]) == path + "" == path;
    assert MaySpell([DoubleStar], [path], path);
  }

  lemma WithoutNewline(glob: string, path: string)
    requires '\n' !in path
    ensures GlobMeans(glob, path) == DocMeans(glob, path)
  {
    if DocMeans(glob, path) {
      var runs :| MaySpell(Items(glob), runs, path);
      forall i | 0 <= i < |runs| ensures '\n' !in runs[i] {
        if '\n' in runs[i] {
          RunsOf(runs, i, '\n');
        }
      }
      assert Spells(Items(glob), runs, path);
    }
    if GlobMeans(glob, path) {
      MeansWhatItMay(glob, path);
    }
  }

  /** How often a newline comes right before a slash. */
  function Breaks(s: string): nat {
    if |s| < 2 then 0 else (if s[0] == '\n' && s[1] == '/' then 1 else 0) + Breaks(s[1..])
  }

  lemma {:induction false} BreaksConcat(x: string, y: string)
    ensures Breaks(x) + Breaks(y) <= Breaks(x + y) <= Breaks(x) + Breaks(y) + 1
    decreases |x|
  {
    if x == "" {
      assert x + y == y;
    } else {
      BreaksConcat(x[1..], y);
      assert (x + y)[1..] == x[1..] + y;
      assert |x| == 1 ==> x[1..] == "" && x[1..] + y == y;
    }
  }

  /** What an item stands for lacks the slash or the newline, or is one character. */
  lemma {:induction false} NoBreak(run: string)
    requires '/' !in run || '\n' !in run || |run| <= 1
    ensures Breaks(run) == 0
    decreases |run|
  {
    if |run| >= 2 {
      NoBreak(run[1..]);
    }
  }

  lemma {:induction false} FewBreaks(items: seq<Item>, runs: seq<string>, path: string)
    requires Spells(items, runs, path)
    ensures Breaks(path) <= |items|
    decreases |items|
  {
    if items != [] {
      var rest := Concat(runs[1..]);
      NoBreak(runs[0]);
      FewBreaks(items[1..], runs[1..], rest);
      BreaksConcat(runs[0], rest);
    }
  }

  function Repeated(n: nat): string {
    if n == 0 then "" else "\n/" + Repeated(n - 1)
  }

  lemma {:induction false} RepeatedBreaks(n: nat)
    ensures Breaks(Repeated(n)) >= n
  {
    if n > 0 {
      RepeatedBreaks(n - 1);
      BreaksConcat("\n/", Repeated(n - 1));
      assert "\n/"[1..] == "/";
      assert Breaks("\n/") == 1;
    }
  }

  lemma {:induction false} ConcatBreaks(runs: seq<string>, k: nat)
    requires k < |runs|
    ensures Breaks(Concat(runs)) >= Breaks(runs[k])
    decreases |runs|
  {
    BreaksConcat(runs[0], Concat(runs[1..]));
    if k > 0 {
      ConcatBreaks(runs[1..], k - 1);
    }
  }

  /** The shortest run for an item, but a long one for `**`. */
  function LongRun(item: Item, n: nat): string {
    match item
    case Literal(c) => [c]
    case Star => ""
    case DoubleStar => Repeated(n)
  }

  lemma ManyBreaks(glob: string) returns (path: string)
    requires DoubleStar in Items(glob)
    ensures DocMeans(glob, path) && !GlobMeans(glob, path)
  {
    var items := Items(glob);
    var n := |items| + 1;
    var runs := seq(|items|, i requires 0 <= i < |items| => LongRun(items[i], n));
    path := Concat(runs);
    assert MaySpell(items, runs, path);
    var k :| 0 <= k < |items| && items[k] == DoubleStar;
    ConcatBreaks(runs, k);
    RepeatedBreaks(n);
    if GlobMeans(glob, path) {
      var other :| Spells(items, other, path);
      FewBreaks(items, other, path);
    }
  }

  /** Two stars in a row somewhere. */
  predicate HasDoubleStar(glob: string) {
    exists i | 0 < i < |glob| :: glob[i] == '*' && glob[i - 1] == '*'
  }

  lemma {:induction false} StarsInRow(glob: string)
    ensures HasDoubleStar(glob) <==> DoubleStar in Items(glob)
    decreases |glob|
  {
    if glob != "" && !(|glob| > 1 && glob[0] == '*' && glob[1] == '*') {
      var rest := glob[1..];
      StarsInRow(rest);
      assert forall i | 0 < i < |rest| :: rest[i] == glob[i + 1] && rest[i - 1] == glob[i];
      if HasDoubleStar(glob) {
        var i :| 0 < i < |glob| && glob[i] == '*' && glob[i - 1] == '*';
        assert rest[i - 1] == '*' && rest[i - 2] == '*';
      }
    }
  }

  /** A glob does on every path what the documentation says exactly when it has no `**`. */
  lemma DocumentedIff(glob: string)
    ensures (forall path :: GlobMeans(glob, path) == DocMeans(glob, path)) <==> !HasDoubleStar(glob)
  {
    StarsInRow(glob);
    if DoubleStar in Items(glob) {
      var path := ManyBreaks(glob);
    } else {
      forall path ensures GlobMeans(glob, path) == DocMeans(glob, path) {
        if DocMeans(glob, path) {
          var runs :| MaySpell(Items(glob), runs, path);
          assert Spells(Items(glob), runs, path);
        } else if GlobMeans(glob, path) {
          MeansWhatItMay(glob, path);
        }
      }
    }
  }

  // The matcher

  function CompileAll(globs: seq<string>): seq<string> {
    if globs == [] then []
    else
      CompileAll(globs[..|globs| - 1]) +
      if globs[|globs| - 1] == "" then [] else [CompiledText(globs[|globs| - 1])]
  }

  lemma CompileNext(globs: seq<string>, n: nat)
    requires n < |globs|
    ensures CompileAll(globs[..n + 1])
         == CompileAll(globs[..n]) + if globs[n] == "" then [] else [CompiledText(globs[n])]
  {
    PrefixNext(globs, n);
  }

  /** Excludes win; without includes everything else passes; with includes one of them has to match. Empty patterns are
      ignored. */
  ghost predicate Passes(included: seq<string>, excluded: seq<string>, path: string) {
    && (forall g | g in excluded && g != "" :: !GlobMeans(g, path))
    && ((forall g | g in included :: g == "") || exists g | g in included && g != "" :: GlobMeans(g, path))
  }

  class PatternMatcher {
    var included: seq<string>
    var excluded: seq<string>

    constructor (includeGlobs: seq<string>, excludeGlobs: seq<string>)
      ensures included == CompileAll(includeGlobs) && excluded == CompileAll(excludeGlobs)
    {
      included, excluded := [], [];
      new;
      for i := 0 to |includeGlobs|
        invariant included == CompileAll(includeGlobs[..i]) && excluded == []
      {
        CompileNext(includeGlobs, i);
        if includeGlobs[i] == "" {
          continue;
        }
        var re := GlobToRegex(includeGlobs[i]);
        included := included + [re];
      }
      assert includeGlobs[..|includeGlobs|] == includeGlobs;
      for i := 0 to |excludeGlobs|
        invariant included == CompileAll(includeGlobs) && excluded == CompileAll(excludeGlobs[..i])
      {
        CompileNext(excludeGlobs, i);
        if excludeGlobs[i] == "" {
          continue;
        }
        var re := GlobToRegex(excludeGlobs[i]);
        excluded := excluded + [re];
      }
      assert excludeGlobs[..|excludeGlobs|] == excludeGlobs;
    }

    method Matches(urlPath: string) returns (r: bool)
      ensures r == Decides(included, excluded, urlPath)
    {
      for i := 0 to |excluded|
        invariant forall k | 0 <= k < i :: !MatchString(excluded[k], urlPath)
      {
        if MatchString(excluded[i], urlPath) {
          return false;
        }
      }
      if |included| == 0 {
        return true;
      }
      for i := 0 to |included|
        invariant forall k | 0 <= k < i :: !MatchString(included[k], urlPath)
      {
        if MatchString(included[i], urlPath) {
          return true;
        }
      }
      r := false;
    }
  }

  predicate Decides(included: seq<string>, excluded: seq<string>, path: string) {
    && (forall k | 0 <= k < |excluded| :: !MatchString(excluded[k], path))
    && (included == [] || exists k | 0 <= k < |included| :: MatchString(included[k], path))
  }

  ghost predicate SomeMatches(texts: seq<string>, path: string) {
    exists k | 0 <= k < |texts| :: MatchString(texts[k], path)
  }

  ghost predicate SomeMeans(globs: seq<string>, path: string) {
    exists g | g in globs && g != "" :: GlobMeans(g, path)
  }

  lemma OneTextMore(texts: seq<string>, text: string, path: string)
    ensures SomeMatches(texts + [text], path) <==> SomeMatches(texts, path) || MatchString(text, path)
  {
    var all := texts + [text];
    assert all[|texts|] == text && forall k | 0 <= k < |texts| :: all[k] == texts[k];
  }

  lemma OneGlobMore(globs: seq<string>, g: string, path: string)
    ensures SomeMeans(globs + [g], path) <==> SomeMeans(globs, path) || (g != "" && GlobMeans(g, path))
  {
    assert g in globs + [g] && forall h | h in globs + [g] :: h in globs || h == g;
    assert forall h | h in globs :: h in globs + [g];
  }

  lemma {:induction false} CompiledMatches(globs: seq<string>, path: string)
    ensures SomeMatches(CompileAll(globs), path) <==> SomeMeans(globs, path)
  {
    if globs != [] {
      var init, last := globs[..|globs| - 1], globs[|globs| - 1];
      CompiledMatches(init, path);
      CompilerPreservesMeaning(last, path);
      assert globs == init + [last];
      OneGlobMore(init, last, path);
      if last == "" {
        assert CompileAll(globs) == CompileAll(init);
      } else {
        OneTextMore(CompileAll(init), CompiledText(last), path);
      }
    }
  }

  lemma {:induction false} CompiledEmpty(globs: seq<string>)
    ensures CompileAll(globs) == [] <==> forall g | g in globs :: g == ""
  {
    if globs != [] {
      var init, last := globs[..|globs| - 1], globs[|globs| - 1];
      CompiledEmpty(init);
      assert globs == init + [last];
      assert last in globs && forall g | g in init :: g in globs;
      assert CompileAll(globs) == [] <==> CompileAll(init) == [] && last == "";
    }
  }

  /** The matcher built from the globs decides by their meaning. */
  lemma MatcherMeansGlobs(included: seq<string>, excluded: seq<string>, path: string)
    ensures Decides(CompileAll(included), CompileAll(excluded), path) <==> Passes(included, excluded, path)
  {
    CompiledMatches(included, path);
    CompiledMatches(excluded, path);
    CompiledEmpty(included);
  }
}
