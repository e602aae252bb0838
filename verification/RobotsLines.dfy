/**
  What one line of a robots.txt file says, by its text: the part before a `#`, a directive name in any case with blanks
  around it, a colon, and a value with blanks around it.
*/
module RobotsLines {
  import opened Basics
  import opened Strings
  import opened RobotsSelect
  import opened RobotsParse

  // Trimming

  predicate Blank(s: string) {
    forall c | c in s :: IsSpace(c)
  }

  lemma {:induction false} TrimLeftIs(blank: string, rest: string)
    requires Blank(blank) && (rest != "" ==> !IsSpace(rest[0]))
    ensures TrimLeft(blank + rest) == rest
    decreases |blank|
  {
    if blank == "" {
      assert blank + rest == rest;
    } else {
      assert (blank + rest)[1..] == blank[1..] + rest && blank[0] in blank;
      TrimLeftIs(blank[1..], rest);
    }
  }

  lemma {:induction false} TrimRightIs(rest: string, blank: string)
    requires Blank(blank) && (rest != "" ==> !IsSpace(rest[|rest| - 1]))
    ensures TrimRight(rest + blank) == rest
    decreases |blank|
  {
    if blank == "" {
      assert rest + blank == rest;
    } else {
      var n := |blank| - 1;
      assert (rest + blank)[..|rest + blank| - 1] == rest + blank[..n] && blank[n] in blank;
      TrimRightIs(rest, blank[..n]);
    }
  }

  /** Trimming takes off the blanks around a text and nothing else. */
  lemma TrimIs(left: string, core: string, right: string)
    requires Blank(left) && Blank(right) && Trimmed(core)
    ensures Trim(left + core + right) == core
  {
    if core == "" {
      assert left + core + right == (left + right) + "";
      assert forall c | c in left + right :: c in left || c in right;
      TrimLeftIs(left + right, "");
    } else {
      Regroup(left, core, right);
      assert (core + right)[0] == core[0];
      TrimLeftIs(left, core + right);
      TrimRightIs(core, right);
    }
  }

  lemma {:induction false} LeftBlanks(s: string) returns (blank: string)
    ensures Blank(blank) && s == blank + TrimLeft(s)
  {
    if s != "" && IsSpace(s[0]) {
      var more := LeftBlanks(s[1..]);
      blank := [s[0]] + more;
      assert s == [s[0]] + s[1..];
    } else {
      blank := "";
    }
  }

  lemma {:induction false} RightBlanks(s: string) returns (blank: string)
    ensures Blank(blank) && s == TrimRight(s) + blank
  {
    if s != "" && IsSpace(s[|s| - 1]) {
      var more := RightBlanks(s[..|s| - 1]);
      blank := more + [s[|s| - 1]];
      assert s == s[..|s| - 1] + [s[|s| - 1]];
    } else {
      blank := "";
    }
  }

  lemma TrimAround(s: string) returns (left: string, right: string)
    ensures Blank(left) && Blank(right) && s == left + Trim(s) + right
  {
    left := LeftBlanks(s);
    right := RightBlanks(TrimLeft(s));
    Regroup(left, Trim(s), right);
  }

  /** Blanks added around a text do not matter. */
  lemma TrimPadded(left: string, s: string, right: string)
    requires Blank(left) && Blank(right)
    ensures Trim(left + s + right) == Trim(s)
  {
    var a, b := TrimAround(s);
    TrimTrims(s);
    var core := Trim(s);
    assert left + s + right == (left + a) + core + (b + right);
    assert forall c | c in left + a :: c in left || c in a;
    assert forall c | c in b + right :: c in b || c in right;
    TrimIs(left + a, core, b + right);
  }

  lemma BlankTrims(s: string)
    ensures Trim(s) == "" <==> Blank(s)
  {
    var a, b := TrimAround(s);
    if Blank(s) {
      assert s + "" + "" == s;
      TrimIs(s, "", "");
    }
    if Trim(s) == "" {
      assert s == a + b;
    }
  }

  // Comments

  /** The line up to its first `#`. */
  function Uncommented(line: string): string {
    Split(line, '#')[0]
  }

  lemma {:induction false} FirstOf(s: string, sep: char)
    ensures Split(s, sep)[0] <= s && sep !in Split(s, sep)[0]
    ensures s[..|Split(s, sep)[0]|] == Split(s, sep)[0]
    ensures sep !in s ==> Split(s, sep)[0] == s
    ensures sep in s ==> |Split(s, sep)[0]| < |s| && s[|Split(s, sep)[0]|] == sep
    decreases |s|
  {
    if s != "" && s[0] != sep {
      FirstOf(s[1..], sep);
      assert s == [s[0]] + s[1..];
    }
  }

  lemma OccursIs(s: string, c: char, i: nat)
    ensures OccursAt(s, [c], i) <==> i < |s| && s[i] == c
  {
    if i < |s| {
      assert s[i..i + 1] == [s[i]];
    }
  }

  /** `strings.Index` of one character: the first part of the split ends there. */
  lemma IndexOfChar(s: string, c: char)
    ensures Index(s, [c]) == if c in s then Some(|Split(s, c)[0]|) else None
  {
    FirstOf(s, c);
    forall i: nat ensures OccursAt(s, [c], i) <==> i < |s| && s[i] == c {
      OccursIs(s, c, i);
    }
    if c in s {
      IndexIs(s, c, |Split(s, c)[0]|);
    }
  }

  lemma IndexIs(s: string, c: char, n: nat)
    requires n < |s| && s[n] == c && c !in s[..n]
    ensures Index(s, [c]) == Some(n)
  {
    OccursIs(s, c, n);
    forall i: nat | i < n ensures !OccursAt(s, [c], i) {
      OccursIs(s, c, i);
      assert s[..n][i] == s[i];
    }
  }

  lemma FirstAfterBlanks(left: string, core: string, right: string)
    requires Blank(left) && Blank(right)
    ensures Uncommented(left + core + right) == left + if '#' in core then Uncommented(core) else core + right
  {
    assert '#' !in left && '#' !in right;
    FirstOf(core, '#');
    if '#' in core {
      var h := |Uncommented(core)|;
      assert core == core[..h] + ['#'] + core[h + 1..];
      assert left + core + right == (left + core[..h]) + ['#'] + (core[h + 1..] + right);
      SplitJoin(left + core[..h], '#', core[h + 1..] + right);
      SplitCount(left + core[..h], '#');
    } else {
      SplitCount(left + core + right, '#');
    }
  }

  lemma NothingDirected()
    ensures Directed("") == Ignored
  {
    IndexOfChar("", ':');
  }

  /** What is left of a trimmed line without its comment. */
  lemma CommentCut(l: string)
    requires Trimmed(l)
    ensures Classify(l) == Directed(Trim(Uncommented(l)))
  {
    assert Trim(l) == l by {
      assert "" + l + "" == l;
      TrimIs("", l, "");
    }
    IndexOfChar(l, '#');
    FirstOf(l, '#');
    NothingDirected();
    BlankTrims("");
    if '#' in l {
      assert l[..|Uncommented(l)|] == Uncommented(l);
      assert HasPrefix(l, "#") <==> Uncommented(l) == "";
    }
  }

  lemma UncommentedTrims(line: string)
    ensures Trim(Uncommented(line)) == Trim(Uncommented(Trim(line)))
  {
    var l := Trim(line);
    var left, right := TrimAround(line);
    FirstAfterBlanks(left, l, right);
    FirstOf(l, '#');
    if '#' in l {
      TrimPadded(left, Uncommented(l), "");
      assert left + Uncommented(l) + "" == left + Uncommented(l);
    } else {
      TrimPadded(left, l, right);
      Regroup(left, l, right);
    }
  }

  /** Only the text before the first `#` counts, without the blanks around it. */
  lemma ClassifyReads(line: string)
    ensures Classify(line) == Directed(Trim(Uncommented(line)))
  {
    TrimTrims(line);
    CommentCut(Trim(line));
    UncommentedTrims(line);
    assert Classify(line) == Classify(Trim(line));
  }

  /** A `#` and what follows it change nothing. */
  lemma CommentsChangeNothing(line: string, comment: string)
    ensures Classify(line + "#" + comment) == Classify(line)
  {
    ClassifyReads(line);
    ClassifyReads(line + "#" + comment);
    SplitJoin(line, '#', comment);
  }

  // Directives

  /** `word` is `name` up to the case of ASCII letters; `name` is in lower case. */
  predicate Spells(word: string, name: string) {
    |word| == |name| &&
    forall i | 0 <= i < |name| ::
      word[i] == name[i] || ('a' <= name[i] <= 'z' && word[i] as int + 32 == name[i] as int)
  }

  predicate IsName(name: string) {
    forall c | c in name :: 'a' <= c <= 'z' || c == '-'
  }

  lemma SpellingLowers(word: string, name: string)
    requires IsName(name) && Spells(word, name)
    ensures ToLower(word) == name
    ensures ':' !in word && '#' !in word && Trimmed(word)
  {
    forall i | 0 <= i < |word|
      ensures ToLower(word)[i] == name[i] && word[i] != ':' && word[i] != '#' && !IsSpace(word[i])
    {
      assert name[i] in name;
    }
  }

  lemma BlankLowers(blank: string)
    requires Blank(blank)
    ensures ToLower(blank) == blank
  {
    forall i | 0 <= i < |blank| ensures ToLower(blank)[i] == blank[i] {
      assert blank[i] in blank;
    }
  }

  lemma LowerConcat(x: string, y: string)
    ensures ToLower(x + y) == ToLower(x) + ToLower(y)
  {
  }

  /** A line with a directive name, as it is read. */
  lemma LineIs(left: string, word: string, right: string, value: string)
    requires Blank(left) && Blank(right) && word != "" && Trimmed(word)
    requires ':' !in word && '#' !in word && '#' !in value
    ensures var line := left + word + right + ":" + value;
      Trim(Uncommented(line)) == word + right + ":" + TrimRight(value)
  {
    var line, front := left + word + right + ":" + value, word + right + ":";
    var blank := RightBlanks(value);
    NoComment(left, word, right, value);
    ColonTrims(word + right, value);
    FrontKeeps(front, TrimRight(value), word[0]);
    LineParts(left, word, right, value, TrimRight(value), blank);
    TrimIs(left, front + TrimRight(value), blank);
  }

  lemma FrontKeeps(front: string, back: string, c: char)
    requires front != "" && front[0] == c
    ensures front + back != "" && (front + back)[0] == c
  {
  }

  lemma LineParts(left: string, word: string, right: string, value: string, back: string, blank: string)
    requires value == back + blank
    ensures left + word + right + ":" + value == left + (word + right + ":" + back) + blank
  {
    var front := word + right + ":";
    assert left + word + right + ":" == left + front;
    Regroup(left + front, back, blank);
    Regroup(left, front, back);
  }

  lemma NoComment(left: string, word: string, right: string, value: string)
    requires Blank(left) && Blank(right) && '#' !in word && '#' !in value
    ensures Uncommented(left + word + right + ":" + value) == left + word + right + ":" + value
  {
    assert '#' !in left && '#' !in right;
    assert '#' !in left + word && '#' !in left + word + right;
    FirstOf(left + word + right + ":" + value, '#');
  }

  /** A text with a colon ends in its value, or in the colon. */
  lemma ColonTrims(front: string, value: string)
    ensures var text := front + ":" + TrimRight(value); !IsSpace(text[|text| - 1])
  {
    TrimRightKeepsStart(value);
    var text, back := front + ":" + TrimRight(value), TrimRight(value);
    assert back == "" ==> text[|text| - 1] == ':';
    assert back != "" ==> text[|text| - 1] == back[|back| - 1];
  }

  lemma NameTrims(word: string, right: string)
    requires Blank(right) && Trimmed(ToLower(word))
    ensures Trim(ToLower(word + right)) == ToLower(word)
  {
    LowerConcat(word, right);
    BlankLowers(right);
    assert "" + ToLower(word) + right == ToLower(word + right);
    TrimIs("", ToLower(word), right);
  }

  lemma ValueTrims(value: string)
    ensures Trim(TrimRight(value)) == Trim(value)
  {
    var blank := RightBlanks(value);
    assert "" + TrimRight(value) + blank == value;
    TrimPadded("", TrimRight(value), blank);
  }

  lemma TextSays(word: string, right: string, value: string)
    requires Blank(right) && word != "" && Trimmed(ToLower(word)) && ':' !in word
    ensures var text := word + right + ":" + TrimRight(value);
      && Index(text, ":") == Some(|word + right|)
      && Trim(ToLower(text[..|word + right|])) == ToLower(word)
      && Trim(text[|word + right| + 1..]) == Trim(value)
  {
    var front, back := word + right, TrimRight(value);
    var text := front + ":" + back;
    assert ':' !in right;
    assert text[..|front|] == front && text[|front| + 1..] == back && text[|front|] == ':';
    IndexIs(text, ':', |front|);
    NameTrims(word, right);
    ValueTrims(value);
  }

  /** What a line with a name, a colon and a value without a comment says. */
  lemma LineSays(left: string, word: string, right: string, value: string)
    requires Blank(left) && Blank(right) && word != "" && Trimmed(word) && Trimmed(ToLower(word))
    requires ':' !in word && '#' !in word && '#' !in value
    ensures var d, name := Classify(left + word + right + ":" + value), ToLower(word);
      && (name == "disallow" ==> d == RuleLine(Rule(Trim(value), false)))
      && (name == "allow" ==> d == RuleLine(Rule(Trim(value), true)))
      && (name == "user-agent" ==> d == UserAgent(ToLower(Trim(value))))
      && (name == "crawl-delay" ==> d == Delay(ScanInt(Trim(value))))
      && (name !in {"disallow", "allow", "user-agent", "crawl-delay"} ==> d == Ignored)
  {
    ClassifyReads(left + word + right + ":" + value);
    LineIs(left, word, right, value);
    TextSays(word, right, value);
  }

  lemma SpelledSays(left: string, word: string, right: string, value: string, name: string)
    requires Blank(left) && Blank(right) && '#' !in value && name != "" && IsName(name) && Spells(word, name)
    ensures var d := Classify(left + word + right + ":" + value);
      && (name == "disallow" ==> d == RuleLine(Rule(Trim(value), false)))
      && (name == "allow" ==> d == RuleLine(Rule(Trim(value), true)))
      && (name == "user-agent" ==> d == UserAgent(ToLower(Trim(value))))
      && (name == "crawl-delay" ==> d == Delay(ScanInt(Trim(value))))
  {
    SpellingLowers(word, name);
    LineSays(left, word, right, value);
  }

  /** In any spelling, with blanks around the name and the value: a disallow line forbids its value and an allow line
      allows it, a User-agent line names an agent in lower case, and a crawl delay is a number. */
  lemma DirectivesMean(left: string, word: string, right: string, value: string)
    requires Blank(left) && Blank(right) && '#' !in value
    ensures var d := Classify(left + word + right + ":" + value);
      && (Spells(word, "disallow") ==> d == RuleLine(Rule(Trim(value), false)))
      && (Spells(word, "allow") ==> d == RuleLine(Rule(Trim(value), true)))
      && (Spells(word, "user-agent") ==> d == UserAgent(ToLower(Trim(value))))
      && (Spells(word, "crawl-delay") ==> d == Delay(ScanInt(Trim(value))))
  {
    if Spells(word, "disallow") {
      SpelledSays(left, word, right, value, "disallow");
    }
    if Spells(word, "allow") {
      SpelledSays(left, word, right, value, "allow");
    }
    if Spells(word, "user-agent") {
      SpelledSays(left, word, right, value, "user-agent");
    }
    if Spells(word, "crawl-delay") {
      SpelledSays(left, word, right, value, "crawl-delay");
    }
  }

  lemma LoweredIsSpelled(word: string)
    ensures Spells(word, ToLower(word))
  {
  }

  /** A line whose name is none of these, in any spelling, says nothing. */
  lemma OthersAreIgnored(left: string, word: string, right: string, value: string)
    requires Blank(left) && Blank(right) && word != "" && Trimmed(word) && ':' !in word && '#' !in word
    requires '#' !in value
    requires !Spells(word, "disallow") && !Spells(word, "allow") && !Spells(word, "user-agent")
    requires !Spells(word, "crawl-delay")
    ensures Classify(left + word + right + ":" + value) == Ignored
  {
    LoweredIsSpelled(word);
    LowerTrimmed(word);
    LineSays(left, word, right, value);
  }

  lemma LowerTrimmed(word: string)
    requires Trimmed(word)
    ensures Trimmed(ToLower(word))
  {
  }

  /** So does a line that is blank or has no colon before its comment, or only blanks before its colon. */
  lemma EmptyLinesAreIgnored(line: string)
    requires Blank(Split(Uncommented(line), ':')[0]) || ':' !in Uncommented(line)
    ensures Classify(line) == Ignored
  {
    ClassifyReads(line);
    var u := Uncommented(line);
    var left, right := TrimAround(u);
    var text := Trim(u);
    IndexOfChar(text, ':');
    FirstOf(text, ':');
    if text != "" && ':' in text {
      var n := |Split(text, ':')[0]|;
      assert ':' in u;
      BeforeColon(left, text, right);
      var name := text[..n];
      assert Blank(name) by {
        assert forall c | c in name :: c in left + name;
      }
      BlankLowers(name);
      BlankTrims(name);
    }
  }

  lemma BeforeColon(left: string, text: string, right: string)
    requires Blank(left) && ':' in text
    ensures Split(left + text + right, ':')[0] == left + Split(text, ':')[0]
  {
    FirstOf(text, ':');
    var n := |Split(text, ':')[0]|;
    assert ':' !in left;
    assert text == text[..n] + [':'] + text[n + 1..];
    assert left + text + right == (left + text[..n]) + [':'] + (text[n + 1..] + right);
    SplitJoin(left + text[..n], ':', text[n + 1..] + right);
    SplitCount(left + text[..n], ':');
  }

  // Numbers

  predicate IsDigit(c: char) {
    '0' <= c <= '9'
  }

  predicate Digits(s: string) {
    forall i | 0 <= i < |s| :: IsDigit(s[i])
  }

  function Digit(c: char): int {
    c as int - '0' as int
  }

  /** The number that decimal digits stand for. */
  function Decimal(digits: string): int {
    if digits == "" then 0 else 10 * Decimal(digits[..|digits| - 1]) + Digit(digits[|digits| - 1])
  }

  lemma DecimalBack(digits: string, c: char)
    ensures Decimal(digits + [c]) == 10 * Decimal(digits) + Digit(c)
  {
    assert (digits + [c])[..|digits|] == digits;
  }

  lemma ScanStep(s: string, n: Option<int>)
    requires s != "" && IsDigit(s[0])
    ensures ScanDigits(s, n) == ScanDigits(s[1..], Some(10 * (if n.Some? then n.value else 0) + Digit(s[0])))
  {
  }

  lemma {:induction false} ScanGoesOn(before: string, digits: string, rest: string)
    requires Digits(digits) && (rest == "" || !IsDigit(rest[0]))
    ensures ScanDigits(digits + rest, Some(Decimal(before))) == Some(Decimal(before + digits))
    decreases |digits|
  {
    if digits == "" {
      assert digits + rest == rest && before + digits == before;
    } else {
      var c, more := digits[0], digits[1..];
      assert (digits + rest)[0] == c && (digits + rest)[1..] == more + rest;
      assert before + digits == (before + [c]) + more;
      ScanStep(digits + rest, Some(Decimal(before)));
      DecimalBack(before, c);
      ScanGoesOn(before + [c], more, rest);
    }
  }

  lemma ScanNumeral(digits: string, rest: string)
    requires digits != "" && Digits(digits) && (rest == "" || !IsDigit(rest[0]))
    ensures ScanDigits(digits + rest, None) == Some(Decimal(digits))
  {
    var c, more := digits[0], digits[1..];
    assert (digits + rest)[0] == c && (digits + rest)[1..] == more + rest && [c] + more == digits;
    ScanStep(digits + rest, None);
    DecimalBack("", c);
    assert "" + [c] == [c];
    ScanGoesOn([c], more, rest);
  }

  lemma SignedScan(s: string)
    ensures s == "" || s[0] !in {'+', '-'} ==> ScanInt(s) == ScanDigits(s, None)
    ensures s != "" && s[0] == '+' ==> ScanInt(s) == ScanDigits(s[1..], None)
    ensures s != "" && s[0] == '-' ==>
              var n := ScanDigits(s[1..], None); ScanInt(s) == if n.Some? then Some(-n.value) else None
  {
  }

  /** A decimal numeral scans to its value, up to the first character that is not a digit, with its sign; a text that
      does not start with one scans to nothing. */
  lemma ScanIntIs(digits: string, rest: string)
    requires Digits(digits) && (rest == "" || !IsDigit(rest[0]))
    ensures digits != "" ==> ScanInt(digits + rest) == Some(Decimal(digits))
    ensures digits != "" ==> ScanInt("+" + (digits + rest)) == Some(Decimal(digits))
    ensures digits != "" ==> ScanInt("-" + (digits + rest)) == Some(-Decimal(digits))
    ensures rest == "" || rest[0] !in {'+', '-'} ==> ScanInt(rest).None?
  {
    SignedScan(rest);
    if digits != "" {
      var s := digits + rest;
      ScanNumeral(digits, rest);
      assert s[0] == digits[0];
      SignedScan(s);
      assert ("+" + s)[1..] == s && ("-" + s)[1..] == s;
      SignedScan("+" + s);
      SignedScan("-" + s);
    }
  }
}
