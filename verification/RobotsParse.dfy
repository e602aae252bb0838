/**
  Parsing robots.txt: a loop over the lines with a current group that is appended when the next one starts.
*/
module RobotsParse {
  import opened Basics
  import opened Strings
  import opened RobotsSelect

  datatype Directive = UserAgent(agent: string) | RuleLine(rule: Rule) | Delay(seconds: Option<int>) | Ignored

  /** `fmt.Sscanf(value, "%d", &delay)`: an optional sign and the digits that follow. */
  function ScanInt(value: string): Option<int> {
    if value != "" && value[0] == '-' then
      var n := ScanDigits(value[1..], None); if n.Some? then Some(-n.value) else None
    else if value != "" && value[0] == '+' then ScanDigits(value[1..], None)
    else ScanDigits(value, None)
  }

  function ScanDigits(value: string, n: Option<int>): Option<int>
    decreases |value|
  {
    if value != "" && '0' <= value[0] <= '9' then
      ScanDigits(value[1..], Some(10 * (if n.Some? then n.value else 0) + (value[0] as int - '0' as int)))
    else n
  }

  /** What one line says, once the comment is cut off. */
  function Classify(line: string): Directive {
    var l := Trim(line);
    if l == "" || HasPrefix(l, "#") then Ignored
    else
      var hash := Index(l, "#");
      Directed(if hash.Some? then Trim(l[..hash.value]) else l)
  }

  /** The directive name is taken in lower case and the value trimmed. */
  function Directed(text: string): Directive {
    var colon := Index(text, ":");
    if colon.None? then Ignored
    else
      var directive, value := Trim(ToLower(text[..colon.value])), Trim(text[colon.value + 1..]);
      if directive == "user-agent" then UserAgent(ToLower(value))
      else if directive == "disallow" then RuleLine(Rule(value, false))
      else if directive == "allow" then RuleLine(Rule(value, true))
      else if directive == "crawl-delay" then Delay(ScanInt(value))
      else Ignored
  }

  const NO_AGENT: Group := Group([], [], 0)

  datatype Building = Building(groups: seq<Group>, current: Option<Group>) {
    function CurrentOrNew(): Group {
      if current.Some? then current.value else NO_AGENT
    }

    function Feed(d: Directive): Building {
      match d
      case UserAgent(agent) =>
        Building(if current.Some? && current.value.rules != [] then groups + [current.value] else groups,
                 Some(Group([agent], [], 0)))
      case RuleLine(rule) => this.(current := Some(CurrentOrNew().(rules := CurrentOrNew().rules + [rule])))
      case Delay(seconds) =>
        this.(current := Some(if seconds.Some? && seconds.value > 0 then CurrentOrNew().(crawlDelay := seconds.value)
                              else CurrentOrNew()))
      case Ignored => this
    }

    /** The groups once the file has ended. */
    function Finish(): seq<Group> {
      if current.Some? then groups + [current.value] else groups
    }
  }

  /** What the lines say, one after the other. */
  function Directives(lines: seq<string>): seq<Directive> {
    seq(|lines|, i requires 0 <= i < |lines| => Classify(lines[i]))
  }

  /** The state after the directives. */
  function Built(ds: seq<Directive>): Building {
    if ds == [] then Building([], None) else Built(ds[..|ds| - 1]).Feed(ds[|ds| - 1])
  }

  /** The loop state after the first `n` lines. */
  ghost predicate Parsed(lines: seq<string>, n: nat, groups: seq<Group>, current: Option<Group>)
    requires n <= |lines|
  {
    Building(groups, current) == Built(Directives(lines[..n]))
  }

  lemma ParsedNext(lines: seq<string>, n: nat, groups: seq<Group>, current: Option<Group>)
    requires n < |lines| && Parsed(lines, n, groups, current)
    ensures var b := Building(groups, current).Feed(Classify(lines[n])); Parsed(lines, n + 1, b.groups, b.current)
  {
    assert Directives(lines[..n + 1]) == Directives(lines[..n]) + [Classify(lines[n])];
  }

  method ParseRobotsTxt(lines: seq<string>) returns (groups: seq<Group>)
    ensures groups == Built(Directives(lines)).Finish()
  {
    groups := [];
    var current: Option<Group> := None;
    for i := 0 to |lines|
      invariant Parsed(lines, i, groups, current)
    {
      ParsedNext(lines, i, groups, current);
      var d := Classify(lines[i]);
      match d
      case UserAgent(agent) =>
        if current.Some? && |current.value.rules| > 0 {
          groups := groups + [current.value];
        }
        current := Some(Group([agent], [], 0));
      case RuleLine(rule) =>
        if current.None? {
          current := Some(NO_AGENT);
        }
        current := Some(current.value.(rules := current.value.rules + [rule]));
      case Delay(seconds) =>
        if current.None? {
          current := Some(NO_AGENT);
        }
        if seconds.Some? && seconds.value > 0 {
          current := Some(current.value.(crawlDelay := seconds.value));
        }
      case Ignored =>
    }
    assert lines[..|lines|] == lines;
    if current.Some? {
      groups := groups + [current.value];
    }
  }

  // What the groups hold

  /** A rule with the agents it applies to. */
  datatype Owned = Owned(agents: seq<string>, rule: Rule)

  function RulesOf(g: Group): seq<Owned> {
    seq(|g.rules|, i requires 0 <= i < |g.rules| => Owned(g.agents, g.rules[i]))
  }

  function Flatten(groups: seq<Group>): seq<Owned> {
    if groups == [] then [] else Flatten(groups[..|groups| - 1]) + RulesOf(groups[|groups| - 1])
  }

  /** The nearest User-agent line at or before the end of the lines. */
  function NearestAgent(ds: seq<Directive>): seq<string> {
    if ds == [] then []
    else
      var d := ds[|ds| - 1];
      if d.UserAgent? then [d.agent] else NearestAgent(ds[..|ds| - 1])
  }

  /** The allow and disallow lines of the file in order, each with the nearest User-agent line before it. */
  function OwnedLines(ds: seq<Directive>): seq<Owned> {
    if ds == [] then []
    else
      var init, d := ds[..|ds| - 1], ds[|ds| - 1];
      OwnedLines(init) + if d.RuleLine? then [Owned(NearestAgent(init), d.rule)] else []
  }

  lemma FlattenAppend(groups: seq<Group>, g: Group)
    ensures Flatten(groups + [g]) == Flatten(groups) + RulesOf(g)
  {
    assert (groups + [g])[..|groups|] == groups;
  }

  /** All rules so far, with their owners. */
  function Rules(b: Building): seq<Owned> {
    Flatten(b.groups) + RulesOf(b.CurrentOrNew())
  }

  lemma RuleAdded(g: Group, rule: Rule)
    ensures RulesOf(g.(rules := g.rules + [rule])) == RulesOf(g) + [Owned(g.agents, rule)]
  {
  }

  lemma FeedKeepsRules(b: Building, d: Directive)
    ensures Rules(b.Feed(d)) == Rules(b) + if d.RuleLine? then [Owned(b.CurrentOrNew().agents, d.rule)] else []
  {
    if d.UserAgent? && b.current.Some? && b.current.value.rules != [] {
      FlattenAppend(b.groups, b.current.value);
    }
    if d.RuleLine? {
      RuleAdded(b.CurrentOrNew(), d.rule);
    }
  }

  lemma FeedAgents(b: Building, d: Directive)
    ensures b.Feed(d).CurrentOrNew().agents == if d.UserAgent? then [d.agent] else b.CurrentOrNew().agents
  {
  }

  lemma {:induction false} BuiltOwns(ds: seq<Directive>)
    ensures Built(ds).CurrentOrNew().agents == NearestAgent(ds)
    ensures Rules(Built(ds)) == OwnedLines(ds)
  {
    if ds != [] {
      var init, d := ds[..|ds| - 1], ds[|ds| - 1];
      BuiltOwns(init);
      FeedKeepsRules(Built(init), d);
      FeedAgents(Built(init), d);
    }
  }

  /** Flattened, the groups are exactly the file's rules in order, none lost or repeated, and each is owned by the
      nearest User-agent line before it, or by nobody. */
  lemma RulesConserved(ds: seq<Directive>)
    ensures Flatten(Built(ds).Finish()) == OwnedLines(ds)
  {
    BuiltOwns(ds);
    var b := Built(ds);
    if b.current.Some? {
      FlattenAppend(b.groups, b.current.value);
    }
  }

  /** An agent has rules only through lines that have it as their nearest agent. */
  lemma AgentOwnsNearestOnly(ds: seq<Directive>, g: Group)
    requires g in Built(ds).Finish()
    ensures forall r | r in g.rules :: Owned(g.agents, r) in OwnedLines(ds)
  {
    RulesConserved(ds);
    FlattenHas(Built(ds).Finish(), g);
  }

  lemma {:induction false} FlattenHas(groups: seq<Group>, g: Group)
    requires g in groups
    ensures forall r | r in g.rules :: Owned(g.agents, r) in Flatten(groups)
  {
    var init, last := groups[..|groups| - 1], groups[|groups| - 1];
    assert groups == init + [last];
    if g == last {
      forall r | r in g.rules ensures Owned(g.agents, r) in Flatten(groups) {
        var i :| 0 <= i < |g.rules| && g.rules[i] == r;
        assert RulesOf(g)[i] == Owned(g.agents, r);
      }
    } else {
      FlattenHas(init, g);
    }
  }

  // Crawl delays

  /** The last positive delay since the nearest User-agent line. */
  function NearestDelay(ds: seq<Directive>): nat {
    if ds == [] then 0
    else
      match ds[|ds| - 1]
      case UserAgent(_) => 0
      case Delay(Some(n)) => if n > 0 then n else NearestDelay(ds[..|ds| - 1])
      case _ => NearestDelay(ds[..|ds| - 1])
  }

  lemma {:induction false} DelayInForce(ds: seq<Directive>)
    ensures Built(ds).CurrentOrNew().crawlDelay == NearestDelay(ds)
  {
    if ds != [] {
      DelayInForce(ds[..|ds| - 1]);
    }
  }

  /** The group was the current one at the end of the file or at a User-agent line. */
  ghost predicate ClosedAt(ds: seq<Directive>, g: Group, n: nat) {
    && n <= |ds| && (n == |ds| || ds[n].UserAgent?)
    && Built(ds[..n]).current == Some(g)
  }

  lemma {:induction false} GroupsClosed(ds: seq<Directive>, g: Group)
    requires g in Built(ds).groups
    ensures exists n: nat :: n < |ds| && ClosedAt(ds, g, n)
  {
    var m := |ds| - 1;
    var init := ds[..m];
    if g in Built(init).groups {
      GroupsClosed(init, g);
      var n: nat :| n < m && ClosedAt(init, g, n);
      assert init[..n] == ds[..n] && init[n] == ds[n];
      assert ClosedAt(ds, g, n);
    } else {
      assert ClosedAt(ds, g, m);
    }
  }

  /** Every group has the agent, and the last positive delay, that were in force where it ended. */
  lemma DelaysOwned(ds: seq<Directive>, g: Group)
    requires g in Built(ds).Finish()
    ensures exists n: nat ::
              ClosedAt(ds, g, n) && g.agents == NearestAgent(ds[..n]) && g.crawlDelay == NearestDelay(ds[..n])
  {
    var n: nat;
    if g in Built(ds).groups {
      GroupsClosed(ds, g);
      n :| n < |ds| && ClosedAt(ds, g, n);
    } else {
      n := |ds|;
      assert ds[..n] == ds;
    }
    BuiltOwns(ds[..n]);
    DelayInForce(ds[..n]);
    assert ClosedAt(ds, g, n);
  }

  ghost predicate NoRule(ds: seq<Directive>) {
    forall d | d in ds :: !d.RuleLine?
  }

  /** What a building state looks like after a User-agent line as long as no rule comes. */
  ghost predicate Stacking(from: Building, b: Building) {
    && b.groups == (if from.current.Some? && from.current.value.rules != [] then from.groups + [from.current.value]
                    else from.groups)
    && b.current.Some? && b.current.value.rules == []
  }

  lemma {:induction false} StackingGoesOn(ds: seq<Directive>, first: Directive, between: seq<Directive>)
    requires first.UserAgent? && NoRule(between)
    ensures Stacking(Built(ds), Built(ds + [first] + between))
    decreases |between|
  {
    if between == [] {
      assert ds + [first] + between == ds + [first];
    } else {
      var init, last := between[..|between| - 1], between[|between| - 1];
      assert between == init + [last] && last in between;
      var all := ds + [first] + init;
      StackingGoesOn(ds, first, init);
      Regroup(ds + [first], init, [last]);
    }
  }

  /** A User-agent line, and all that follows it up to the next User-agent line, is forgotten if no rule comes between:
      comments, blank and unknown lines, even a delay. Whatever comes before and after, the file without that segment
      gives the same groups. */
  lemma StackedAgentForgotten(ds: seq<Directive>, first: Directive, between: seq<Directive>, second: Directive,
                              rest: seq<Directive>)
    requires first.UserAgent? && NoRule(between) && second.UserAgent?
    ensures Built(ds + [first] + between + [second] + rest).Finish() == Built(ds + [second] + rest).Finish()
  {
    StackingGoesOn(ds, first, between);
    SameContinuation(ds + [first] + between + [second], ds + [second], rest);
  }

  lemma {:induction false} SameContinuation(x: seq<Directive>, y: seq<Directive>, rest: seq<Directive>)
    requires Built(x) == Built(y)
    ensures Built(x + rest) == Built(y + rest)
  {
    if rest == [] {
      assert x + rest == x && y + rest == y;
    } else {
      var init, last := rest[..|rest| - 1], rest[|rest| - 1];
      SameContinuation(x, y, init);
      InitOfConcat(x, rest);
      InitOfConcat(y, rest);
    }
  }

  // Who owns a rule by section 2.2.1 of RFC 9309

  /** The last line that is a rule or a User-agent line is a User-agent line. */
  predicate RunIsOpen(ds: seq<Directive>) {
    ds != [] &&
    match ds[|ds| - 1]
    case UserAgent(_) => true
    case RuleLine(_) => false
    case _ => RunIsOpen(ds[..|ds| - 1])
  }

  /** The agents of the latest run of User-agent lines with no rule line between. */
  function RunAgents(ds: seq<Directive>): seq<string> {
    if ds == [] then []
    else
      var init, d := ds[..|ds| - 1], ds[|ds| - 1];
      if !d.UserAgent? then RunAgents(init)
      else if RunIsOpen(init) then RunAgents(init) + [d.agent]
      else [d.agent]
  }

  /** The rules of the file, each with all the agents of the run before it. */
  function SharedLines(ds: seq<Directive>): seq<Owned> {
    if ds == [] then []
    else
      var init, d := ds[..|ds| - 1], ds[|ds| - 1];
      SharedLines(init) + if d.RuleLine? then [Owned(RunAgents(init), d.rule)] else []
  }

  predicate AllEqual(agents: seq<string>) {
    forall i, j | 0 <= i < j < |agents| :: agents[i] == agents[j]
  }

  /** Before every rule line all agents of the run are the same. */
  ghost predicate SingleAgents(ds: seq<Directive>) {
    forall n | 0 <= n < |ds| && ds[n].RuleLine? :: AllEqual(RunAgents(ds[..n]))
  }

  function AgentSet(agents: seq<string>): set<string> {
    set a | a in agents
  }

  /** The same rules in the same order, each with the same agents. */
  ghost predicate SameOwners(a: seq<Owned>, b: seq<Owned>) {
    |a| == |b| && forall i | 0 <= i < |a| :: SameOwner(a[i], b[i])
  }

  ghost predicate SameOwner(x: Owned, y: Owned) {
    x.rule == y.rule && AgentSet(x.agents) == AgentSet(y.agents)
  }

  lemma {:induction false} NearestIsLast(ds: seq<Directive>)
    ensures RunIsOpen(ds) ==> RunAgents(ds) != []
    ensures RunAgents(ds) == [] ==> NearestAgent(ds) == []
    ensures RunAgents(ds) != [] ==> NearestAgent(ds) == [RunAgents(ds)[|RunAgents(ds)| - 1]]
  {
    if ds != [] {
      NearestIsLast(ds[..|ds| - 1]);
    }
  }

  lemma NearestIsAll(ds: seq<Directive>)
    ensures AgentSet(NearestAgent(ds)) == AgentSet(RunAgents(ds)) <==> AllEqual(RunAgents(ds))
  {
    var agents := RunAgents(ds);
    NearestIsLast(ds);
    if agents != [] {
      var last := agents[|agents| - 1];
      assert AgentSet(NearestAgent(ds)) == {last};
      if AgentSet(agents) == {last} {
        forall i | 0 <= i < |agents| ensures agents[i] == last {
          assert agents[i] in AgentSet(agents);
        }
      }
    }
  }

  /** The parser gives every rule to the agents that section 2.2.1 gives it to, exactly when before every rule line of
      the file all agents of the run are the same one, whatever else stands between them. */
  lemma SharedIff(ds: seq<Directive>)
    ensures SameOwners(Flatten(Built(ds).Finish()), SharedLines(ds)) <==> SingleAgents(ds)
  {
    RulesConserved(ds);
    OwnersAgree(ds);
  }

  lemma {:induction false} OwnersAgree(ds: seq<Directive>)
    ensures |OwnedLines(ds)| == |SharedLines(ds)|
    ensures SameOwners(OwnedLines(ds), SharedLines(ds)) <==> SingleAgents(ds)
  {
    if ds != [] {
      var n := |ds| - 1;
      var init, d := ds[..n], ds[n];
      OwnersAgree(init);
      NearestIsAll(init);
      SingleNext(ds);
      if d.RuleLine? {
        LastDiffers(OwnedLines(init), SharedLines(init), Owned(NearestAgent(init), d.rule),
                    Owned(RunAgents(init), d.rule));
      } else {
        assert OwnedLines(ds) == OwnedLines(init) && SharedLines(ds) == SharedLines(init);
      }
    }
  }

  lemma SingleNext(ds: seq<Directive>)
    requires ds != []
    ensures var n := |ds| - 1;
      SingleAgents(ds) <==>
      SingleAgents(ds[..n]) && (ds[n].RuleLine? ==> AllEqual(RunAgents(ds[..n])))
  {
    var n := |ds| - 1;
    assert forall k | 0 <= k < n :: ds[..n][..k] == ds[..k] && ds[..n][k] == ds[k];
  }

  lemma LastDiffers(a: seq<Owned>, b: seq<Owned>, x: Owned, y: Owned)
    requires |a| == |b|
    ensures SameOwners(a + [x], b + [y]) <==> SameOwners(a, b) && SameOwner(x, y)
  {
    var n, s, t := |a|, a + [x], b + [y];
    assert s[n] == x && t[n] == y;
    assert forall i | 0 <= i < n :: s[i] == a[i] && t[i] == b[i];
  }
}
