/**
  Choosing the group for a user agent and the rule for a path: early-exit scans that compute an argmax.
*/
module RobotsSelect {
  import opened Basics
  import opened Strings
  import opened RobotsMatch

  datatype Rule = Rule(pattern: string, allowed: bool)

  datatype Group = Group(agents: seq<string>, rules: seq<Rule>, crawlDelay: nat)

  // The group

  /** How well an agent line fits: exactly, as a prefix by its length, as the wildcard, or not at all. */
  function Rank(agent: string, ua: string): int {
    if agent == ua then |ua| + 1
    else if agent == "*" then 0
    else if HasPrefix(ua, agent) then |agent|
    else -1
  }

  function BestRank(agents: seq<string>, ua: string): int {
    if agents == [] then -1
    else
      var before, last := BestRank(agents[..|agents| - 1], ua), Rank(agents[|agents| - 1], ua);
      if last > before then last else before
  }

  /** The group with the best rank, the earliest on ties. */
  ghost predicate IsBestGroup(groups: seq<Group>, ua: string, i: nat) {
    && i < |groups| && BestRank(groups[i].agents, ua) >= 0
    && (forall j | 0 <= j < |groups| :: BestRank(groups[j].agents, ua) <= BestRank(groups[i].agents, ua))
    && (forall j | 0 <= j < i :: BestRank(groups[j].agents, ua) < BestRank(groups[i].agents, ua))
  }

  lemma {:induction false} RankBounds(agents: seq<string>, ua: string)
    ensures -1 <= BestRank(agents, ua) <= |ua| + 1
    ensures forall a | a in agents :: Rank(a, ua) <= BestRank(agents, ua)
    ensures BestRank(agents, ua) == -1 || exists a | a in agents :: Rank(a, ua) == BestRank(agents, ua)
  {
    if agents != [] {
      var init, last := agents[..|agents| - 1], agents[|agents| - 1];
      RankBounds(init, ua);
      assert agents == init + [last];
      assert last in agents;
    }
  }

  /** The scan of `ForUserAgent`: which group the rules are taken from. */
  method SelectGroup(groups: seq<Group>, userAgent: string) returns (best: Option<nat>)
    ensures best.Some? ==> IsBestGroup(groups, ToLower(userAgent), best.value)
    ensures best.None? ==> forall g | g in groups :: BestRank(g.agents, ToLower(userAgent)) == -1
  {
    var ua := ToLower(userAgent);
    var bestMatchLen := -1;
    best := None;
    for i := 0 to |groups|
      invariant Leads(groups, ua, i, -1, best, bestMatchLen)
    {
      var agents := groups[i].agents;
      for k := 0 to |agents|
        invariant Leads(groups, ua, i, BestRank(agents[..k], ua), best, bestMatchLen)
      {
        var agent := agents[k];
        LeadsNext(groups, ua, i, agents, k, best, bestMatchLen);
        if agent == ua {
          return Some(i);
        }
        if agent == "*" {
          if bestMatchLen < 0 {
            best, bestMatchLen := Some(i), 0;
          }
          continue;
        }
        if HasPrefix(ua, agent) {
          if |agent| > bestMatchLen {
            best, bestMatchLen := Some(i), |agent|;
          }
        }
      }
      assert agents[..|agents|] == agents;
    }
  }

  /** After the groups before `n` and, with rank `partial`, some agents of group `n`: the best so far, none exact. */
  ghost predicate Leads(groups: seq<Group>, ua: string, n: nat, partial: int, best: Option<nat>, rank: int)
    requires n <= |groups|
  {
    && -1 <= rank <= |ua| && partial <= rank
    && (best.None? <==> rank == -1)
    && (forall j | 0 <= j < n :: BestRank(groups[j].agents, ua) <= rank)
    && (best.Some? ==>
          && best.value <= n
          && (forall j | 0 <= j < best.value :: BestRank(groups[j].agents, ua) < rank)
          && (if best.value == n then n < |groups| && partial == rank
              else BestRank(groups[best.value].agents, ua) == rank))
  }

  lemma LeadsNext(groups: seq<Group>, ua: string, i: nat, agents: seq<string>, k: nat, best: Option<nat>, rank: int)
    requires i < |groups| && agents == groups[i].agents && k < |agents|
    requires Leads(groups, ua, i, BestRank(agents[..k], ua), best, rank)
    ensures agents[k] == ua ==> IsBestGroup(groups, ua, i)
    ensures agents[k] != ua ==>
              var now, next := Rank(agents[k], ua), BestRank(agents[..k + 1], ua);
              if now > rank then Leads(groups, ua, i, next, Some(i), now) else Leads(groups, ua, i, next, best, rank)
  {
    assert agents[..k + 1][..k] == agents[..k];
    if agents[k] == ua {
      ExactIsBest(groups, ua, i, agents[k]);
    }
  }

  /** No agent fits better than one that is the user agent itself. */
  lemma ExactIsBest(groups: seq<Group>, ua: string, i: nat, agent: string)
    requires i < |groups| && agent in groups[i].agents && agent == ua
    requires forall j | 0 <= j < i :: BestRank(groups[j].agents, ua) <= |ua|
    ensures IsBestGroup(groups, ua, i)
  {
    RankBounds(groups[i].agents, ua);
    assert Rank(agent, ua) == |ua| + 1;
    assert BestRank(groups[i].agents, ua) == |ua| + 1;
    forall j | 0 <= j < |groups| ensures BestRank(groups[j].agents, ua) <= |ua| + 1 {
      RankBounds(groups[j].agents, ua);
    }
  }

  /** The contract of `SelectGroup` leaves one answer. */
  lemma BestGroupUnique(groups: seq<Group>, ua: string, i: nat, j: nat)
    requires IsBestGroup(groups, ua, i) && IsBestGroup(groups, ua, j)
    ensures i == j
  {
  }

  /** `Rank` is the order of section 2.2.1: an exact agent beats every prefix, a longer prefix beats a shorter one, and
      any non-empty prefix beats the wildcard, which ties with the empty agent. */
  lemma RankOrder(ua: string, exact: string, long: string, short: string)
    requires exact == ua && long != ua && short != ua && long != "*" && short != "*" && ua != "*"
    requires HasPrefix(ua, long) && HasPrefix(ua, short) && |short| < |long|
    ensures Rank(exact, ua) > Rank(long, ua) > Rank(short, ua) >= Rank("*", ua) == Rank("", ua)
    ensures Rank("*", ua) == Rank(short, ua) <==> short == ""
  {
  }

  /** The rules and the crawl delay that `ForUserAgent` returns: those of the group, or none. */
  function ForUserAgent(groups: seq<Group>, best: Option<nat>): Group
    requires best.Some? ==> best.value < |groups|
  {
    if best.None? then Group([], [], 0) else groups[best.value]
  }

  /** The rules of all groups of that rank. Section 2.2.1 has the groups that match best combined into one. Rank 0 is
      that of the wildcard, and of an empty agent, which the program takes for one. */
  function Combined(groups: seq<Group>, ua: string, rank: int): seq<Rule> {
    if groups == [] then []
    else
      var last := groups[|groups| - 1];
      Combined(groups[..|groups| - 1], ua, rank) + if BestRank(last.agents, ua) == rank then last.rules else []
  }

  lemma CombinedNext(groups: seq<Group>, ua: string, rank: int, n: nat)
    requires n < |groups|
    ensures Combined(groups[..n + 1], ua, rank)
         == Combined(groups[..n], ua, rank) + if BestRank(groups[n].agents, ua) == rank then groups[n].rules else []
  {
    assert groups[..n + 1][..n] == groups[..n];
  }

  ghost predicate NoRules(groups: seq<Group>, ua: string, rank: int, from: nat, to: nat)
    requires to <= |groups|
  {
    forall j | from <= j < to && BestRank(groups[j].agents, ua) == rank :: groups[j].rules == []
  }

  lemma {:induction false} CombinedBefore(groups: seq<Group>, ua: string, rank: int, n: nat)
    requires n <= |groups| && forall j | 0 <= j < n :: BestRank(groups[j].agents, ua) != rank
    ensures Combined(groups[..n], ua, rank) == []
  {
    if n > 0 {
      CombinedNext(groups, ua, rank, n - 1);
      CombinedBefore(groups, ua, rank, n - 1);
    }
  }

  lemma NoRulesNext(groups: seq<Group>, ua: string, rank: int, from: nat, n: nat)
    requires from <= n < |groups|
    ensures NoRules(groups, ua, rank, from, n + 1) <==>
            NoRules(groups, ua, rank, from, n) && (BestRank(groups[n].agents, ua) == rank ==> groups[n].rules == [])
  {
  }

  lemma CombinedStep(groups: seq<Group>, ua: string, rank: int, i: nat, n: nat)
    requires i < n < |groups|
    requires groups[i].rules <= Combined(groups[..n], ua, rank)
    requires Combined(groups[..n], ua, rank) == groups[i].rules <==> NoRules(groups, ua, rank, i + 1, n)
    ensures groups[i].rules <= Combined(groups[..n + 1], ua, rank)
    ensures Combined(groups[..n + 1], ua, rank) == groups[i].rules <==> NoRules(groups, ua, rank, i + 1, n + 1)
  {
    CombinedNext(groups, ua, rank, n);
    NoRulesNext(groups, ua, rank, i + 1, n);
    PrefixGrows(groups[i].rules, Combined(groups[..n], ua, rank),
                if BestRank(groups[n].agents, ua) == rank then groups[n].rules else []);
  }

  lemma CombinedFirst(groups: seq<Group>, ua: string, i: nat, rank: int)
    requires i < |groups| && BestRank(groups[i].agents, ua) == rank
    requires forall j | 0 <= j < i :: BestRank(groups[j].agents, ua) != rank
    ensures Combined(groups[..i + 1], ua, rank) == groups[i].rules
  {
    CombinedNext(groups, ua, rank, i);
    CombinedBefore(groups, ua, rank, i);
  }

  lemma {:induction false} CombinedUpTo(groups: seq<Group>, ua: string, rank: int, i: nat, n: nat)
    requires i < n <= |groups| && BestRank(groups[i].agents, ua) == rank
    requires forall j | 0 <= j < i :: BestRank(groups[j].agents, ua) != rank
    ensures groups[i].rules <= Combined(groups[..n], ua, rank)
    ensures Combined(groups[..n], ua, rank) == groups[i].rules <==> NoRules(groups, ua, rank, i + 1, n)
  {
    if n == i + 1 {
      CombinedFirst(groups, ua, i, rank);
    } else {
      CombinedUpTo(groups, ua, rank, i, n - 1);
      CombinedStep(groups, ua, rank, i, n - 1);
    }
  }

  /** The rules that `ForUserAgent` returns are those of section 2.2.1 exactly when no later group that fits the agent
      equally well has any rules: groups are not combined, the later ones are ignored. */
  lemma CombinedIff(groups: seq<Group>, ua: string, i: nat)
    requires IsBestGroup(groups, ua, i)
    ensures var rank := BestRank(groups[i].agents, ua);
      ForUserAgent(groups, Some(i)).rules == Combined(groups, ua, rank)
      <==> forall j | i < j < |groups| && BestRank(groups[j].agents, ua) == rank :: groups[j].rules == []
  {
    CombinedUpTo(groups, ua, BestRank(groups[i].agents, ua), i, |groups|);
    assert groups[..|groups|] == groups;
  }

  // The rule

  predicate Applies(r: Rule, path: string) {
    RuleMatches(path, r.pattern)
  }

  /** The longest of the rules that match, the earliest on ties. */
  ghost predicate IsWinner(rules: seq<Rule>, path: string, i: nat) {
    && i < |rules| && Applies(rules[i], path)
    && (forall j | 0 <= j < |rules| && Applies(rules[j], path) :: Bytes(rules[j].pattern) <= Bytes(rules[i].pattern))
    && (forall j | 0 <= j < i && Applies(rules[j], path) :: Bytes(rules[j].pattern) < Bytes(rules[i].pattern))
  }

  ghost predicate NoneApplies(rules: seq<Rule>, path: string) {
    forall r | r in rules :: !Applies(r, path)
  }

  ghost predicate Verdict(rules: seq<Rule>, path: string) {
    NoneApplies(rules, path) || exists i: nat :: IsWinner(rules, path, i) && rules[i].allowed
  }

  /** The path that the rules see. `unescape` is `url.PathUnescape`. */
  function Decoded(urlPath: string, unescape: string -> Option<string>): string {
    var rooted := if HasPrefix(urlPath, "/") then urlPath else "/" + urlPath;
    var decoded := unescape(rooted);
    if decoded.Some? then decoded.value else rooted
  }

  method IsAllowed(rules: seq<Rule>, urlPath: string, unescape: string -> Option<string>) returns (allowed: bool)
    ensures allowed == Verdict(rules, Decoded(urlPath, unescape))
  {
    if |rules| == 0 {
      return true;
    }
    var path := Decoded(urlPath, unescape);
    ghost var hit := (r: Rule) => Applies(r, path);
    var longest: Option<nat> := None;
    var longestLen: int := -1;
    for i := 0 to |rules|
      invariant Scanned(rules, hit, i, longest, longestLen)
    {
      var applies := MatchRule(path, rules[i].pattern);
      ScanNext(rules, hit, i, longest, longestLen);
      if applies {
        var matchLen := Bytes(rules[i].pattern);
        if matchLen > longestLen {
          longest, longestLen := Some(i), matchLen;
        }
      }
    }
    ScanDecides(rules, path, longest, longestLen);
    if longest.Some? {
      allowed := rules[longest.value].allowed;
    } else {
      allowed := true;
    }
  }

  /** The longest hit so far, the earliest on ties. */
  ghost predicate Scanned(rules: seq<Rule>, hit: Rule -> bool, n: nat, longest: Option<nat>, longestLen: int)
    requires n <= |rules|
  {
    match longest
    case None => longestLen == -1 && forall j | 0 <= j < n :: !hit(rules[j])
    case Some(i) =>
      && i < n && longestLen == Bytes(rules[i].pattern) && hit(rules[i])
      && (forall j | 0 <= j < n && hit(rules[j]) :: Bytes(rules[j].pattern) <= longestLen)
      && (forall j | 0 <= j < i && hit(rules[j]) :: Bytes(rules[j].pattern) < longestLen)
  }

  lemma ScanNext(rules: seq<Rule>, hit: Rule -> bool, i: nat, longest: Option<nat>, longestLen: int)
    requires i < |rules| && Scanned(rules, hit, i, longest, longestLen)
    ensures if hit(rules[i]) && Bytes(rules[i].pattern) > longestLen
            then Scanned(rules, hit, i + 1, Some(i), Bytes(rules[i].pattern))
            else Scanned(rules, hit, i + 1, longest, longestLen)
  {
  }

  lemma ScanDecides(rules: seq<Rule>, path: string, longest: Option<nat>, longestLen: int)
    requires Scanned(rules, r => Applies(r, path), |rules|, longest, longestLen)
    ensures Verdict(rules, path) == if longest.Some? then rules[longest.value].allowed else true
  {
    if longest.Some? {
      WinnerDecides(rules, path, longest.value);
    }
  }

  lemma WinnerDecides(rules: seq<Rule>, path: string, i: nat)
    requires IsWinner(rules, path, i)
    ensures Verdict(rules, path) == rules[i].allowed
  {
    assert rules[i] in rules;
    assert forall j: nat | IsWinner(rules, path, j) :: j == i;
  }

  /** Matching, and no matching rule is longer. */
  ghost predicate Longest(rules: seq<Rule>, path: string, r: Rule) {
    && r in rules && Applies(r, path)
    && forall q | q in rules && Applies(q, path) :: Bytes(q.pattern) <= Bytes(r.pattern)
  }

  lemma {:induction false} WinnerExists(rules: seq<Rule>, path: string) returns (i: nat)
    requires !NoneApplies(rules, path)
    ensures IsWinner(rules, path, i) && Longest(rules, path, rules[i]) && Verdict(rules, path) == rules[i].allowed
    decreases |rules|
  {
    var n := |rules| - 1;
    var init := rules[..n];
    assert rules == init + [rules[n]];
    if NoneApplies(init, path) {
      i := n;
      assert forall j | 0 <= j < n :: rules[j] in init;
    } else {
      var k := WinnerExists(init, path);
      assert forall j | 0 <= j < n :: init[j] == rules[j];
      i := if Applies(rules[n], path) && Bytes(rules[n].pattern) > Bytes(rules[k].pattern) then n else k;
    }
    WinnerDecides(rules, path, i);
  }

  ghost predicate LongestAgree(rules: seq<Rule>, path: string) {
    forall a, b | Longest(rules, path, a) && Longest(rules, path, b) :: a.allowed == b.allowed
  }

  ghost predicate Permutation(a: seq<Rule>, b: seq<Rule>) {
    multiset(a) == multiset(b)
  }

  lemma SameRules(a: seq<Rule>, b: seq<Rule>)
    requires Permutation(a, b)
    ensures forall r :: r in a <==> r in b
  {
    forall r ensures r in a <==> r in b {
      assert r in a <==> r in multiset(a);
      assert r in b <==> r in multiset(b);
    }
  }

  /** The same rules with one of the longest put first: it decides. */
  lemma MoveToFront(rules: seq<Rule>, path: string, r: Rule) returns (moved: seq<Rule>)
    requires Longest(rules, path, r)
    ensures Permutation(rules, moved) && Verdict(moved, path) == r.allowed
  {
    var i :| 0 <= i < |rules| && rules[i] == r;
    moved := [r] + (rules[..i] + rules[i + 1..]);
    MovedIsPermutation(rules, i);
    SameRules(rules, moved);
    FrontWins(moved, path);
  }

  lemma MovedIsPermutation(rules: seq<Rule>, i: nat)
    requires i < |rules|
    ensures Permutation(rules, [rules[i]] + (rules[..i] + rules[i + 1..]))
  {
    assert rules == rules[..i] + ([rules[i]] + rules[i + 1..]);
  }

  lemma FrontWins(rules: seq<Rule>, path: string)
    requires rules != [] && Longest(rules, path, rules[0])
    ensures Verdict(rules, path) == rules[0].allowed
  {
    assert forall j | 0 <= j < |rules| :: rules[j] in rules;
    assert IsWinner(rules, path, 0);
    WinnerDecides(rules, path, 0);
  }

  /** The verdict does not depend on the order of the rules exactly when the longest matching rules agree. */
  lemma OrderFreeIff(rules: seq<Rule>, path: string)
    ensures (forall other | Permutation(rules, other) :: Verdict(other, path) == Verdict(rules, path))
            <==> LongestAgree(rules, path)
  {
    if LongestAgree(rules, path) {
      forall other | Permutation(rules, other) ensures Verdict(other, path) == Verdict(rules, path) {
        SameRules(rules, other);
        if !NoneApplies(rules, path) {
          var i := WinnerExists(rules, path);
          var j := WinnerExists(other, path);
          assert Longest(rules, path, other[j]);
        }
      }
    } else {
      var a, b :| Longest(rules, path, a) && Longest(rules, path, b) && a.allowed != b.allowed;
      var first := MoveToFront(rules, path, a);
      var second := MoveToFront(rules, path, b);
    }
  }

  /** Matching rules of distinct lengths are such a case. */
  lemma DistinctLengthsAgree(rules: seq<Rule>, path: string)
    requires forall a, b | a in rules && b in rules && Applies(a, path) && Applies(b, path) && a != b ::
               Bytes(a.pattern) != Bytes(b.pattern)
    ensures LongestAgree(rules, path)
  {
  }

  /** The verdict of section 2.2.2: of the longest matching rules an allow wins. */
  ghost predicate AllowWins(rules: seq<Rule>, path: string) {
    NoneApplies(rules, path) || exists r :: Longest(rules, path, r) && r.allowed
  }

  /** The program gives that verdict, in whatever order the rules come, exactly when the longest rules agree; on a tie
      the order of the file decides. */
  lemma AllowWinsIff(rules: seq<Rule>, path: string)
    ensures (forall other | Permutation(rules, other) :: Verdict(other, path) == AllowWins(other, path))
            <==> LongestAgree(rules, path)
  {
    forall other | Permutation(rules, other) ensures AllowWins(other, path) == AllowWins(rules, path) {
      SameRules(rules, other);
      assert forall r :: Longest(rules, path, r) <==> Longest(other, path, r);
    }
    OrderFreeIff(rules, path);
    if LongestAgree(rules, path) && !NoneApplies(rules, path) {
      var i := WinnerExists(rules, path);
    }
  }

  /** On one given file the program gives that verdict exactly when the earliest longest matching rule allows, or no
      longest matching rule does. */
  lemma AllowWinsHereIff(rules: seq<Rule>, path: string)
    ensures Verdict(rules, path) == AllowWins(rules, path) <==>
            forall i: nat | IsWinner(rules, path, i) ::
              rules[i].allowed || forall r | Longest(rules, path, r) :: !r.allowed
  {
    if !NoneApplies(rules, path) {
      var i := WinnerExists(rules, path);
      assert forall j: nat | IsWinner(rules, path, j) :: j == i;
    }
  }

  // What combining groups would change

  /** The winner among the rules `later`, if it is longer than all rules of `first` that apply. */
  ghost predicate Overrides(first: seq<Rule>, later: seq<Rule>, path: string, w: nat) {
    && IsWinner(later, path, w)
    && forall r | r in first && Applies(r, path) :: Bytes(r.pattern) < Bytes(later[w].pattern)
  }

  lemma LaterWins(first: seq<Rule>, later: seq<Rule>, path: string, w: nat)
    requires Overrides(first, later, path, w)
    ensures Verdict(first + later, path) == later[w].allowed
  {
    var rules, n := first + later, |first|;
    assert rules[n + w] == later[w];
    forall j: nat | j < |rules| && Applies(rules[j], path)
      ensures Bytes(rules[j].pattern) <= Bytes(later[w].pattern)
      ensures j < n + w ==> Bytes(rules[j].pattern) < Bytes(later[w].pattern)
    {
      if j < n {
        assert rules[j] in first;
      } else {
        assert rules[j] == later[j - n];
      }
    }
    assert IsWinner(rules, path, n + w);
    WinnerDecides(rules, path, n + w);
  }

  lemma FirstWins(first: seq<Rule>, later: seq<Rule>, path: string, i: nat)
    requires IsWinner(first, path, i)
    requires forall r | r in later && Applies(r, path) :: Bytes(r.pattern) <= Bytes(first[i].pattern)
    ensures Verdict(first + later, path) == first[i].allowed
  {
    var rules, n := first + later, |first|;
    assert rules[i] == first[i];
    forall j: nat | j < |rules| && Applies(rules[j], path)
      ensures Bytes(rules[j].pattern) <= Bytes(first[i].pattern)
      ensures j < i ==> Bytes(rules[j].pattern) < Bytes(first[i].pattern)
    {
      if j < n {
        assert rules[j] == first[j];
      } else {
        assert rules[j] in later;
      }
    }
    assert IsWinner(rules, path, i);
    WinnerDecides(rules, path, i);
  }

  /** More rules at the end leave the verdict on a path alone exactly when their winner is no longer than some rule that
      applied before, or says the same. */
  lemma AppendIff(first: seq<Rule>, later: seq<Rule>, path: string)
    ensures Verdict(first + later, path) == Verdict(first, path) <==>
            forall w: nat | Overrides(first, later, path, w) :: later[w].allowed == Verdict(first, path)
  {
    if exists w: nat :: Overrides(first, later, path, w) {
      var w: nat :| Overrides(first, later, path, w);
      LaterWins(first, later, path, w);
      assert forall v: nat | Overrides(first, later, path, v) :: v == w;
    } else if NoneApplies(first, path) {
      assert NoneApplies(later, path) by {
        if !NoneApplies(later, path) {
          var w := WinnerExists(later, path);
          assert Overrides(first, later, path, w);
        }
      }
      assert forall r | r in first + later :: r in first || r in later;
      assert NoneApplies(first + later, path);
    } else {
      var i := WinnerExists(first, path);
      NothingLonger(first, later, path, i);
      FirstWins(first, later, path, i);
    }
  }

  lemma NothingLonger(first: seq<Rule>, later: seq<Rule>, path: string, i: nat)
    requires IsWinner(first, path, i) && !exists w: nat :: Overrides(first, later, path, w)
    ensures forall r | r in later && Applies(r, path) :: Bytes(r.pattern) <= Bytes(first[i].pattern)
  {
    if !NoneApplies(later, path) {
      var w := WinnerExists(later, path);
      assert !Overrides(first, later, path, w);
      if Bytes(later[w].pattern) > Bytes(first[i].pattern) {
        LongestOverrides(first, later, path, i, w);
      }
    }
  }

  lemma LongestOverrides(first: seq<Rule>, later: seq<Rule>, path: string, i: nat, w: nat)
    requires IsWinner(first, path, i) && IsWinner(later, path, w)
    requires Bytes(later[w].pattern) > Bytes(first[i].pattern)
    ensures Overrides(first, later, path, w)
  {
    forall r | r in first && Applies(r, path) ensures Bytes(r.pattern) < Bytes(later[w].pattern) {
      var j := IndexOf(first, r);
      assert Bytes(first[j].pattern) <= Bytes(first[i].pattern);
    }
  }

  /** The rules of the later groups of the best rank. */
  function LaterRules(groups: seq<Group>, ua: string, i: nat): seq<Rule>
    requires i < |groups|
  {
    Combined(groups[i + 1..], ua, BestRank(groups[i].agents, ua))
  }

  lemma {:induction false} CombinedConcat(x: seq<Group>, y: seq<Group>, ua: string, rank: int)
    ensures Combined(x + y, ua, rank) == Combined(x, ua, rank) + Combined(y, ua, rank)
  {
    if y == [] {
      assert x + y == x;
    } else {
      var last := y[|y| - 1];
      var more := if BestRank(last.agents, ua) == rank then last.rules else [];
      InitOfConcat(x, y);
      CombinedConcat(x, y[..|y| - 1], ua, rank);
      Regroup(Combined(x, ua, rank), Combined(y[..|y| - 1], ua, rank), more);
    }
  }

  lemma CombinedSplits(groups: seq<Group>, ua: string, i: nat)
    requires IsBestGroup(groups, ua, i)
    ensures Combined(groups, ua, BestRank(groups[i].agents, ua)) == groups[i].rules + LaterRules(groups, ua, i)
  {
    var rank := BestRank(groups[i].agents, ua);
    CombinedFirst(groups, ua, i, rank);
    CombinedConcat(groups[..i + 1], groups[i + 1..], ua, rank);
    assert groups == groups[..i + 1] + groups[i + 1..];
  }

  /** On a path the rules that `ForUserAgent` returns decide as all groups of that rank combined would, exactly when the
      winner among the later groups is no longer than some rule of the first that applies, or gives the same verdict. */
  lemma CombinedVerdictIff(groups: seq<Group>, ua: string, i: nat, path: string)
    requires IsBestGroup(groups, ua, i)
    ensures var first, later := groups[i].rules, LaterRules(groups, ua, i);
      Verdict(first, path) == Verdict(Combined(groups, ua, BestRank(groups[i].agents, ua)), path) <==>
      forall w: nat | Overrides(first, later, path, w) :: later[w].allowed == Verdict(first, path)
  {
    CombinedSplits(groups, ua, i);
    AppendIff(groups[i].rules, LaterRules(groups, ua, i), path);
  }

  // An empty `Disallow:`

  const EMPTY_DISALLOW: Rule := Rule("", false)

  /** Some rule with a pattern applies. */
  ghost predicate PatternApplies(rules: seq<Rule>, path: string) {
    exists r :: r in rules && r.pattern != "" && Applies(r, path)
  }

  /** The first rule without a pattern is there and forbids. */
  ghost predicate EmptyForbids(rules: seq<Rule>) {
    exists i: nat :: i < |rules| && rules[i] == EMPTY_DISALLOW && forall j | 0 <= j < i :: rules[j].pattern != ""
  }

  /** The place of a rule once one has been inserted at `n`. */
  function Shifted(i: nat, n: nat): nat {
    if i < n then i else i + 1
  }

  lemma InsertedAt(before: seq<Rule>, r: Rule, after: seq<Rule>)
    ensures var rules, more := before + after, before + [r] + after;
      && |more| == |rules| + 1 && more[|before|] == r
      && (forall i: nat | i < |rules| :: more[Shifted(i, |before|)] == rules[i])
      && (forall j: nat | j < |more| && j != |before| ::
            more[j] == rules[if j < |before| then j else j - 1])
  {
  }

  /** A winner with a pattern, or before the inserted rule, stays the winner. */
  lemma WinnerStays(before: seq<Rule>, after: seq<Rule>, path: string, i: nat)
    requires IsWinner(before + after, path, i)
    requires (before + after)[i].pattern != "" || i < |before|
    ensures IsWinner(before + [EMPTY_DISALLOW] + after, path, Shifted(i, |before|))
  {
    var rules, more, n := before + after, before + [EMPTY_DISALLOW] + after, |before|;
    InsertedAt(before, EMPTY_DISALLOW, after);
    forall j: nat | j < |more| && Applies(more[j], path)
      ensures Bytes(more[j].pattern) <= Bytes(rules[i].pattern)
      ensures j < Shifted(i, n) ==> Bytes(more[j].pattern) < Bytes(rules[i].pattern)
    {
      if j != n {
        var k := if j < n then j else j - 1;
        assert more[j] == rules[k];
      }
    }
  }

  lemma EmptyWinsAt(rules: seq<Rule>, path: string, w: nat)
    requires w < |rules| && rules[w].pattern == ""
    requires forall j | 0 <= j < |rules| && Applies(rules[j], path) :: rules[j].pattern == "" && j >= w
    ensures IsWinner(rules, path, w) && Verdict(rules, path) == rules[w].allowed
  {
    assert Applies(rules[w], path);
    WinnerDecides(rules, path, w);
  }

  lemma OnlyEmptyApplies(before: seq<Rule>, after: seq<Rule>, path: string, j: nat)
    requires NoneApplies(before, path) && !PatternApplies(after, path)
    requires j < |before + after| && Applies((before + after)[j], path)
    ensures j >= |before| && (before + after)[j] == after[j - |before|] && after[j - |before|].pattern == ""
  {
    assert forall r | r in before :: !Applies(r, path);
    if j >= |before| {
      assert after[j - |before|] in after;
    }
  }

  /** When no rule before applies and none with a pattern does, the first rule without a pattern wins. */
  lemma FirstEmptyWins(before: seq<Rule>, after: seq<Rule>, path: string, i: nat)
    requires NoneApplies(before, path) && !PatternApplies(after, path) && i < |after|
    requires after[i].pattern == "" && forall j | 0 <= j < i :: after[j].pattern != ""
    ensures Verdict(before + after, path) == after[i].allowed
  {
    var rules, n := before + after, |before|;
    forall j | 0 <= j < |rules| && Applies(rules[j], path) ensures rules[j].pattern == "" && j >= n + i {
      OnlyEmptyApplies(before, after, path, j);
    }
    assert rules[n + i] == after[i];
    EmptyWinsAt(rules, path, n + i);
  }

  lemma {:induction false} FirstEmpty(rules: seq<Rule>) returns (i: nat)
    requires exists r :: r in rules && r.pattern == ""
    ensures i < |rules| && rules[i].pattern == "" && forall j | 0 <= j < i :: rules[j].pattern != ""
    decreases |rules|
  {
    if rules[0].pattern == "" {
      i := 0;
    } else {
      var k := FirstEmpty(rules[1..]);
      i := k + 1;
      assert forall j | 0 < j < i :: rules[j] == rules[1..][j - 1];
    }
  }

  lemma FirstEmptyDecides(before: seq<Rule>, after: seq<Rule>, path: string)
    requires NoneApplies(before, path) && !PatternApplies(after, path)
    ensures Verdict(before + after, path) <==> !EmptyForbids(after)
  {
    if exists r :: r in after && r.pattern == "" {
      var i := FirstEmpty(after);
      FirstEmptyWins(before, after, path, i);
      assert EmptyForbids(after) <==> after[i] == EMPTY_DISALLOW;
    } else {
      assert forall r | r in before + after :: r in before || r in after;
    }
  }

  lemma EmptyWins(before: seq<Rule>, after: seq<Rule>, path: string)
    requires NoneApplies(before, path) && !PatternApplies(after, path)
    ensures !Verdict(before + [EMPTY_DISALLOW] + after, path)
  {
    Regroup(before, [EMPTY_DISALLOW], after);
    FirstEmptyWins(before, [EMPTY_DISALLOW] + after, path, 0);
  }

  /** Wherever an empty `Disallow:` is put in a file, it leaves the verdict alone exactly when a rule before it applies,
      or a rule with a pattern applies after it, or the next empty rule forbids already. */
  lemma EmptyDisallowIff(before: seq<Rule>, after: seq<Rule>, path: string)
    ensures Verdict(before + [EMPTY_DISALLOW] + after, path) == Verdict(before + after, path) <==>
            !NoneApplies(before, path) || PatternApplies(after, path) || EmptyForbids(after)
  {
    var rules, more := before + after, before + [EMPTY_DISALLOW] + after;
    if NoneApplies(before, path) && !PatternApplies(after, path) {
      EmptyWins(before, after, path);
      FirstEmptyDecides(before, after, path);
    } else {
      var i := WinnerBeyondEmpty(before, after, path);
      WinnerStays(before, after, path, i);
      WinnerDecides(more, path, Shifted(i, |before|));
      InsertedAt(before, EMPTY_DISALLOW, after);
      WinnerDecides(rules, path, i);
    }
  }

  lemma WinnerBeyondEmpty(before: seq<Rule>, after: seq<Rule>, path: string) returns (i: nat)
    requires !NoneApplies(before, path) || PatternApplies(after, path)
    ensures IsWinner(before + after, path, i) && ((before + after)[i].pattern != "" || i < |before|)
  {
    var rules := before + after;
    var j := PlaceOf(before, after, path);
    assert rules[j] in rules;
    i := WinnerExists(rules, path);
  }

  lemma PlaceOf(before: seq<Rule>, after: seq<Rule>, path: string) returns (j: nat)
    requires !NoneApplies(before, path) || PatternApplies(after, path)
    ensures j < |before + after| && Applies((before + after)[j], path)
    ensures (before + after)[j].pattern != "" || j < |before|
  {
    if !NoneApplies(before, path) {
      var r :| r in before && Applies(r, path);
      j := IndexOf(before, r);
      assert (before + after)[j] == r;
    } else {
      var r :| r in after && r.pattern != "" && Applies(r, path);
      var k := IndexOf(after, r);
      j := |before| + k;
      assert (before + after)[j] == r;
    }
  }

  /** Among rules that all have a pattern it forbids exactly the paths that no other rule matches. */
  lemma EmptyDisallowForbids(before: seq<Rule>, after: seq<Rule>, path: string)
    requires forall r | r in before + after :: r.pattern != ""
    ensures Verdict(before + [EMPTY_DISALLOW] + after, path) <==>
              !NoneApplies(before + after, path) && Verdict(before + after, path)
  {
    EmptyDisallowIff(before, after, path);
    assert forall r | r in before :: r in before + after;
    assert forall r | r in after :: r in before + after;
    if NoneApplies(before + after, path) {
      EmptyWins(before, after, path);
    }
  }

  // `$`

  /** For every pattern with a star that does not lead and a `$`, there is a path that the pattern means and that it
      does not forbid. */
  lemma DollarMissesLaterPlace(body: string) returns (path: string)
    requires body != "" && body[0] != '*' && '*' in body
    ensures RuleMeans(body + "$", path) && Verdict([Rule(body + "$", false)], path)
  {
    path := AnchoredStarFails(body);
    AnchoredRule(body, path);
    var rule := Rule(body + "$", false);
    assert forall r | r in [rule] :: r == rule;
  }

  lemma AnchoredRule(body: string, path: string)
    requires '*' in body
    ensures RuleMeans(body + "$", path) <==> Matches(body, path, true)
    ensures RuleMatches(path, body + "$") == Wildcard(path, body, true)
  {
    var pattern := body + "$";
    assert pattern[..|pattern| - 1] == body && pattern[|pattern| - 1..] == "$";
  }
}
