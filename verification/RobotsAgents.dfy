/**
  Which group of a robots.txt file is for a user agent, in words: an exact agent first, or else the longest prefix, or
  else the wildcard, and the earliest group on ties.
*/
module RobotsAgents {
  import opened Basics
  import opened Strings
  import opened RobotsSelect

  /** The agent is a proper beginning of the user agent that says something. */
  predicate Begins(agent: string, ua: string) {
    agent != "" && agent != "*" && agent != ua && agent <= ua
  }

  /** The wildcard, or the empty agent, which the program takes for one. */
  predicate IsWild(agent: string) {
    agent == "*" || agent == ""
  }

  predicate Fits(agent: string, ua: string) {
    agent == ua || Begins(agent, ua) || IsWild(agent)
  }

  ghost predicate SomeExact(g: Group, ua: string) {
    exists a :: a in g.agents && a == ua
  }

  /** Some agent of the group begins the user agent with that many characters. */
  ghost predicate SomeBegins(g: Group, ua: string, n: nat) {
    exists a :: a in g.agents && Begins(a, ua) && |a| == n
  }

  ghost predicate SomeWild(g: Group) {
    exists a :: a in g.agents && IsWild(a)
  }

  /** No agent of any group begins the user agent with more than `n` characters, and none of an earlier one with `n`. */
  ghost predicate LongestBeginning(groups: seq<Group>, ua: string, i: nat, n: nat)
    requires i < |groups|
  {
    && SomeBegins(groups[i], ua, n)
    && (forall j, m: nat | 0 <= j < |groups| && SomeBegins(groups[j], ua, m) :: m <= n)
    && (forall j, m: nat | 0 <= j < i && SomeBegins(groups[j], ua, m) :: m < n)
  }

  /** The first group with an exact agent; if there is none, the first with the longest beginning; if no agent begins
      the user agent either, the first with a wildcard. */
  ghost predicate IsFor(groups: seq<Group>, ua: string, i: nat) {
    && i < |groups|
    && if exists j | 0 <= j < |groups| :: SomeExact(groups[j], ua) then
         SomeExact(groups[i], ua) && forall j | 0 <= j < i :: !SomeExact(groups[j], ua)
       else if exists j, n: nat | 0 <= j < |groups| :: SomeBegins(groups[j], ua, n) then
         exists n: nat :: LongestBeginning(groups, ua, i, n)
       else
         SomeWild(groups[i]) && forall j | 0 <= j < i :: !SomeWild(groups[j])
  }

  lemma RankIs(a: string, ua: string)
    ensures Rank(a, ua) == |ua| + 1 <==> a == ua
    ensures Rank(a, ua) > 0 && a != ua <==> Begins(a, ua)
    ensures Begins(a, ua) ==> Rank(a, ua) == |a|
    ensures Rank(a, ua) == 0 ==> IsWild(a)
    ensures IsWild(a) && a != ua ==> Rank(a, ua) == 0
    ensures Rank(a, ua) == -1 <==> !Fits(a, ua)
  {
  }

  /** The best rank of a group, in words. */
  lemma BestRankIs(g: Group, ua: string)
    ensures BestRank(g.agents, ua) == |ua| + 1 <==> SomeExact(g, ua)
    ensures forall n: nat | SomeBegins(g, ua, n) :: BestRank(g.agents, ua) >= n > 0
    ensures 0 < BestRank(g.agents, ua) <= |ua| ==> SomeBegins(g, ua, BestRank(g.agents, ua))
    ensures BestRank(g.agents, ua) == 0 ==> SomeWild(g)
    ensures SomeWild(g) ==> BestRank(g.agents, ua) >= 0
    ensures BestRank(g.agents, ua) == -1 <==> forall a | a in g.agents :: !Fits(a, ua)
  {
    RankBounds(g.agents, ua);
    forall a | a in g.agents
      ensures a == ua ==> Rank(a, ua) == |ua| + 1
      ensures Begins(a, ua) ==> Rank(a, ua) == |a| > 0
      ensures IsWild(a) ==> Rank(a, ua) >= 0
      ensures Rank(a, ua) == -1 <==> !Fits(a, ua)
    {
      RankIs(a, ua);
    }
    if BestRank(g.agents, ua) >= 0 {
      var a :| a in g.agents && Rank(a, ua) == BestRank(g.agents, ua);
      RankIs(a, ua);
    }
  }

  lemma ExactIsFor(groups: seq<Group>, ua: string, i: nat)
    requires i < |groups| && exists j | 0 <= j < |groups| :: SomeExact(groups[j], ua)
    ensures IsBestGroup(groups, ua, i) <==>
            SomeExact(groups[i], ua) && forall j | 0 <= j < i :: !SomeExact(groups[j], ua)
  {
    forall j | 0 <= j < |groups|
      ensures BestRank(groups[j].agents, ua) <= |ua| + 1
      ensures BestRank(groups[j].agents, ua) == |ua| + 1 <==> SomeExact(groups[j], ua)
    {
      RankBounds(groups[j].agents, ua);
      BestRankIs(groups[j], ua);
    }
    var j :| 0 <= j < |groups| && SomeExact(groups[j], ua);
    if IsBestGroup(groups, ua, i) {
      assert BestRank(groups[j].agents, ua) <= BestRank(groups[i].agents, ua);
    }
  }

  lemma WildIsFor(groups: seq<Group>, ua: string, i: nat)
    requires i < |groups| && forall j | 0 <= j < |groups| :: BestRank(groups[j].agents, ua) <= 0
    ensures IsBestGroup(groups, ua, i) <==> SomeWild(groups[i]) && forall j | 0 <= j < i :: !SomeWild(groups[j])
  {
    forall j | 0 <= j < |groups| ensures BestRank(groups[j].agents, ua) == if SomeWild(groups[j]) then 0 else -1 {
      RankBounds(groups[j].agents, ua);
      BestRankIs(groups[j], ua);
    }
  }

  lemma BestBegins(groups: seq<Group>, ua: string, i: nat)
    requires IsBestGroup(groups, ua, i) && 0 < BestRank(groups[i].agents, ua) <= |ua|
    ensures LongestBeginning(groups, ua, i, BestRank(groups[i].agents, ua))
  {
    BestRankIs(groups[i], ua);
    forall j, m: nat | 0 <= j < |groups| && SomeBegins(groups[j], ua, m)
      ensures m <= BestRank(groups[j].agents, ua)
    {
      BestRankIs(groups[j], ua);
    }
  }

  lemma BeginsIsBest(groups: seq<Group>, ua: string, i: nat, n: nat)
    requires i < |groups| && LongestBeginning(groups, ua, i, n)
    requires forall j | 0 <= j < |groups| :: BestRank(groups[j].agents, ua) <= |ua|
    ensures IsBestGroup(groups, ua, i)
  {
    BestRankIs(groups[i], ua);
    forall j | 0 <= j < |groups|
      ensures BestRank(groups[j].agents, ua) <= BestRank(groups[i].agents, ua)
      ensures j < i ==> BestRank(groups[j].agents, ua) < BestRank(groups[i].agents, ua)
    {
      BestRankIs(groups[j], ua);
    }
  }

  lemma PrefixIsFor(groups: seq<Group>, ua: string, i: nat)
    requires i < |groups| && forall j | 0 <= j < |groups| :: BestRank(groups[j].agents, ua) <= |ua|
    requires exists j, n: nat | 0 <= j < |groups| :: SomeBegins(groups[j], ua, n)
    ensures IsBestGroup(groups, ua, i) <==> exists n: nat :: LongestBeginning(groups, ua, i, n)
  {
    if IsBestGroup(groups, ua, i) {
      var j: nat, n: nat :| j < |groups| && SomeBegins(groups[j], ua, n);
      BestRankIs(groups[j], ua);
      BestBegins(groups, ua, i);
    }
    if exists n: nat :: LongestBeginning(groups, ua, i, n) {
      var n: nat :| LongestBeginning(groups, ua, i, n);
      BeginsIsBest(groups, ua, i, n);
    }
  }

  /** The group that `SelectGroup` promises is the one for the user agent, and there is none exactly when no agent of
      any group fits. */
  lemma BestGroupIsFor(groups: seq<Group>, ua: string, i: nat)
    requires i < |groups|
    ensures IsBestGroup(groups, ua, i) <==> IsFor(groups, ua, i)
    ensures (forall g | g in groups :: BestRank(g.agents, ua) == -1)
            <==> forall g, a | g in groups && a in g.agents :: !Fits(a, ua)
  {
    forall g | g in groups ensures BestRank(g.agents, ua) == -1 <==> forall a | a in g.agents :: !Fits(a, ua) {
      BestRankIs(g, ua);
    }
    if exists j | 0 <= j < |groups| :: SomeExact(groups[j], ua) {
      ExactIsFor(groups, ua, i);
    } else {
      forall j | 0 <= j < |groups| ensures BestRank(groups[j].agents, ua) <= |ua| {
        RankBounds(groups[j].agents, ua);
        BestRankIs(groups[j], ua);
      }
      if exists j, n: nat | 0 <= j < |groups| :: SomeBegins(groups[j], ua, n) {
        PrefixIsFor(groups, ua, i);
      } else {
        forall j | 0 <= j < |groups| ensures BestRank(groups[j].agents, ua) <= 0 {
          BestRankIs(groups[j], ua);
        }
        WildIsFor(groups, ua, i);
      }
    }
  }
}
