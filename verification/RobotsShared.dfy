/**
  What section 2.2.1 of RFC 9309 would make of a robots.txt file: User-agent lines with no rule between share the rules
  that follow. The program's groups are those with all agents but the last of each run forgotten, and how that changes
  what a user agent is told.
*/
module RobotsShared {
  import opened Basics
  import opened Strings
  import opened RobotsSelect
  import opened RobotsParse

  /** The parser with shared rules: an agent joins a group that has no rules yet. */
  function Share(b: Building, d: Directive): Building {
    if d.UserAgent? && b.current.Some? && b.current.value.rules == [] then
      b.(current := Some(b.current.value.(agents := b.current.value.agents + [d.agent])))
    else b.Feed(d)
  }

  function SharedBuilt(ds: seq<Directive>): Building {
    if ds == [] then Building([], None) else Share(SharedBuilt(ds[..|ds| - 1]), ds[|ds| - 1])
  }

  function SharedGroups(ds: seq<Directive>): seq<Group> {
    SharedBuilt(ds).Finish()
  }

  lemma SharedNext(ds: seq<Directive>, d: Directive)
    ensures SharedBuilt(ds + [d]) == Share(SharedBuilt(ds), d)
    ensures RunIsOpen(ds + [d]) == (d.UserAgent? || (!d.RuleLine? && RunIsOpen(ds)))
    ensures RunAgents(ds + [d]) == if !d.UserAgent? then RunAgents(ds)
                                   else if RunIsOpen(ds) then RunAgents(ds) + [d.agent] else [d.agent]
    ensures SharedLines(ds + [d]) == SharedLines(ds) + if d.RuleLine? then [Owned(RunAgents(ds), d.rule)] else []
  {
    assert (ds + [d])[..|ds|] == ds;
  }

  /** The current group has the agents of the latest run, which is open until it has a rule. */
  ghost predicate HoldsRun(b: Building, open: bool, agents: seq<string>) {
    && b.CurrentOrNew().agents == agents
    && (open ==> b.current.Some? && b.current.value.rules == [])
    && (b.current.Some? && b.current.value.rules == [] && !open ==> agents == [])
  }

  lemma {:induction false} SharedHoldsRun(ds: seq<Directive>)
    ensures HoldsRun(SharedBuilt(ds), RunIsOpen(ds), RunAgents(ds))
  {
    if ds != [] {
      var init, d := ds[..|ds| - 1], ds[|ds| - 1];
      assert ds == init + [d];
      SharedHoldsRun(init);
      SharedNext(init, d);
    }
  }

  lemma ShareKeepsRules(b: Building, d: Directive)
    ensures Rules(Share(b, d)) == Rules(b) + if d.RuleLine? then [Owned(b.CurrentOrNew().agents, d.rule)] else []
  {
    FeedKeepsRules(b, d);
  }

  lemma {:induction false} SharedBuiltOwns(ds: seq<Directive>)
    ensures Rules(SharedBuilt(ds)) == SharedLines(ds)
  {
    if ds != [] {
      var init, d := ds[..|ds| - 1], ds[|ds| - 1];
      assert ds == init + [d];
      SharedBuiltOwns(init);
      SharedHoldsRun(init);
      SharedNext(init, d);
      ShareKeepsRules(SharedBuilt(init), d);
    }
  }

  /** The groups with shared rules hold the rules of the file, each owned by all agents of the run before it. */
  lemma SharedConserved(ds: seq<Directive>)
    ensures Flatten(SharedGroups(ds)) == SharedLines(ds)
  {
    SharedBuiltOwns(ds);
    var b := SharedBuilt(ds);
    if b.current.Some? {
      FlattenAppend(b.groups, b.current.value);
    }
  }

  function LastOnly(agents: seq<string>): seq<string> {
    if agents == [] then [] else [agents[|agents| - 1]]
  }

  ghost predicate AlikeGroup(g: Group, shared: Group) {
    g.rules == shared.rules && g.agents == LastOnly(shared.agents)
  }

  /** The same groups but for the agents that are forgotten. */
  ghost predicate Alike(groups: seq<Group>, shared: seq<Group>) {
    |groups| == |shared| && forall k | 0 <= k < |groups| :: AlikeGroup(groups[k], shared[k])
  }

  ghost predicate AlikeBuilding(b: Building, shared: Building) {
    && Alike(b.groups, shared.groups) && b.current.Some? == shared.current.Some?
    && (b.current.Some? ==> AlikeGroup(b.current.value, shared.current.value))
  }

  lemma AlikeFeed(b: Building, shared: Building, d: Directive)
    requires AlikeBuilding(b, shared)
    ensures AlikeBuilding(b.Feed(d), Share(shared, d))
  {
  }

  lemma {:induction false} AlikeBuilt(ds: seq<Directive>)
    ensures AlikeBuilding(Built(ds), SharedBuilt(ds))
  {
    if ds != [] {
      AlikeBuilt(ds[..|ds| - 1]);
      AlikeFeed(Built(ds[..|ds| - 1]), SharedBuilt(ds[..|ds| - 1]), ds[|ds| - 1]);
    }
  }

  /** On every file the program makes the groups of section 2.2.1, with the same rules in the same order, and forgets
      every agent of a group but its last. */
  lemma GroupsForgetAgents(ds: seq<Directive>)
    ensures Alike(Built(ds).Finish(), SharedGroups(ds))
  {
    AlikeBuilt(ds);
  }

  // What a user agent is told

  /** What `SelectGroup` promises. */
  ghost predicate Chosen(groups: seq<Group>, ua: string, best: Option<nat>) {
    if best.Some? then IsBestGroup(groups, ua, best.value)
    else forall g | g in groups :: BestRank(g.agents, ua) == -1
  }

  ghost predicate Told(groups: seq<Group>, best: Option<nat>, path: string)
    requires best.Some? ==> best.value < |groups|
  {
    Verdict(ForUserAgent(groups, best).rules, path)
  }

  /** An agent that is forgotten fits the user agent better than the last of its run. */
  ghost predicate ForgetsBest(agents: seq<string>, ua: string) {
    BestRank(LastOnly(agents), ua) < BestRank(agents, ua)
  }

  lemma LastRank(agents: seq<string>, ua: string)
    ensures -1 <= BestRank(LastOnly(agents), ua) <= BestRank(agents, ua)
  {
    RankBounds(agents, ua);
    RankBounds(LastOnly(agents), ua);
    if agents != [] {
      var last := agents[|agents| - 1];
      assert LastOnly(agents)[..0] == [];
      assert last in agents;
    }
  }

  /** The group with the best agents is chosen unless its best agent is forgotten. */
  lemma KeepsGroup(groups: seq<Group>, shared: seq<Group>, ua: string, j: nat)
    requires Alike(groups, shared) && IsBestGroup(shared, ua, j) && !ForgetsBest(shared[j].agents, ua)
    ensures IsBestGroup(groups, ua, j)
  {
    assert AlikeGroup(groups[j], shared[j]);
    LastRank(shared[j].agents, ua);
    forall k | 0 <= k < |groups| ensures BestRank(groups[k].agents, ua) <= BestRank(shared[k].agents, ua) {
      assert AlikeGroup(groups[k], shared[k]);
      LastRank(shared[k].agents, ua);
    }
  }

  lemma NobodyFits(groups: seq<Group>, shared: seq<Group>, ua: string, i: Option<nat>)
    requires Alike(groups, shared) && Chosen(shared, ua, None) && Chosen(groups, ua, i)
    ensures i.None?
  {
    if i.Some? {
      assert AlikeGroup(groups[i.value], shared[i.value]) && shared[i.value] in shared;
      LastRank(shared[i.value].agents, ua);
    }
  }

  /** A user agent is told the same as by section 2.2.1, on a path of any file, exactly when the agent that fits it best
      is not forgotten, or the group it gets instead, if any, says the same. */
  lemma ToldIff(ds: seq<Directive>, ua: string, path: string, i: Option<nat>, j: Option<nat>)
    requires Chosen(Built(ds).Finish(), ua, i) && Chosen(SharedGroups(ds), ua, j)
    ensures var groups, shared := Built(ds).Finish(), SharedGroups(ds);
      && (j.None? || !ForgetsBest(shared[j.value].agents, ua) ==> i == j)
      && (Told(groups, i, path) == Told(shared, j, path) <==>
          (j.Some? && ForgetsBest(shared[j.value].agents, ua) ==>
             Told(groups, i, path) == Verdict(shared[j.value].rules, path)))
  {
    var groups, shared := Built(ds).Finish(), SharedGroups(ds);
    GroupsForgetAgents(ds);
    if j.None? {
      NobodyFits(groups, shared, ua, i);
    } else if !ForgetsBest(shared[j.value].agents, ua) {
      KeepsGroup(groups, shared, ua, j.value);
      ChosenUnique(groups, ua, i, j);
      assert AlikeGroup(groups[j.value], shared[j.value]);
    }
  }

  lemma ChosenUnique(groups: seq<Group>, ua: string, i: Option<nat>, j: Option<nat>)
    requires Chosen(groups, ua, i) && Chosen(groups, ua, j) && j.Some?
    ensures i == j
  {
    assert groups[j.value] in groups;
    if i.Some? {
      BestGroupUnique(groups, ua, i.value, j.value);
    }
  }
}
