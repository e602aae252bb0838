/**
  The calls into the robots.txt cache over whole runs: each is answered once and for its host, with what was fetched,
  and none waits for ever.
*/
module RobotsCalls {
  import opened Basics
  import opened Strings
  import opened RobotsSelect
  import opened RobotsCache

  // What a caller is told

  ghost predicate IsChosen(groups: seq<Group>, ua: string, chosen: Option<nat>) {
    if chosen.Some? then IsBestGroup(groups, ua, chosen.value)
    else forall g | g in groups :: BestRank(g.agents, ua) == -1
  }

  lemma OneChoice(groups: seq<Group>, ua: string, a: Option<nat>, b: Option<nat>)
    requires IsChosen(groups, ua, a) && IsChosen(groups, ua, b)
    ensures a == b
  {
    assert a.Some? ==> groups[a.value] in groups;
    assert b.Some? ==> groups[b.value] in groups;
    if a.Some? && b.Some? {
      BestGroupUnique(groups, ua, a.value, b.value);
    }
  }

  /** What a caller is told when the file was there: the verdict of the group chosen for it. */
  lemma AllowedByGroup(e: Entry, userAgent: string, path: string, chosen: Option<nat>)
    requires e.groups.Some? && IsChosen(e.groups.value, ToLower(userAgent), chosen)
    ensures Allowed(e, userAgent, path) <==> Verdict(ForUserAgent(e.groups.value, chosen).rules, path)
  {
    var groups, ua := e.groups.value, ToLower(userAgent);
    forall other: Option<nat> | IsChosen(groups, ua, other) ensures other == chosen {
      OneChoice(groups, ua, other, chosen);
    }
    assert Allowed(e, userAgent, path) <==> exists other: Option<nat> ::
        IsChosen(groups, ua, other) && Verdict(ForUserAgent(groups, other).rules, path);
  }

  /** A caller that has peeked at a fresh entry is answered at once, whoever holds the lock. */
  lemma FreshNeedsNoLock(ttl: Time, s: State, i: nat)
    requires i < |s.callers| && s.callers[i].Peeked? && s.callers[i].seen.Some?
    requires s.now - s.callers[i].seen.value.fetchedAt < ttl
    ensures Enabled(s, Check(i))
    ensures var s', c := Next(ttl, s, Check(i)), s.callers[i];
      s'.callers[i].Outside? && s'.writer == s.writer && s'.answers == s.answers + [Answer(c.host, c.seen.value, s.now)]
  {
  }

  // Conservation

  /** What the fetches of a run brought, in order. */
  function Brought(acts: seq<Action>): seq<Option<seq<Group>>> {
    if acts == [] then [] else (if acts[0].Store? then [acts[0].result] else []) + Brought(acts[1..])
  }

  function Kept(fetches: seq<Fetched>): seq<Option<seq<Group>>> {
    seq(|fetches|, i requires 0 <= i < |fetches| => fetches[i].entry.groups)
  }

  lemma KeptNext(ttl: Time, s: State, a: Action)
    requires Enabled(s, a)
    ensures Kept(Next(ttl, s, a).fetches) == Kept(s.fetches) + if a.Store? then [a.result] else []
  {
  }

  lemma {:induction false} BroughtRun(ttl: Time, s: State, acts: seq<Action>)
    requires RunFrom(ttl, s, acts).Some?
    ensures Kept(RunFrom(ttl, s, acts).value.fetches) == Kept(s.fetches) + Brought(acts)
    decreases |acts|
  {
    if acts == [] {
      assert Kept(s.fetches) + [] == Kept(s.fetches);
    } else {
      KeptNext(ttl, s, acts[0]);
      BroughtRun(ttl, Next(ttl, s, acts[0]), acts[1..]);
      Regroup(Kept(s.fetches), if acts[0].Store? then [acts[0].result] else [], Brought(acts[1..]));
    }
  }

  /** How many calls there were for a host. */
  function Called(acts: seq<Action>, host: string): nat {
    if acts == [] then 0
    else (if acts[0].Call? && acts[0].host == host then 1 else 0) + Called(acts[1..], host)
  }

  function InCall(c: Caller, host: string): nat {
    if !c.Outside? && c.host == host then 1 else 0
  }

  function Inside(callers: seq<Caller>, host: string): nat {
    if callers == [] then 0 else InCall(callers[0], host) + Inside(callers[1..], host)
  }

  function IsAnswer(a: Answer, host: string): nat {
    if a.host == host then 1 else 0
  }

  function Answered(answers: seq<Answer>, host: string): nat {
    if answers == [] then 0
    else Answered(answers[..|answers| - 1], host) + IsAnswer(answers[|answers| - 1], host)
  }

  lemma {:induction false} InsideUpdate(callers: seq<Caller>, i: nat, c: Caller, host: string)
    requires i < |callers|
    ensures Inside(callers[i := c], host) + InCall(callers[i], host) == Inside(callers, host) + InCall(c, host)
    decreases |callers|
  {
    if i == 0 {
      assert callers[0 := c][1..] == callers[1..];
    } else {
      InsideUpdate(callers[1..], i - 1, c, host);
      assert callers[i := c][1..] == callers[1..][i - 1 := c];
    }
  }

  lemma {:induction false} NobodyInside(n: nat, host: string)
    ensures Inside(seq(n, _ => Outside), host) == 0
  {
    if n > 0 {
      NobodyInside(n - 1, host);
      assert seq(n, _ => Outside)[1..] == seq(n - 1, _ => Outside);
    }
  }

  lemma AnsweredNext(answers: seq<Answer>, a: Answer, host: string)
    ensures Answered(answers + [a], host) == Answered(answers, host) + IsAnswer(a, host)
  {
    assert (answers + [a])[..|answers|] == answers;
  }

  /** A step either leaves the answers alone, or takes a caller out with an answer for its host; only a call brings a
      caller in, and no step changes its host. */
  lemma CallerMoves(ttl: Time, s: State, a: Action)
    requires Enabled(s, a) && !a.Tick?
    ensures var s', c := Next(ttl, s, a), s.callers[a.i]; var c' := s'.callers[a.i];
      && |s'.callers| == |s.callers| && s'.callers == s.callers[a.i := c']
      && (a.Call? ==> c.Outside? && !c'.Outside? && c'.host == a.host && s'.answers == s.answers)
      && (!a.Call? ==> !c.Outside?)
      && (!a.Call? && !c'.Outside? ==> c'.host == c.host && s'.answers == s.answers)
      && (!a.Call? && c'.Outside? ==> exists x :: s'.answers == s.answers + [x] && x.host == c.host)
  {
    var s', c := Next(ttl, s, a), s.callers[a.i];
    if !a.Call? && s'.callers[a.i].Outside? {
      var x := s'.answers[|s.answers|];
      assert s'.answers == s.answers + [x] && x.host == c.host;
    }
  }

  lemma HostsStep(ttl: Time, s: State, a: Action, host: string)
    requires Enabled(s, a)
    ensures var s' := Next(ttl, s, a);
      Inside(s'.callers, host) + Answered(s'.answers, host)
      == Inside(s.callers, host) + Answered(s.answers, host) + if a.Call? && a.host == host then 1 else 0
  {
    if !a.Tick? {
      var s' := Next(ttl, s, a);
      CallerMoves(ttl, s, a);
      InsideUpdate(s.callers, a.i, s'.callers[a.i], host);
      if !a.Call? && s'.callers[a.i].Outside? {
        var x :| s'.answers == s.answers + [x] && x.host == s.callers[a.i].host;
        AnsweredNext(s.answers, x, host);
      }
    }
  }

  lemma {:induction false} HostsRun(ttl: Time, s: State, acts: seq<Action>, host: string)
    requires RunFrom(ttl, s, acts).Some?
    ensures var end := RunFrom(ttl, s, acts).value;
      Inside(end.callers, host) + Answered(end.answers, host)
      == Inside(s.callers, host) + Answered(s.answers, host) + Called(acts, host)
    decreases |acts|
  {
    if acts != [] {
      HostsStep(ttl, s, acts[0], host);
      HostsRun(ttl, Next(ttl, s, acts[0]), acts[1..], host);
    }
  }

  /** Over every run: for each host there are as many calls as answers and callers still inside, and the entries of the
      fetches are what was brought, in order. */
  lemma CallsAreAnswered(requestedTtl: Time, start: Time, callers: nat, acts: seq<Action>, s: State)
    requires Reaches(requestedTtl, start, callers, acts, s)
    ensures forall host :: Called(acts, host) == Answered(s.answers, host) + Inside(s.callers, host)
    ensures Kept(s.fetches) == Brought(acts)
  {
    forall host ensures Called(acts, host) == Answered(s.answers, host) + Inside(s.callers, host) {
      NobodyInside(callers, host);
      HostsRun(Ttl(requestedTtl), Init(start, callers), acts, host);
    }
    BroughtRun(Ttl(requestedTtl), Init(start, callers), acts);
    assert Kept([]) + Brought(acts) == Brought(acts);
  }

  // Progress

  /** The recorded writer is past the lock: nobody else holds it. */
  ghost predicate WriterIsBusy(s: State) {
    s.writer.Some? ==>
      s.writer.value < |s.callers| && (s.callers[s.writer.value].Locked? || s.callers[s.writer.value].Fetching?)
  }

  ghost predicate Live(ttl: Time, s: State) {
    WriterOnly(ttl, s) && WriterIsBusy(s)
  }

  lemma LiveStep(ttl: Time, s: State, a: Action)
    requires Live(ttl, s) && Enabled(s, a)
    ensures Live(ttl, Next(ttl, s, a))
  {
    WriterStep(ttl, s, a);
  }

  lemma {:induction false} LiveRun(ttl: Time, s: State, acts: seq<Action>)
    requires Live(ttl, s) && RunFrom(ttl, s, acts).Some?
    ensures Live(ttl, RunFrom(ttl, s, acts).value)
    decreases |acts|
  {
    if acts != [] {
      LiveStep(ttl, s, acts[0]);
      LiveRun(ttl, Next(ttl, s, acts[0]), acts[1..]);
    }
  }

  /** Neither the clock nor a new call. */
  predicate IsWork(a: Action) {
    !a.Tick? && !a.Call?
  }

  lemma SomebodyMoves(ttl: Time, s: State, i: nat) returns (a: Action)
    requires Live(ttl, s) && i < |s.callers| && !s.callers[i].Outside?
    ensures IsWork(a) && Enabled(s, a)
  {
    var w := if s.writer.Some? then s.writer.value else i;
    match s.callers[w]
    case Entering(_) => a := Peek(w);
    case Peeked(_, _) => a := Check(w);
    case Waiting(_) => a := Acquire(w);
    case Locked(_) => a := Recheck(w);
    case Fetching(_, _) => a := Store(w, None);
  }

  /** The cache never deadlocks: while some goroutine is inside a call, one of them can take a step. */
  lemma NoDeadlock(requestedTtl: Time, start: Time, callers: nat, acts: seq<Action>, s: State)
    requires Reaches(requestedTtl, start, callers, acts, s)
    ensures (exists a :: IsWork(a) && Enabled(s, a)) <==> exists c | c in s.callers :: !c.Outside?
  {
    LiveRun(Ttl(requestedTtl), Init(start, callers), acts);
    if exists c | c in s.callers :: !c.Outside? {
      var c :| c in s.callers && !c.Outside?;
      var i :| 0 <= i < |s.callers| && s.callers[i] == c;
      var a := SomebodyMoves(Ttl(requestedTtl), s, i);
    }
    if exists a :: IsWork(a) && Enabled(s, a) {
      var a :| IsWork(a) && Enabled(s, a);
      assert s.callers[a.i] in s.callers;
    }
  }

  /** How many steps a goroutine has before it. */
  function StepsLeft(c: Caller): nat {
    match c
    case Outside => 0
    case Fetching(_, _) => 1
    case Locked(_) => 2
    case Waiting(_) => 3
    case Peeked(_, _) => 4
    case Entering(_) => 5
  }

  function AllSteps(callers: seq<Caller>): nat {
    if callers == [] then 0 else StepsLeft(callers[0]) + AllSteps(callers[1..])
  }

  lemma {:induction false} StepsUpdate(callers: seq<Caller>, i: nat, c: Caller)
    requires i < |callers|
    ensures AllSteps(callers[i := c]) + StepsLeft(callers[i]) == AllSteps(callers) + StepsLeft(c)
  {
    if i == 0 {
      assert callers[0 := c][1..] == callers[1..];
    } else {
      StepsUpdate(callers[1..], i - 1, c);
      assert callers[i := c][1..] == callers[1..][i - 1 := c];
    }
  }

  lemma StepsStep(ttl: Time, s: State, a: Action)
    requires Enabled(s, a)
    ensures var s' := Next(ttl, s, a);
      AllSteps(s'.callers) + (if IsWork(a) then 1 else 0) <= AllSteps(s.callers) + (if a.Call? then 5 else 0)
  {
    if !a.Tick? {
      var s' := Next(ttl, s, a);
      StepsUpdate(s.callers, a.i, s'.callers[a.i]);
      assert s'.callers == s.callers[a.i := s'.callers[a.i]];
    }
  }

  function Count(acts: seq<Action>, f: Action -> bool): nat {
    if acts == [] then 0 else (if f(acts[0]) then 1 else 0) + Count(acts[1..], f)
  }

  lemma {:induction false} StepsRun(ttl: Time, s: State, acts: seq<Action>)
    requires RunFrom(ttl, s, acts).Some?
    ensures AllSteps(RunFrom(ttl, s, acts).value.callers) + Count(acts, IsWork)
         <= AllSteps(s.callers) + 5 * Count(acts, (a: Action) => a.Call?)
    decreases |acts|
  {
    if acts != [] {
      StepsStep(ttl, s, acts[0]);
      StepsRun(ttl, Next(ttl, s, acts[0]), acts[1..]);
    }
  }

  lemma {:induction false} NoSteps(n: nat)
    ensures AllSteps(seq(n, _ => Outside)) == 0
  {
    if n > 0 {
      NoSteps(n - 1);
      assert seq(n, _ => Outside)[1..] == seq(n - 1, _ => Outside);
    }
  }

  /** Every call ends: however the goroutines are scheduled, a run with `k` calls has at most `5 * k` steps of theirs,
      and by `NoDeadlock` it has another one as long as a call is not finished. */
  lemma CallsEnd(requestedTtl: Time, start: Time, callers: nat, acts: seq<Action>, s: State)
    requires Reaches(requestedTtl, start, callers, acts, s)
    ensures Count(acts, IsWork) <= 5 * Count(acts, (a: Action) => a.Call?)
  {
    NoSteps(callers);
    StepsRun(Ttl(requestedTtl), Init(start, callers), acts);
  }
}
