/**
  Runs that a request with several workers can go through, built step by step for every number of workers from two up.
*/
module CrawlScenarios {
  import opened Basics
  import opened CrawlModel

  /** A site that admits everything, seeded with "/". */
  function OpenSite(): Site {
    Site(["/"], (u: Url) => u, (u: Url) => true, (h: string) => Some(h))
  }

  lemma {:induction false} RunAppend(c: Config, s: State, first: seq<Action>, second: seq<Action>)
    requires RunFrom(c, s, first).Some?
    ensures RunFrom(c, s, first + second) == RunFrom(c, RunFrom(c, s, first).value, second)
    decreases |first|
  {
    if first == [] {
      assert first + second == second;
    } else {
      RunAppend(c, Next(c, s, first[0]), first[1..], second);
      assert (first + second)[1..] == first[1..] + second;
    }
  }

  /** Worker 0 has the root page accepted and its links still to offer; the other workers are idle. */
  ghost predicate RootAccepted(c: Config, s: State, links: seq<string>) {
    && s.crash.None? && s.main == Collecting([]) && s.closer.Waiting? && !s.outerCancelled
    && |s.workers| == c.limits.workers >= 1
    && s.workers[0] == Expanding(Task("/", 0), links) && (forall i | 0 < i < |s.workers| :: s.workers[i] == Idle)
    && s.tasks == [] && s.wg == 1 && s.processed == 1 && s.visited == map["/" := 0] && s.results == [Task("/", 0)]
    && s.expanded == [Expansion(Task("/", 0), links)]
  }

  lemma ReceiveRoot(c: Config) returns (acts: seq<Action>, s: State)
    requires c.limits.Positive() && c.site == OpenSite()
    ensures Reaches(c, acts, s)
    ensures s == Init(c).(main := Collecting([]), visited := map["/" := 0], wg := 1, sent := [Task("/", 0)],
                          workers := Init(c).workers[0 := Fetching(Task("/", 0))])
  {
    acts, s := Do(c, [], Init(c), Seed(Send));
    acts, s := Do(c, acts, s, Start);
    acts, s := Do(c, acts, s, Work(0, Take));
    acts, s := Do(c, acts, s, Work(0, CapCheck));
    assert s.workers == Init(c).workers[0 := Fetching(Task("/", 0))];
    assert [] + [Task("/", 0)] == [Task("/", 0)];
  }

  lemma AcceptRoot(c: Config, links: seq<string>) returns (acts: seq<Action>, s: State)
    requires c.limits.Positive() && c.site == OpenSite()
    ensures Reaches(c, acts, s) && RootAccepted(c, s, links)
  {
    acts, s := ReceiveRoot(c);
    acts, s := Do(c, acts, s, Work(0, Fetch(Page(links))));
    acts, s := Do(c, acts, s, Work(0, Count));
    acts, s := Do(c, acts, s, Work(0, Deliver));
  }

  /** One more action at the end of a run. */
  lemma Do(c: Config, acts: seq<Action>, s: State, a: Action) returns (acts': seq<Action>, s': State)
    requires Reaches(c, acts, s) && Enabled(c, s, a)
    ensures Reaches(c, acts', s') && s' == Next(c, s, a) && acts' == acts + [a]
  {
    RunExtend(c, Init(c), acts, a);
    acts', s' := acts + [a], Next(c, s, a);
  }

  /** The offer of the next link of worker 0, up to and including the send but not the Add. */
  lemma OfferLink(c: Config, acts: seq<Action>, s: State, links: seq<string>) returns (acts': seq<Action>, s': State)
    requires c.limits.maxPages >= 2 && c.site == OpenSite() && Reaches(c, acts, s) && RootAccepted(c, s, links)
    requires links != [] && links[0] != "/"
    ensures Reaches(c, acts', s')
    ensures var u := links[0];
      s' == s.(tasks := [Task(u, 1)], sent := s.sent + [Task(u, 1)], visited := s.visited[u := 1],
               workers := s.workers[0 := Adding(Task("/", 0), links[1..])])
  {
    acts', s' := Do(c, acts, s, Work(0, NextLink));
    acts', s' := Do(c, acts', s', Work(0, Claim));
    acts', s' := Do(c, acts', s', Work(0, MakeOffer(Send)));
    assert s'.workers == s.workers[0 := Adding(Task("/", 0), links[1..])];
  }

  /** Worker 1 takes the child and is done with it before worker 0 adds it to the wait group: the counter reads zero
      while worker 0 is still offering links, and Wait returns. */
  lemma WakeEarly(c: Config) returns (acts: seq<Action>, s: State)
    requires c.limits.Positive() && c.limits.workers >= 2 && c.limits.maxPages >= 2 && c.site == OpenSite()
    ensures Reaches(c, acts, s) && EarlyWoken(c, s)
  {
    var before;
    acts, before := AcceptRoot(c, ["/a", "/b"]);
    acts, s := OfferLink(c, acts, before, ["/a", "/b"]);
    assert s.workers[1] == Idle;
    acts, s := Do(c, acts, s, Work(1, Take));
    acts, s := Do(c, acts, s, Work(1, CapCheck));
    acts, s := Do(c, acts, s, Work(1, Fetch(Failed)));
    acts, s := Do(c, acts, s, Work(1, Finish));
    acts, s := Do(c, acts, s, WaitReturns);
  }

  ghost predicate EarlyWoken(c: Config, s: State) {
    && s.crash.None? && s.Started() && s.closer.Woken? && !s.outerCancelled && s.main == Collecting([])
    && |s.workers| == c.limits.workers >= 2
    && s.workers[0] == Adding(Task("/", 0), ["/b"]) && (forall i | 0 < i < |s.workers| :: s.workers[i] == Idle)
    && s.tasks == [] && s.wg == 0 && s.processed == 1 && s.visited == map["/" := 0, "/a" := 1]
    && s.results == [Task("/", 0)]
  }

  /** The closer goes on at once, and the next offer panics. */
  lemma ShutdownRace(c: Config) returns (acts: seq<Action>, s: State)
    requires c.limits.Positive() && c.limits.workers >= 2 && c.limits.maxPages >= 2 && c.site == OpenSite()
    ensures Reaches(c, acts, s) && s.crash == Some(SendOnClosedTasks)
  {
    acts, s := WakeEarly(c);
    acts, s := Do(c, acts, s, CloseTasks);
    acts, s := Do(c, acts, s, Work(0, AddToGroup));
    acts, s := Do(c, acts, s, Work(0, NextLink));
    acts, s := Do(c, acts, s, Work(0, Claim));
    acts, s := Do(c, acts, s, Work(0, MakeOffer(Send)));
  }

  /** Or worker 0 is quicker and sends one more task, for which Wait does not wait. */
  lemma SendAfterWake(c: Config) returns (acts: seq<Action>, s: State)
    requires c.limits.Positive() && c.limits.workers >= 2 && c.limits.maxPages >= 2 && c.site == OpenSite()
    ensures Reaches(c, acts, s) && LateTask(c, s)
  {
    acts, s := WakeEarly(c);
    acts, s := Do(c, acts, s, Work(0, AddToGroup));
    acts, s := Do(c, acts, s, Work(0, NextLink));
    acts, s := Do(c, acts, s, Work(0, Claim));
    acts, s := Do(c, acts, s, Work(0, MakeOffer(Send)));
    acts, s := Do(c, acts, s, Work(0, AddToGroup));
  }

  ghost predicate LateTask(c: Config, s: State) {
    && s.crash.None? && s.Started() && s.closer.Woken? && !s.outerCancelled && s.main == Collecting([])
    && |s.workers| == c.limits.workers >= 2
    && s.workers[0] == Expanding(Task("/", 0), []) && (forall i | 0 < i < |s.workers| :: s.workers[i] == Idle)
    && s.tasks == [Task("/b", 1)] && s.wg == 2 && s.processed == 1 && s.results == [Task("/", 0)]
  }

  /** Worker 1 takes that task, and its result finds `results` closed. */
  lemma ResultsRace(c: Config) returns (acts: seq<Action>, s: State)
    requires c.limits.Positive() && c.limits.workers >= 2 && c.limits.maxPages >= 2 && c.site == OpenSite()
    ensures Reaches(c, acts, s) && s.crash == Some(SendOnClosedResults)
  {
    acts, s := SendAfterWake(c);
    assert s.workers[1] == Idle;
    acts, s := Do(c, acts, s, Work(1, Take));
    acts, s := Do(c, acts, s, Work(1, CapCheck));
    acts, s := Do(c, acts, s, Work(1, Fetch(Page([]))));
    acts, s := Do(c, acts, s, Work(1, Count));
    acts, s := Do(c, acts, s, CloseTasks);
    acts, s := Do(c, acts, s, CloseResults);
    acts, s := Do(c, acts, s, Work(1, Deliver));
  }

  /** Nobody takes it: the closer cancels, the workers leave, and `Run` returns with the task still queued. */
  lemma LossRace(c: Config) returns (acts: seq<Action>, s: State)
    requires c.limits.Positive() && c.limits.workers >= 2 && c.limits.maxPages >= 2 && c.site == OpenSite()
    ensures Reaches(c, acts, s) && s.crash.None? && !s.outerCancelled
    ensures s.main.Returned? && s.closer.Cancelled? && AllExited(s)
    ensures s.tasks == [Task("/b", 1)]
  {
    acts, s := SendAfterWake(c);
    acts, s := Do(c, acts, s, Work(0, NextLink));
    acts, s := Do(c, acts, s, Work(0, Finish));
    acts, s := Do(c, acts, s, CloseTasks);
    acts, s := Do(c, acts, s, CloseResults);
    acts, s := Do(c, acts, s, CancelContext);
    acts, s := Do(c, acts, s, Collect);
    acts, s := Do(c, acts, s, CollectEnd);
    acts, s := ExitWorkers(c, acts, s, 0);
  }

  ghost predicate AllExited(s: State) {
    forall p | p in s.workers :: p.Exited?
  }

  /** Idle workers that see the context done leave one after the other. */
  lemma ExitWorkers(c: Config, acts: seq<Action>, s: State, k: nat) returns (acts': seq<Action>, s': State)
    requires Reaches(c, acts, s) && s.crash.None? && s.Started() && s.ContextDone() && k <= |s.workers|
    requires forall i | 0 <= i < |s.workers| :: s.workers[i] == if i < k then Exited else Idle
    ensures Reaches(c, acts', s') && s' == s.(workers := s'.workers) && AllExited(s')
    decreases |s.workers| - k
  {
    if k == |s.workers| {
      acts', s' := acts, s;
    } else {
      acts', s' := Do(c, acts, s, Work(k, SeeCancel));
      acts', s' := ExitWorkers(c, acts', s', k + 1);
    }
  }

  /** Worker 1 expands a child and claims a page that worker 0 was about to claim one level higher up. */
  lemma DepthRace(c: Config) returns (acts: seq<Action>, s: State)
    requires c.limits.workers >= 2 && c.limits.maxPages >= 3 && c.limits.maxDepth >= 2 && c.site == OpenSite()
    ensures Reaches(c, acts, s) && s.crash.None?
    ensures "/x" in s.visited && s.visited["/x"] == 2
    ensures Expansion(Task("/", 0), ["/b", "/x"]) in s.expanded
  {
    acts, s := AcceptRoot(c, ["/b", "/x"]);
    acts, s := OfferLink(c, acts, s, ["/b", "/x"]);
    acts, s := Do(c, acts, s, Work(0, AddToGroup));
    acts, s := Do(c, acts, s, Work(1, Take));
    acts, s := Do(c, acts, s, Work(1, CapCheck));
    acts, s := Do(c, acts, s, Work(1, Fetch(Page(["/x"]))));
    acts, s := Do(c, acts, s, Work(1, Count));
    acts, s := Do(c, acts, s, Work(1, Deliver));
    acts, s := Do(c, acts, s, Work(1, NextLink));
    acts, s := Do(c, acts, s, Work(1, Claim));
  }
}
