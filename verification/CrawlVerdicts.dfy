/**
  For which limits the crawl keeps its promises whatever the site, the schedule and the answers of the network: both
  directions, on limits that the caller of `Run` chooses.
*/
module CrawlVerdicts {
  import opened Basics
  import opened CrawlModel
  import opened CrawlLedger
  import opened CrawlShutdown
  import opened CrawlScenarios
  import opened CrawlVisits
  import opened CrawlOrder
  import opened CrawlTermination
  import opened CrawlDrops

  /** No run panics, whatever the site, exactly for one worker or one page; for all other limits `ShutdownRace` does. */
  lemma ShutdownSafeIff(l: Limits)
    requires l.Positive()
    ensures (forall site, acts, s | Reaches(Config(l, site), acts, s) :: s.crash.None?)
            <==> l.workers == 1 || l.maxPages == 1
  {
    if l.workers == 1 || l.maxPages == 1 {
      forall site, acts, s | Reaches(Config(l, site), acts, s) ensures s.crash.None? {
        SoloInit(Config(l, site));
        SoloRun(Config(l, site), Init(Config(l, site)), acts);
      }
    } else {
      var acts, s := ShutdownRace(Config(l, OpenSite()));
    }
  }

  /** In terms of what the caller passes: with the defaults (100 pages, 4 workers) the race is there. */
  lemma RequestSafeIff(r: Request)
    ensures (forall site, acts, s | Reaches(Config(Normalize(r), site), acts, s) :: s.crash.None?)
            <==> r.concurrency == 1 || r.maxPages == 1
  {
    ShutdownSafeIff(Normalize(r));
  }

  /** No result is ever sent on the closed `results`, on every site and run: exactly for the same limits. */
  lemma ResultsSafeIff(l: Limits)
    requires l.Positive()
    ensures (forall site, acts, s | Reaches(Config(l, site), acts, s) :: s.crash != Some(SendOnClosedResults))
            <==> l.workers == 1 || l.maxPages == 1
  {
    if l.workers == 1 || l.maxPages == 1 {
      ShutdownSafeIff(l);
    } else {
      var acts, s := ResultsRace(Config(l, OpenSite()));
    }
  }

  /** Every finished run that nobody cancelled has done every task it sent, on every site: exactly for the same
      limits. For all others there is one that returns without an error and without a page it had queued. */
  lemma NothingLostIff(l: Limits)
    requires l.Positive()
    ensures (forall site, acts, s | Reaches(Config(l, site), acts, s) && Finished(s) && !s.outerCancelled ::
               multiset(s.done) == multiset(s.sent))
            <==> l.workers == 1 || l.maxPages == 1
  {
    if l.workers == 1 || l.maxPages == 1 {
      forall site, acts, s | Reaches(Config(l, site), acts, s) && Finished(s)
        ensures multiset(s.done) == multiset(s.sent)
      {
        UncancelledRunsReturn(Config(l, site), acts, s);
      }
    } else {
      var acts, s := LossRace(Config(l, OpenSite()));
      RunsReturnOrPanic(Config(l, OpenSite()), acts, s);
      assert |multiset(s.sent)| == |multiset(s.done)| + |multiset(s.tasks)|;
    }
  }

  // Depths

  /** No link of a page below the seeds ever gets past the page check of `enqueue`. */
  ghost predicate Flat(s: State) {
    && |s.expanded| <= |s.delivered|
    && forall p | p in s.workers && p.Checked? :: p.task.depth == 0
  }

  lemma FlatWork(c: Config, s: State, w: nat, step: Step)
    requires c.limits.maxPages <= 2 || c.limits.maxDepth <= 1
    requires Books(c, s) && Flat(s) && Enabled(c, s, Work(w, step)) && Panic(s, step).None?
    ensures Flat(Next(c, s, Work(w, step)))
  {
    var p := s.workers[w];
    assert p in s.workers;
    FlatTurn(c, s, p, step);
    if Turn(c, s, p, step).Checked? {
      CheckedAtTop(c, s, p);
    }
    FlatMove(c, s, w, step);
  }

  lemma FlatMove(c: Config, s: State, w: nat, step: Step)
    requires Flat(s) && Enabled(c, s, Work(w, step)) && Panic(s, step).None?
    requires var s', p' := Effect(c, s, s.workers[w], step), Turn(c, s, s.workers[w], step);
      |s'.expanded| <= |s'.delivered| && (p'.Checked? ==> p'.task.depth == 0)
    ensures Flat(Next(c, s, Work(w, step)))
  {
    var p' := Turn(c, s, s.workers[w], step);
    EffectKeeps(c, s, s.workers[w], step);
    assert Next(c, s, Work(w, step)).workers == s.workers[w := p'];
  }

  lemma FlatTurn(c: Config, s: State, p: Worker, step: Step)
    requires Ready(c, s, p, step) && Panic(s, step).None?
    ensures var s', p' := Effect(c, s, p, step), Turn(c, s, p, step);
      && |s'.expanded| - |s.expanded| <= |s'.delivered| - |s.delivered|
      && (p'.Checked? ==> p.Expanding? && p'.task == p.task && s.processed < c.limits.maxPages)
  {
  }

  lemma CheckedAtTop(c: Config, s: State, p: Worker)
    requires c.limits.maxPages <= 2 || c.limits.maxDepth <= 1
    requires Books(c, s) && Flat(s) && p in s.workers && p.Expanding? && s.processed < c.limits.maxPages
    ensures p.task.depth == 0
  {
    assert OnPage(c, s.expanded, p);
    var e :| e in s.expanded && Covers(c, e, p);
  }

  ghost predicate Shallow(s: State) {
    forall k | k in s.visited :: s.visited[k] <= 1
  }

  lemma ShallowWork(c: Config, s: State, w: nat, step: Step)
    requires Flat(s) && Shallow(s) && Enabled(c, s, Work(w, step)) && Panic(s, step).None?
    ensures Shallow(Next(c, s, Work(w, step)))
  {
    assert s.workers[w] in s.workers;
    VisitedGrows(c, s, s.workers[w], step);
  }

  lemma ShallowStep(c: Config, s: State, a: Action)
    requires c.limits.maxPages <= 2 || c.limits.maxDepth <= 1
    requires Books(c, s) && Flat(s) && Shallow(s) && Enabled(c, s, a)
    ensures Flat(Next(c, s, a)) && Shallow(Next(c, s, a))
  {
    match a
    case Work(w, step) =>
      if Panic(s, step).None? {
        FlatWork(c, s, w, step);
        ShallowWork(c, s, w, step);
      }
    case Seed(_) =>
    case _ =>
  }

  lemma {:induction false} ShallowRun(c: Config, s: State, acts: seq<Action>)
    requires c.limits.Positive() && (c.limits.maxPages <= 2 || c.limits.maxDepth <= 1)
    requires Books(c, s) && Roots(c, s) && Flat(s) && Shallow(s) && RunFrom(c, s, acts).Some?
    ensures var end := RunFrom(c, s, acts).value; Books(c, end) && Roots(c, end) && Shallow(end)
    decreases |acts|
  {
    if acts != [] {
      var a := acts[0];
      BooksStep(c, s, a);
      RootsStep(c, s, a);
      ShallowStep(c, s, a);
      ShallowRun(c, Next(c, s, a), acts[1..]);
    }
  }

  ghost predicate BreadthFirstLimits(l: Limits) {
    l.workers == 1 || l.maxPages <= 2 || l.maxDepth <= 1
  }

  lemma BreadthFirstHolds(c: Config, acts: seq<Action>, s: State)
    requires c.limits.Positive() && BreadthFirstLimits(c.limits) && Reaches(c, acts, s)
    ensures DepthsAreDistances(c, s)
  {
    if c.limits.workers == 1 {
      BreadthFirst(c, acts, s);
    } else {
      BooksInit(c);
      ShallowRun(c, Init(c), acts);
      RelaxedGivesDistances(c, s);
    }
  }

  lemma DepthRaceIsNotDistance(c: Config, s: State)
    requires c.site == OpenSite() && "/x" in s.visited && s.visited["/x"] == 2
    requires Expansion(Task("/", 0), ["/b", "/x"]) in s.expanded
    ensures !DepthsAreDistances(c, s)
  {
    var e, ks := Expansion(Task("/", 0), ["/b", "/x"]), ["/", "/x"];
    assert "/x" in e.links && Leads(c, e.links, "/x") && LinksTo(c, e, "/x");
    assert IsSeed(c, "/") && SeedKey(c, "/");
    assert Edge(c, s, "/", "/x");
    assert ks[..1] == ["/"] && Path(c, s, ["/"]);
    assert PathTo(c, s, ks, "/x");
  }

  /** Depths are shortest distances on every site and every run, exactly when no worker can overtake another: one
      worker, or too few pages, or too little depth, for a page below the seeds to be expanded with pages to spare. */
  lemma BreadthFirstIff(l: Limits)
    requires l.Positive()
    ensures (forall site, acts, s | Reaches(Config(l, site), acts, s) :: DepthsAreDistances(Config(l, site), s))
            <==> l.workers == 1 || l.maxPages <= 2 || l.maxDepth <= 1
  {
    if BreadthFirstLimits(l) {
      forall site, acts, s | Reaches(Config(l, site), acts, s) ensures DepthsAreDistances(Config(l, site), s) {
        BreadthFirstHolds(Config(l, site), acts, s);
      }
    } else {
      var acts, s := DepthRace(Config(l, OpenSite()));
      DepthRaceIsNotDistance(Config(l, OpenSite()), s);
    }
  }

  // Outer cancellation

  /** Some run of a crawl can strand exactly when some seed passes the filters: all workers leave on the outer
      cancellation with that seed still queued. */
  lemma StrandingIff(c: Config)
    requires c.limits.Positive()
    ensures (exists acts, s :: Reaches(c, acts, s) && Stranded(s)) <==> exists u :: IsSeed(c, u)
  {
    if exists acts, s :: Reaches(c, acts, s) && Stranded(s) {
      var acts, s :| Reaches(c, acts, s) && Stranded(s);
      StrandedHasSeed(c, acts, s);
    }
    if exists u :: IsSeed(c, u) {
      var acts, s := Strand(c);
    }
  }

  lemma StrandedHasSeed(c: Config, acts: seq<Action>, s: State)
    requires Reaches(c, acts, s) && s.tasks != []
    ensures exists u :: IsSeed(c, u)
  {
    BooksInit(c);
    BooksRun(c, Init(c), acts);
    assert s.tasks[0] in multiset(s.tasks) && s.tasks[0] in multiset(s.sent);
    var path := ChainTo(c, s, s.tasks[0]);
    assert IsSeed(c, path[0].url);
  }

  lemma Strand(c: Config) returns (acts: seq<Action>, s: State)
    requires c.limits.Positive() && exists u :: IsSeed(c, u)
    ensures Reaches(c, acts, s) && Stranded(s)
  {
    acts, s := SeedFirst(c, |c.site.seeds|);
    var u :| IsSeed(c, u);
    assert c.site.seeds[..|c.site.seeds|] == c.site.seeds;
    assert c.site.norm(u) in s.visited && |s.visited| > 0;
    acts, s := Do(c, acts, s, Start);
    acts, s := Do(c, acts, s, OuterCancel);
    acts, s := ExitWorkers(c, acts, s, 0);
  }
}
