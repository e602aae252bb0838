/**
  Every run ends, on any site, finite or not, and under any scheduler; and where it ends. The measure is
  lexicographic: pages still to be accepted, links of accepted pages still to be offered, and a weight for everything
  in flight.
*/
module CrawlTermination {
  import opened Basics
  import opened CrawlModel
  import opened CrawlLedger
  import opened CrawlShutdown
  import opened CrawlVisits
  import opened CrawlScenarios

  function PagesLeft(c: Config, s: State): nat {
    if s.processed < c.limits.maxPages then c.limits.maxPages - s.processed else 0
  }

  function LinksOf(p: Worker): nat {
    if p.Accepted() then |p.links| else 0
  }

  function LinksLeft(s: State): nat {
    Total(s.workers, LinksOf)
  }

  const QUEUED: nat := 9

  function Weight(p: Worker): nat {
    match p
    case Exited => 0
    case Idle => 1
    case Finishing(_) => 2
    case Expanding(_, _) => 3
    case Adding(_, _) => 4
    case Delivering(_, _) => 6
    case Counting(_, _) => 7
    case Fetching(_) => 8
    case Received(_) => 9
    case Claimed(_, _, _) => 14
    case Checked(_, _, _) => 15
  }

  function MainWeight(m: Main): nat {
    match m
    case Seeding(rest) => 2 + 10 * |rest|
    case Collecting(_) => 1
    case Returned(_) => 0
  }

  function CloserWeight(closer: Closer): nat {
    match closer
    case Waiting => 4
    case Woken => 3
    case TasksClosed => 2
    case ResultsClosed => 1
    case Cancelled => 0
  }

  function InFlight(s: State): nat {
    QUEUED * |s.tasks| + 2 * |s.results| + Total(s.workers, Weight) + MainWeight(s.main) + CloserWeight(s.closer)
    + (if s.outerCancelled then 0 else 1) + (if s.crash.None? then 1 else 0)
  }

  ghost predicate Below(c: Config, s': State, s: State) {
    || PagesLeft(c, s') < PagesLeft(c, s)
    || (PagesLeft(c, s') == PagesLeft(c, s) &&
        (LinksLeft(s') < LinksLeft(s) || (LinksLeft(s') == LinksLeft(s) && InFlight(s') < InFlight(s))))
  }

  /** What a step costs: a page, or else a link, or else weight. */
  lemma TurnCosts(c: Config, s: State, p: Worker, step: Step)
    requires Ready(c, s, p, step) && Panic(s, step).None?
    ensures var s', p' := Effect(c, s, p, step), Turn(c, s, p, step);
      || PagesLeft(c, s') < PagesLeft(c, s)
      || (PagesLeft(c, s') == PagesLeft(c, s) &&
          (LinksOf(p') < LinksOf(p) ||
           (LinksOf(p') == LinksOf(p) &&
            QUEUED * |s'.tasks| + 2 * |s'.results| + Weight(p') < QUEUED * |s.tasks| + 2 * |s.results| + Weight(p))))
  {
  }

  lemma EffectKeeps(c: Config, s: State, p: Worker, step: Step)
    requires Ready(c, s, p, step) && Panic(s, step).None?
    ensures var s' := Effect(c, s, p, step);
      && s'.outerCancelled == s.outerCancelled && s'.main == s.main && s'.closer == s.closer && s'.crash == s.crash
      && s'.workers == s.workers
  {
  }

  lemma WorkDecreases(c: Config, s: State, w: nat, step: Step)
    requires Enabled(c, s, Work(w, step)) && Panic(s, step).None?
    ensures Below(c, Next(c, s, Work(w, step)), s)
  {
    var p, s' := s.workers[w], Next(c, s, Work(w, step));
    var p' := Turn(c, s, p, step);
    TurnCosts(c, s, p, step);
    EffectKeeps(c, s, p, step);
    TotalUpdate(s.workers, LinksOf, w, p');
    TotalUpdate(s.workers, Weight, w, p');
    assert s'.workers == s.workers[w := p'];
  }

  /** Every action lowers the measure, from any state whatever. */
  lemma StepDecreases(c: Config, s: State, a: Action)
    requires Enabled(c, s, a)
    ensures Below(c, Next(c, s, a), s)
  {
    match a
    case Work(w, step) =>
      if Panic(s, step).None? {
        WorkDecreases(c, s, w, step);
      }
    case Seed(_) =>
    case _ =>
  }

  function Prefix(sched: nat -> Action, n: nat): seq<Action> {
    seq(n, i requires 0 <= i < n => sched(i))
  }

  lemma {:induction false} EndsFrom(c: Config, s: State, sched: nat -> Action, k: nat) returns (n: nat)
    ensures n >= k && RunFrom(c, s, Prefix(sched, n)[k..]).None?
    decreases PagesLeft(c, s), LinksLeft(s), InFlight(s)
  {
    if Enabled(c, s, sched(k)) {
      StepDecreases(c, s, sched(k));
      n := EndsFrom(c, Next(c, s, sched(k)), sched, k + 1);
      assert Prefix(sched, n)[k..] == [sched(k)] + Prefix(sched, n)[k + 1..];
    } else {
      n := k + 1;
      assert Prefix(sched, n)[k..] == [sched(k)];
    }
  }

  /** No infinite run exists: every scheduler reaches an action that is not enabled. */
  lemma EveryRunEnds(c: Config, sched: nat -> Action)
    ensures exists n: nat :: RunFrom(c, Init(c), Prefix(sched, n)).None?
  {
    var n := EndsFrom(c, Init(c), sched, 0);
    assert Prefix(sched, n)[0..] == Prefix(sched, n);
  }

  // Where runs end

  ghost predicate Quiescent(c: Config, s: State) {
    forall a :: Enabled(c, s, a) ==> a.OuterCancel?
  }

  /** `Run` has returned and every goroutine is gone. */
  ghost predicate Finished(s: State) {
    s.main.Returned? && s.closer.Cancelled? && AllExited(s)
  }

  /** The workers left on an outer cancellation with tasks still queued: the wait group never reaches zero, `results`
      is never closed, and `Run` waits on it for ever. */
  ghost predicate Stranded(s: State) {
    && s.outerCancelled && AllExited(s)
    && s.tasks != [] && s.closer.Waiting? && s.main.Collecting? && s.results == []
  }

  ghost predicate ExitsExplained(s: State) {
    forall p | p in s.workers && p.Exited? :: s.outerCancelled || s.TasksAreClosed()
  }

  /** No Done ever panics. */
  ghost predicate NoBadDone(s: State) {
    s.crash.Some? ==> !s.crash.value.NegativeWaitGroup?
  }

  ghost predicate SentOnClosed(s: State) {
    s.crash.Some? && (s.crash.value.SendOnClosedTasks? || s.crash.value.SendOnClosedResults?)
  }

  /** What holds along every run, with any limits. */
  ghost predicate Tracked(c: Config, s: State) {
    c.limits.Positive() && Books(c, s) && ExitsExplained(s) && NoBadDone(s)
  }

  lemma ExitsStep(c: Config, s: State, a: Action)
    requires Counted(c, s) && ExitsExplained(s) && Enabled(c, s, a)
    ensures ExitsExplained(Next(c, s, a))
  {
    match a
    case Work(w, step) =>
      if Panic(s, step).None? {
        EffectKeeps(c, s, s.workers[w], step);
        assert s.workers[w] in s.workers;
      }
    case Seed(_) =>
    case _ =>
  }

  /** Some case of the `select` in `enqueue` is always ready. */
  lemma OfferExists(c: Config, s: State) returns (offer: Offer)
    ensures MayOffer(c, s, offer)
  {
    offer := if s.TasksAreClosed() || |s.tasks| < c.limits.maxPages then Send
             else if s.ContextDone() then Abandon else Drop;
  }

  /** A worker that holds a task is never blocked. */
  lemma HolderMoves(c: Config, s: State, w: nat) returns (step: Step)
    requires Counted(c, s) && s.crash.None? && s.Started() && w < |s.workers| && s.workers[w].Holds()
    ensures Enabled(c, s, Work(w, step))
  {
    match s.workers[w]
    case Received(_) => step := CapCheck;
    case Fetching(_) => step := Fetch(Failed);
    case Counting(_, _) => step := Count;
    case Delivering(_, _) =>
      TotalUpdate(s.workers, IsDelivering, w, Idle);
      assert |s.delivered| >= |s.results|;
      step := Deliver;
    case Expanding(_, _) => step := NextLink;
    case Checked(_, _, _) => step := Claim;
    case Claimed(_, _, _) =>
      var offer := OfferExists(c, s);
      step := MakeOffer(offer);
    case Adding(_, _) => step := AddToGroup;
    case Finishing(_) => step := Finish;
  }

  lemma SeedingMoves(c: Config, s: State) returns (a: Action)
    requires s.crash.None? && s.main.Seeding?
    ensures Enabled(c, s, a) && !a.OuterCancel?
  {
    if s.main.rest == [] {
      a := Start;
    } else if WillOffer(c, s, s.main.rest[0]) {
      var offer := OfferExists(c, s);
      a := Seed(offer);
    } else {
      a := Seed(Drop);
    }
  }

  lemma MainPastSeeding(c: Config, s: State)
    requires s.crash.None? && Quiescent(c, s)
    ensures s.Started()
  {
    if s.main.Seeding? {
      var a := SeedingMoves(c, s);
    }
  }

  lemma NobodyHolds(c: Config, s: State)
    requires Counted(c, s) && s.crash.None? && Quiescent(c, s) && s.Started()
    ensures forall p | p in s.workers :: !p.Holds()
    ensures forall p | p in s.workers && p.Idle? :: s.tasks == [] && !s.TasksAreClosed() && !s.ContextDone()
  {
    forall w: nat | w < |s.workers|
      ensures !s.workers[w].Holds()
      ensures s.workers[w].Idle? ==> s.tasks == [] && !s.TasksAreClosed() && !s.ContextDone()
    {
      if s.workers[w].Holds() {
        var step := HolderMoves(c, s, w);
      } else if s.workers[w].Idle? {
        assert !Enabled(c, s, Work(w, Take)) && !Enabled(c, s, Work(w, TakeClosed));
        assert !Enabled(c, s, Work(w, SeeCancel));
      }
    }
  }

  /** A run can stop in exactly three ways: by a panic, finished, or stranded by the outer cancellation. */
  lemma QuiescentIff(c: Config, s: State)
    requires Tracked(c, s)
    ensures Quiescent(c, s) <==> s.crash.Some? || Finished(s) || Stranded(s)
  {
    if Quiescent(c, s) && s.crash.None? {
      MainPastSeeding(c, s);
      NobodyHolds(c, s);
      GroupCounts(c, s);
      assert s.workers[0] in s.workers;
      assert !Enabled(c, s, WaitReturns) && !Enabled(c, s, CloseTasks);
      assert !Enabled(c, s, CloseResults) && !Enabled(c, s, CancelContext);
      assert !Enabled(c, s, Collect) && !Enabled(c, s, CollectEnd);
      QuietEnds(c, s);
    }
    if Finished(s) || Stranded(s) {
      GroupCounts(c, s);
      assert forall w: nat | w < |s.workers| :: s.workers[w] in s.workers;
    }
  }

  lemma QuietEnds(c: Config, s: State)
    requires Counted(c, s) && ExitsExplained(s) && s.Started() && s.workers != [] && s.crash.None?
    requires s.wg == 0 <==> s.tasks == []
    requires forall p | p in s.workers :: !p.Holds()
    requires forall p | p in s.workers && p.Idle? :: s.tasks == [] && !s.TasksAreClosed() && !s.ContextDone()
    requires !Enabled(c, s, WaitReturns) && !Enabled(c, s, CloseTasks)
    requires !Enabled(c, s, CloseResults) && !Enabled(c, s, CancelContext)
    requires !Enabled(c, s, Collect) && !Enabled(c, s, CollectEnd)
    ensures Finished(s) || Stranded(s)
  {
    assert s.workers[0] in s.workers;
  }

  lemma TrackedInit(c: Config)
    requires c.limits.Positive()
    ensures Tracked(c, Init(c))
  {
    BooksInit(c);
  }

  lemma TrackedStep(c: Config, s: State, a: Action)
    requires Tracked(c, s) && Enabled(c, s, a)
    ensures Tracked(c, Next(c, s, a))
  {
    BooksStep(c, s, a);
    ExitsStep(c, s, a);
    if a.Work? && a.step.Finish? {
      FinishHasCredit(c, s, a.w);
    }
    CrashComes(c, s, a);
  }

  lemma CrashComes(c: Config, s: State, a: Action)
    requires Enabled(c, s, a) && (a.Work? && a.step.Finish? ==> s.wg > 0)
    ensures NoBadDone(Next(c, s, a))
  {
    if a.Work? && Panic(s, a.step).None? {
      EffectKeeps(c, s, s.workers[a.w], a.step);
    }
  }

  lemma {:induction false} TrackedRun(c: Config, s: State, acts: seq<Action>)
    requires Tracked(c, s) && RunFrom(c, s, acts).Some?
    ensures Tracked(c, RunFrom(c, s, acts).value)
    decreases |acts|
  {
    if acts != [] {
      TrackedStep(c, s, acts[0]);
      TrackedRun(c, Next(c, s, acts[0]), acts[1..]);
    }
  }

  /** What is true of a finished run whatever the limits: the returned pages are all the results sent,
      `min(processed, MaxPages)` of them, and the tasks sent are those done, each once, and those left in the channel,
      which are what the wait group still counts. */
  ghost predicate Accounted(c: Config, s: State) {
    && multiset(s.sent) == multiset(s.done) + multiset(s.tasks) && s.wg == |s.tasks|
    && s.main.Returned? && s.main.got == s.delivered
    && |s.main.got| == (if s.processed <= c.limits.maxPages then s.processed else c.limits.maxPages)
  }

  /** And nothing is left: every task sent is Done exactly once. */
  ghost predicate Report(c: Config, s: State) {
    Accounted(c, s) && multiset(s.done) == multiset(s.sent) && s.tasks == [] && s.wg == 0
  }

  lemma FinishedIsAccounted(c: Config, s: State)
    requires Tracked(c, s) && Finished(s)
    ensures Accounted(c, s)
  {
    GroupCounts(c, s);
    BagEmpty(s.workers, Held);
    TotalZero(s.workers, IsWorking);
    TotalZero(s.workers, IsDelivering);
    assert forall i | 0 <= i < |s.workers| :: s.workers[i] in s.workers;
    assert s.main.got + [] == s.main.got;
  }

  /** With any limits, on any site: a run that can go no further has panicked by a send on a closed channel, or has
      returned all its results, or was cancelled from outside and is stranded. With `EveryRunEnds`, that is where all
      runs end. What a finished run has lost is what it has left in the channel. */
  lemma RunsReturnOrPanic(c: Config, acts: seq<Action>, s: State)
    requires c.limits.Positive() && Reaches(c, acts, s)
    ensures Quiescent(c, s) <==> SentOnClosed(s) || Finished(s) || Stranded(s)
    ensures Finished(s) ==> Accounted(c, s)
    ensures Finished(s) ==> (Report(c, s) <==> s.tasks == [])
  {
    TrackedInit(c);
    TrackedRun(c, Init(c), acts);
    QuiescentIff(c, s);
    if Finished(s) {
      FinishedIsAccounted(c, s);
    }
  }

  /** For one worker, or one page: every run that finishes, cancelled or not, has done all it sent, and every run
      without outer cancellation that can go no further has finished. */
  lemma UncancelledRunsReturn(c: Config, acts: seq<Action>, s: State)
    requires c.limits.Positive() && SafeLimits(c.limits) && Reaches(c, acts, s)
    ensures Finished(s) ==> Report(c, s)
    ensures !s.outerCancelled && Quiescent(c, s) ==> Finished(s)
  {
    SoloInit(c);
    SoloRun(c, Init(c), acts);
    RunsReturnOrPanic(c, acts, s);
  }

  /** Runs a crawl under a scheduler that picks some enabled action whenever there is one. The loop ends on every
      site. One worker or one page rule out the panic and the loss. */
  method Drive(c: Config, pick: State -> Action) returns (s: State)
    requires c.limits.Positive()
    requires forall s: State :: (exists a :: Enabled(c, s, a)) ==> Enabled(c, s, pick(s))
    ensures SentOnClosed(s) || Finished(s) || Stranded(s)
    ensures Finished(s) ==> Accounted(c, s)
    ensures SafeLimits(c.limits) ==> s.crash.None? && (Finished(s) ==> Report(c, s))
  {
    s := Init(c);
    TrackedInit(c);
    SoloInit(c);
    while Enabled(c, s, pick(s))
      invariant Tracked(c, s)
      invariant SafeLimits(c.limits) ==> Safe(c, s) && Solo(c, s)
      decreases PagesLeft(c, s), LinksLeft(s), InFlight(s)
    {
      StepDecreases(c, s, pick(s));
      TrackedStep(c, s, pick(s));
      if SafeLimits(c.limits) {
        SoloIsHonest(c, s);
        SafeStep(c, s, pick(s));
        SoloStep(c, s, pick(s));
      }
      s := Next(c, s, pick(s));
    }
    assert Quiescent(c, s);
    QuiescentIff(c, s);
    if Finished(s) {
      FinishedIsAccounted(c, s);
    }
  }

  /** For any number of workers, on the runs in which no other goroutine moves between a send and its Add. */
  lemma UndisturbedRunsReturn(c: Config, acts: seq<Action>, s: State)
    requires c.limits.Positive() && Undisturbed(acts) && Reaches(c, acts, s)
    ensures s.crash.None?
    ensures s.closer.Waiting? || (s.tasks == [] && forall p | p in s.workers :: !p.Holds())
    ensures !s.outerCancelled && Quiescent(c, s) ==> Finished(s) && Report(c, s)
  {
    SafeInit(c);
    UndisturbedRun(c, Init(c), acts);
    RunsReturnOrPanic(c, acts, s);
  }
}
