/**
  What a crawl does reach. Which pages become results and which of them are expanded, with which links; and for the
  runs that lose nothing, that the pages sent are exactly those within MaxDepth links of the seeds.
*/
module CrawlCoverage {
  import opened Basics
  import opened CrawlModel
  import opened CrawlLedger
  import opened CrawlShutdown
  import opened CrawlVisits
  import opened CrawlOrder
  import opened CrawlTermination
  import opened CrawlScenarios
  import opened CrawlDrops

  // Which pages are results, and which are expanded

  /** `processPage` answered this task with a page that has these links. */
  ghost predicate AnsweredPage(s: State, t: Task, links: seq<string>) {
    Answer(t, Page(links)) in s.answers
  }

  /** The tasks that are not yet at the depth limit. */
  function Shallow(c: Config, ts: seq<Task>): seq<Task> {
    if ts == [] then []
    else
      var last := ts[|ts| - 1];
      Shallow(c, ts[..|ts| - 1]) + if last.depth < c.limits.maxDepth then [last] else []
  }

  function ExpandedTasks(es: seq<Expansion>): seq<Task> {
    seq(|es|, i requires 0 <= i < |es| => es[i].task)
  }

  function AnsweredTasks(answers: seq<Answer>): seq<Task> {
    seq(|answers|, i requires 0 <= i < |answers| => answers[i].task)
  }

  /** The links a worker has in hand are those of its page's answer. */
  ghost predicate HoldsAnswer(s: State, p: Worker) {
    p.Counting? || p.Delivering? ==> AnsweredPage(s, p.task, p.links)
  }

  ghost predicate Faithful(c: Config, s: State) {
    && AnsweredTasks(s.answers) == s.fetched
    && (forall p | p in s.workers :: HoldsAnswer(s, p))
    && (forall t | t in s.delivered :: exists links :: AnsweredPage(s, t, links))
    && (forall e | e in s.expanded :: AnsweredPage(s, e.task, e.links))
    && ExpandedTasks(s.expanded) == Shallow(c, s.delivered)
  }

  lemma FaithfulFetch(c: Config, s: State, p: Worker, outcome: Outcome)
    requires Faithful(c, s) && p in s.workers && Ready(c, s, p, Fetch(outcome))
    ensures Faithful(c, Effect(c, s, p, Fetch(outcome)))
    ensures HoldsAnswer(Effect(c, s, p, Fetch(outcome)), Turn(c, s, p, Fetch(outcome)))
  {
    var s', a := Effect(c, s, p, Fetch(outcome)), Answer(p.task, outcome);
    assert s'.answers == s.answers + [a] && a in s'.answers;
    assert AnsweredTasks(s'.answers) == AnsweredTasks(s.answers) + [p.task];
    forall t | t in s'.delivered ensures exists links :: AnsweredPage(s', t, links) {
      var links :| AnsweredPage(s, t, links);
      assert AnsweredPage(s', t, links);
    }
  }

  lemma FaithfulDeliver(c: Config, s: State, p: Worker)
    requires Faithful(c, s) && p in s.workers && Ready(c, s, p, Deliver) && Panic(s, Deliver).None?
    ensures Faithful(c, Effect(c, s, p, Deliver))
  {
    var s' := Effect(c, s, p, Deliver);
    assert HoldsAnswer(s, p);
    assert AnsweredPage(s', p.task, p.links);
    assert s'.delivered[..|s.delivered|] == s.delivered;
    forall t | t in s'.delivered ensures exists links :: AnsweredPage(s', t, links) {
      if t in s.delivered {
        var links :| AnsweredPage(s, t, links);
        assert AnsweredPage(s', t, links);
      }
    }
    if p.task.depth < c.limits.maxDepth {
      assert ExpandedTasks(s'.expanded) == ExpandedTasks(s.expanded) + [p.task];
    } else {
      assert s'.expanded == s.expanded;
    }
  }

  lemma FaithfulOther(c: Config, s: State, p: Worker, step: Step)
    requires Faithful(c, s) && p in s.workers && Ready(c, s, p, step) && Panic(s, step).None?
    requires !step.Fetch? && !step.Deliver?
    ensures Faithful(c, Effect(c, s, p, step)) && HoldsAnswer(Effect(c, s, p, step), Turn(c, s, p, step))
  {
    assert HoldsAnswer(s, p);
    SameHistory(c, s, p, step);
    FaithfulSame(c, s, Effect(c, s, p, step));
  }

  lemma SameHistory(c: Config, s: State, p: Worker, step: Step)
    requires Ready(c, s, p, step) && Panic(s, step).None? && !step.Fetch? && !step.Deliver?
    ensures var s', p' := Effect(c, s, p, step), Turn(c, s, p, step);
      && s'.answers == s.answers && s'.fetched == s.fetched && s'.delivered == s.delivered
      && s'.expanded == s.expanded && s'.workers == s.workers
      && (p'.Counting? || p'.Delivering? ==> p.Counting? && p'.task == p.task && p'.links == p.links)
  {
  }

  lemma FaithfulWork(c: Config, s: State, w: nat, step: Step)
    requires Faithful(c, s) && Enabled(c, s, Work(w, step)) && Panic(s, step).None?
    ensures Faithful(c, Next(c, s, Work(w, step)))
  {
    var p := s.workers[w];
    assert p in s.workers;
    if step.Fetch? {
      FaithfulFetch(c, s, p, step.outcome);
    } else if step.Deliver? {
      FaithfulDeliver(c, s, p);
    } else {
      FaithfulOther(c, s, p, step);
    }
    FaithfulMove(c, Effect(c, s, p, step), w, Turn(c, s, p, step));
  }

  lemma FaithfulMove(c: Config, s: State, w: nat, p: Worker)
    requires Faithful(c, s) && w < |s.workers| && HoldsAnswer(s, p)
    ensures Faithful(c, s.Move(w, p))
  {
    var s' := s.Move(w, p);
    forall q | q in s'.workers ensures HoldsAnswer(s', q) {
      assert q == p || q in s.workers;
      assert HoldsAnswer(s, q);
    }
    forall t | t in s'.delivered ensures exists links :: AnsweredPage(s', t, links) {
      var links :| AnsweredPage(s, t, links);
      assert AnsweredPage(s', t, links);
    }
    assert forall e | e in s'.expanded :: AnsweredPage(s, e.task, e.links) && AnsweredPage(s', e.task, e.links);
  }

  lemma FaithfulSame(c: Config, s: State, s': State)
    requires Faithful(c, s) && s'.answers == s.answers && s'.fetched == s.fetched && s'.workers == s.workers
    requires s'.delivered == s.delivered && s'.expanded == s.expanded
    ensures Faithful(c, s')
  {
    forall t | t in s'.delivered ensures exists links :: AnsweredPage(s', t, links) {
      var links :| AnsweredPage(s, t, links);
      assert AnsweredPage(s', t, links);
    }
    assert forall p | p in s'.workers :: HoldsAnswer(s, p) && HoldsAnswer(s', p);
    assert forall e | e in s'.expanded :: AnsweredPage(s, e.task, e.links) && AnsweredPage(s', e.task, e.links);
  }

  lemma FaithfulStep(c: Config, s: State, a: Action)
    requires Faithful(c, s) && Enabled(c, s, a)
    ensures Faithful(c, Next(c, s, a))
  {
    match a
    case Work(w, step) =>
      if Panic(s, step).None? {
        FaithfulWork(c, s, w, step);
      } else {
        FaithfulSame(c, s, Next(c, s, a));
      }
    case Seed(_) => FaithfulSame(c, s, Next(c, s, a));
    case _ => FaithfulSame(c, s, Next(c, s, a));
  }

  lemma {:induction false} FaithfulRun(c: Config, s: State, acts: seq<Action>)
    requires Faithful(c, s) && RunFrom(c, s, acts).Some?
    ensures Faithful(c, RunFrom(c, s, acts).value)
    decreases |acts|
  {
    if acts != [] {
      FaithfulStep(c, s, acts[0]);
      FaithfulRun(c, Next(c, s, acts[0]), acts[1..]);
    }
  }

  lemma {:induction false} ShallowAre(c: Config, ts: seq<Task>, t: Task)
    ensures t in Shallow(c, ts) <==> t in ts && t.depth < c.limits.maxDepth
  {
    if ts != [] {
      var init, last := ts[..|ts| - 1], ts[|ts| - 1];
      ShallowAre(c, init, t);
      assert ts == init + [last];
    }
  }

  /** In every reachable state of every interleaving: the tasks expanded are exactly the results above the depth limit,
      in order; every result is a task that `processPage` answered with a page, and an expanded one has the links of
      that answer; and no task has two answers. */
  lemma ExpandedAreShallow(c: Config, acts: seq<Action>, s: State)
    requires Reaches(c, acts, s)
    ensures ExpandedTasks(s.expanded) == Shallow(c, s.delivered)
    ensures forall t ::
              (exists e :: e in s.expanded && e.task == t) <==> t in s.delivered && t.depth < c.limits.maxDepth
    ensures forall e | e in s.expanded :: AnsweredPage(s, e.task, e.links)
    ensures forall t | t in s.delivered :: exists links :: AnsweredPage(s, t, links)
    ensures forall i, j | 0 <= i < j < |s.answers| :: s.answers[i].task != s.answers[j].task
  {
    FaithfulRun(c, Init(c), acts);
    VisitOnce(c, acts, s);
    forall t ensures (exists e :: e in s.expanded && e.task == t) <==> t in s.delivered && t.depth < c.limits.maxDepth {
      ShallowAre(c, s.delivered, t);
      TaskExpanded(s.expanded, t);
    }
    forall i, j | 0 <= i < j < |s.answers| ensures s.answers[i].task != s.answers[j].task {
      assert s.fetched[i] == s.answers[i].task && s.fetched[j] == s.answers[j].task;
    }
  }

  lemma TaskExpanded(es: seq<Expansion>, t: Task)
    ensures t in ExpandedTasks(es) <==> exists e :: e in es && e.task == t
  {
    if t in ExpandedTasks(es) {
      var i :| 0 <= i < |es| && ExpandedTasks(es)[i] == t;
      assert es[i] in es && es[i].task == t;
    }
    if exists e :: e in es && e.task == t {
      var e :| e in es && e.task == t;
      var i :| 0 <= i < |es| && es[i] == e;
      assert ExpandedTasks(es)[i] == t;
    }
  }

  // The page cap

  /** A worker that will count its page, if it gets one. */
  function IsBusy(p: Worker): nat {
    if p.Fetching? || p.Counting? then 1 else 0
  }

  ghost predicate CapRespected(c: Config, s: State) {
    |s.workers| == c.limits.workers && s.processed + Total(s.workers, IsBusy) < c.limits.maxPages + c.limits.workers
  }

  lemma {:induction false} BusyBound(ws: seq<Worker>)
    ensures Total(ws, IsBusy) <= |ws|
  {
    if ws != [] {
      BusyBound(ws[1..]);
    }
  }

  /** Only the check of the cap makes a worker busy, and only below the cap. */
  lemma BusyTurn(c: Config, s: State, p: Worker, step: Step)
    requires Ready(c, s, p, step) && Panic(s, step).None?
    ensures var s', p' := Effect(c, s, p, step), Turn(c, s, p, step);
      && s'.workers == s.workers
      && (step.CapCheck? && s.processed < c.limits.maxPages ==> IsBusy(p) == 0 && s'.processed == s.processed)
      && (!(step.CapCheck? && s.processed < c.limits.maxPages) ==>
            s'.processed + IsBusy(p') <= s.processed + IsBusy(p))
  {
  }

  lemma CapStep(c: Config, s: State, a: Action)
    requires CapRespected(c, s) && Enabled(c, s, a)
    ensures CapRespected(c, Next(c, s, a))
  {
    match a
    case Work(w, step) =>
      if Panic(s, step).None? {
        var p, p' := s.workers[w], Turn(c, s, s.workers[w], step);
        BusyTurn(c, s, p, step);
        TotalUpdate(s.workers, IsBusy, w, p');
        assert Next(c, s, a).workers == s.workers[w := p'];
        BusyBound(Next(c, s, a).workers);
      }
    case Seed(_) =>
    case _ =>
  }

  lemma {:induction false} CapRun(c: Config, s: State, acts: seq<Action>)
    requires CapRespected(c, s) && RunFrom(c, s, acts).Some?
    ensures CapRespected(c, RunFrom(c, s, acts).value)
    decreases |acts|
  {
    if acts != [] {
      CapStep(c, s, acts[0]);
      CapRun(c, Next(c, s, acts[0]), acts[1..]);
    }
  }

  /** Fetching stops at the page cap: in every reachable state the pages counted and those still being fetched are fewer
      than MaxPages and the workers together, so at most one page per other worker is fetched in vain, and with one
      worker none is. */
  lemma CapOvershoot(c: Config, acts: seq<Action>, s: State)
    requires c.limits.Positive() && Reaches(c, acts, s)
    ensures s.processed + Total(s.workers, IsBusy) < c.limits.maxPages + c.limits.workers
    ensures c.limits.workers == 1 ==> s.processed <= c.limits.maxPages && |s.delivered| <= s.processed
  {
    TotalZero(Init(c).workers, IsBusy);
    CapRun(c, Init(c), acts);
    ResultsFit(c, acts, s);
  }

  // Offers

  /** What becomes of an offer depends on the channel alone: in every reachable state, until `tasks` is closed, it is
      sent when there is room and dropped when there is none, unless the context is done. */
  lemma OfferSettles(c: Config, acts: seq<Action>, s: State, w: nat)
    requires c.limits.Positive() && Reaches(c, acts, s) && s.crash.None? && s.Started() && !s.TasksAreClosed()
    requires w < |s.workers| && s.workers[w].Claimed?
    ensures |s.tasks| <= c.limits.maxPages
    ensures Enabled(c, s, Work(w, MakeOffer(Send))) <==> |s.tasks| < c.limits.maxPages
    ensures Enabled(c, s, Work(w, MakeOffer(Drop))) <==> |s.tasks| == c.limits.maxPages && !s.ContextDone()
    ensures Enabled(c, s, Work(w, MakeOffer(Abandon))) <==> s.ContextDone()
  {
    TasksFitRun(c, Init(c), acts);
  }

  lemma TasksFitStep(c: Config, s: State, a: Action)
    requires |s.tasks| <= c.limits.maxPages && (s.main.Seeding? ==> s.closer.Waiting?) && Enabled(c, s, a)
    ensures var s' := Next(c, s, a); |s'.tasks| <= c.limits.maxPages && (s'.main.Seeding? ==> s'.closer.Waiting?)
  {
    match a
    case Work(w, step) =>
      if Panic(s, step).None? {
        EffectOnLedger(c, s, s.workers[w], step);
      }
    case Seed(_) =>
    case _ =>
  }

  lemma {:induction false} TasksFitRun(c: Config, s: State, acts: seq<Action>)
    requires |s.tasks| <= c.limits.maxPages && (s.main.Seeding? ==> s.closer.Waiting?) && RunFrom(c, s, acts).Some?
    ensures |RunFrom(c, s, acts).value.tasks| <= c.limits.maxPages
    decreases |acts|
  {
    if acts != [] {
      TasksFitStep(c, s, acts[0]);
      TasksFitRun(c, Next(c, s, acts[0]), acts[1..]);
    }
  }

  /** An offer, of a link or of a seed, that is not sent. */
  ghost predicate Drops(c: Config, s: State, a: Action)
    requires Enabled(c, s, a)
  {
    match a
    case Work(_, MakeOffer(offer)) => !offer.Send?
    case Seed(offer) => WillOffer(c, s, s.main.rest[0]) && !offer.Send?
    case _ => false
  }

  /** The run sends whatever it offers. */
  ghost predicate NeverDrops(c: Config, s: State, acts: seq<Action>)
    decreases |acts|
  {
    acts == [] ||
    (Enabled(c, s, acts[0]) && !Drops(c, s, acts[0]) && NeverDrops(c, Next(c, s, acts[0]), acts[1..]))
  }

  // Nothing claimed is lost

  ghost predicate IsSent(c: Config, s: State, k: Key) {
    exists t :: t in s.sent && c.site.norm(t.url) == k
  }

  ghost predicate IsClaimed(c: Config, s: State, k: Key) {
    exists p :: p in s.workers && p.Claimed? && c.site.norm(p.url) == k
  }

  /** Every key visited is that of a task sent, or of one about to be offered. */
  ghost predicate NothingLost(c: Config, s: State) {
    forall k | k in s.visited :: IsSent(c, s, k) || IsClaimed(c, s, k)
  }

  lemma LostNothingAt(c: Config, s: State, w: nat, step: Step, k: Key)
    requires Enabled(c, s, Work(w, step)) && Panic(s, step).None? && !Drops(c, s, Work(w, step))
    requires IsSent(c, s, k) || IsClaimed(c, s, k)
    ensures var s' := Next(c, s, Work(w, step)); IsSent(c, s', k) || IsClaimed(c, s', k)
  {
    var p, s' := s.workers[w], Next(c, s, Work(w, step));
    ClaimGoes(c, s, p, step);
    if IsSent(c, s, k) {
      var t :| t in s.sent && c.site.norm(t.url) == k;
      assert t in s'.sent;
    } else {
      var q :| q in s.workers && q.Claimed? && c.site.norm(q.url) == k;
      var j :| 0 <= j < |s.workers| && s.workers[j] == q;
      if j == w {
        var child := Task(p.url, p.task.depth + 1);
        assert s'.sent == s.sent + [child] && child in s'.sent;
      } else {
        assert s'.workers[j] == q;
      }
    }
  }

  lemma ClaimGoes(c: Config, s: State, p: Worker, step: Step)
    requires Ready(c, s, p, step) && Panic(s, step).None? && (step.MakeOffer? ==> step.offer.Send?)
    ensures var s' := Effect(c, s, p, step);
      && s'.workers == s.workers && s.sent <= s'.sent
      && (p.Claimed? ==> s'.sent == s.sent + [Task(p.url, p.task.depth + 1)])
  {
  }

  lemma NothingLostWork(c: Config, s: State, w: nat, step: Step)
    requires NothingLost(c, s) && Enabled(c, s, Work(w, step)) && Panic(s, step).None? && !Drops(c, s, Work(w, step))
    ensures NothingLost(c, Next(c, s, Work(w, step)))
  {
    var p, s' := s.workers[w], Next(c, s, Work(w, step));
    VisitedGrows(c, s, p, step);
    forall k | k in s'.visited ensures IsSent(c, s', k) || IsClaimed(c, s', k) {
      if k in s.visited {
        LostNothingAt(c, s, w, step, k);
      } else {
        var p' := Claimed(p.task, p.url, p.links);
        assert s'.workers[w] == p' && p' in s'.workers;
      }
    }
  }

  lemma NothingLostSeed(c: Config, s: State, offer: Offer)
    requires NothingLost(c, s) && Enabled(c, s, Seed(offer)) && !Drops(c, s, Seed(offer))
    ensures NothingLost(c, SeedNext(c, s, offer))
  {
    var s', url := SeedNext(c, s, offer), s.main.rest[0];
    forall k | k in s'.visited ensures IsSent(c, s', k) || IsClaimed(c, s', k) {
      if k !in s.visited {
        assert s'.sent == s.sent + [Task(url, 0)] && Task(url, 0) in s'.sent;
      } else if IsSent(c, s, k) {
        var t :| t in s.sent && c.site.norm(t.url) == k;
        assert t in s'.sent;
      }
    }
  }

  lemma {:induction false} NothingLostRun(c: Config, s: State, acts: seq<Action>)
    requires NothingLost(c, s) && RunFrom(c, s, acts).Some? && NeverDrops(c, s, acts)
    ensures NothingLost(c, RunFrom(c, s, acts).value)
    decreases |acts|
  {
    if acts != [] {
      NothingLostStep(c, s, acts[0]);
      NothingLostRun(c, Next(c, s, acts[0]), acts[1..]);
    }
  }

  lemma NothingLostSame(c: Config, s: State, s': State)
    requires NothingLost(c, s) && s'.visited == s.visited && s'.sent == s.sent && s'.workers == s.workers
    ensures NothingLost(c, s')
  {
    forall k | k in s'.visited ensures IsSent(c, s', k) || IsClaimed(c, s', k) {
      assert IsSent(c, s, k) || IsClaimed(c, s, k);
    }
  }

  lemma NothingLostStep(c: Config, s: State, a: Action)
    requires NothingLost(c, s) && Enabled(c, s, a) && !Drops(c, s, a)
    ensures NothingLost(c, Next(c, s, a))
  {
    match a
    case Work(w, step) =>
      if Panic(s, step).None? {
        NothingLostWork(c, s, w, step);
      } else {
        NothingLostSame(c, s, Next(c, s, a));
      }
    case Seed(offer) => NothingLostSeed(c, s, offer);
    case _ => NothingLostSame(c, s, Next(c, s, a));
  }

  // Under the page cap everything sent is fetched

  ghost predicate AllKept(c: Config, s: State) {
    s.processed < c.limits.maxPages ==> forall t: Task :: multiset(s.sent)[t] <= Copies(s, t)
  }

  lemma KeptTurn(c: Config, s: State, p: Worker, step: Step, t: Task)
    requires Ready(c, s, p, step) && Panic(s, step).None? && s.processed < c.limits.maxPages
    ensures var s', p' := Effect(c, s, p, step), Turn(c, s, p, step);
      multiset(s.fetched)[t] + multiset(s.tasks)[t] + Unfetched(p)[t] + multiset(s'.sent)[t]
      <= multiset(s'.fetched)[t] + multiset(s'.tasks)[t] + Unfetched(p')[t] + multiset(s.sent)[t]
  {
    var s' := Effect(c, s, p, step);
    if step.Take? {
      assert s.tasks == [s.tasks[0]] + s'.tasks;
      assert multiset(s.tasks) == multiset{s.tasks[0]} + multiset(s'.tasks);
    } else if step.Fetch? {
      assert multiset(s'.fetched) == multiset(s.fetched) + multiset{p.task};
    } else {
      EffectOnLedger(c, s, p, step);
      KeptUnfetched(c, s, p, step);
      if step == MakeOffer(Send) {
        var child := Task(p.url, p.task.depth + 1);
        assert multiset(s'.tasks) == multiset(s.tasks) + multiset{child};
        assert multiset(s'.sent) == multiset(s.sent) + multiset{child};
      }
    }
  }

  lemma KeptUnfetched(c: Config, s: State, p: Worker, step: Step)
    requires Ready(c, s, p, step) && Panic(s, step).None? && s.processed < c.limits.maxPages
    requires !step.Take? && !step.Fetch?
    ensures Unfetched(Turn(c, s, p, step)) == Unfetched(p) && Effect(c, s, p, step).fetched == s.fetched
  {
  }

  lemma KeptWork(c: Config, s: State, w: nat, step: Step, t: Task)
    requires Enabled(c, s, Work(w, step)) && Panic(s, step).None? && s.processed < c.limits.maxPages
    ensures var s' := Next(c, s, Work(w, step));
      Copies(s, t) + multiset(s'.sent)[t] <= Copies(s', t) + multiset(s.sent)[t]
  {
    var p, s' := s.workers[w], Next(c, s, Work(w, step));
    UnfetchedCount(s.workers, w, Turn(c, s, p, step), t);
    EffectOnLedger(c, s, p, step);
    KeptTurn(c, s, p, step, t);
    assert s'.workers == s.workers[w := Turn(c, s, p, step)];
  }

  lemma KeptStep(c: Config, s: State, a: Action)
    requires AllKept(c, s) && Enabled(c, s, a)
    ensures AllKept(c, Next(c, s, a))
  {
    match a
    case Work(w, step) =>
      if Panic(s, step).None? && Next(c, s, a).processed < c.limits.maxPages {
        VisitedGrows(c, s, s.workers[w], step);
        forall t: Task ensures multiset(Next(c, s, a).sent)[t] <= Copies(Next(c, s, a), t) {
          KeptWork(c, s, w, step, t);
        }
      }
    case Seed(offer) => KeptSeed(c, s, offer);
    case _ =>
  }

  lemma KeptSeed(c: Config, s: State, offer: Offer)
    requires AllKept(c, s) && Enabled(c, s, Seed(offer))
    ensures AllKept(c, SeedNext(c, s, offer))
  {
    var s', child := SeedNext(c, s, offer), Task(s.main.rest[0], 0);
    if s'.sent != s.sent {
      assert multiset(s'.tasks) == multiset(s.tasks) + multiset{child};
      assert multiset(s'.sent) == multiset(s.sent) + multiset{child};
    }
  }

  lemma {:induction false} KeptRun(c: Config, s: State, acts: seq<Action>)
    requires AllKept(c, s) && RunFrom(c, s, acts).Some?
    ensures AllKept(c, RunFrom(c, s, acts).value)
    decreases |acts|
  {
    if acts != [] {
      KeptStep(c, s, acts[0]);
      KeptRun(c, Next(c, s, acts[0]), acts[1..]);
    }
  }

  lemma KeptInit(c: Config)
    ensures AllKept(c, Init(c))
  {
  }

  lemma AllAreFetched(c: Config, s: State)
    requires AllKept(c, s) && s.processed < c.limits.maxPages && s.tasks == [] && AllExited(s)
    ensures forall t | t in s.sent :: t in s.fetched
  {
    BagEmpty(s.workers, Unfetched);
    assert forall i | 0 <= i < |s.workers| :: s.workers[i] in s.workers;
    forall t | t in s.sent ensures t in s.fetched {
      assert t in multiset(s.sent) && multiset(s.sent)[t] <= Copies(s, t);
      assert multiset(s.fetched)[t] > 0;
    }
  }

  // Coverage

  /** A page that became a result links to some admitted URL with the key `to`. */
  ghost predicate ResultLink(c: Config, s: State, from: Key, to: Key) {
    exists t, links ::
      t in s.delivered && AnsweredPage(s, t, links) && c.site.norm(t.url) == from && LinksTo(c, Expansion(t, links), to)
  }

  /** From an admitted seed along the links of results. */
  ghost predicate ResultPath(c: Config, s: State, ks: seq<Key>)
    decreases |ks|
  {
    if ks == [] then false
    else if |ks| == 1 then SeedKey(c, ks[0])
    else ResultPath(c, s, ks[..|ks| - 1]) && ResultLink(c, s, ks[|ks| - 2], ks[|ks| - 1])
  }

  ghost predicate Within(c: Config, s: State, ks: seq<Key>, k: Key, distance: nat) {
    ResultPath(c, s, ks) && ks[|ks| - 1] == k && |ks| <= distance + 1
  }

  /** All links of expanded pages have been claimed, at most one level down. */
  ghost predicate Followed(c: Config, s: State) {
    forall e, k | e in s.expanded && LinksTo(c, e, k) :: k in s.visited && s.visited[k] <= e.task.depth + 1
  }

  /** What is known of a state when nothing is left to do. */
  ghost predicate Complete(c: Config, s: State) {
    && Books(c, s) && Roots(c, s) && Faithful(c, s) && Followed(c, s)
    && s.Started() && (forall k | k in s.visited :: IsSent(c, s, k))
  }

  /** The page of a result above the depth limit was expanded, with the links of its answer. */
  lemma ResultExpanded(c: Config, s: State, t: Task, links: seq<string>) returns (e: Expansion)
    requires Books(c, s) && Faithful(c, s) && t in s.delivered && AnsweredPage(s, t, links)
    requires t.depth < c.limits.maxDepth
    ensures e == Expansion(t, links) && e in s.expanded && t in s.sent
  {
    ShallowAre(c, s.delivered, t);
    TaskExpanded(s.expanded, t);
    e :| e in s.expanded && e.task == t;
    assert AnsweredPage(s, e.task, e.links);
    OneAnswer(c, s, t, links, e.links);
    FetchedWasSent(s);
  }

  lemma AnswerFetched(s: State, t: Task, links: seq<string>) returns (i: nat)
    requires AnsweredTasks(s.answers) == s.fetched && AnsweredPage(s, t, links)
    ensures i < |s.fetched| == |s.answers| && s.fetched[i] == t && s.answers[i] == Answer(t, Page(links))
  {
    i :| i < |s.answers| && s.answers[i] == Answer(t, Page(links));
    assert AnsweredTasks(s.answers)[i] == t;
  }

  lemma OneAnswer(c: Config, s: State, t: Task, links: seq<string>, other: seq<string>)
    requires Books(c, s) && AnsweredTasks(s.answers) == s.fetched
    requires AnsweredPage(s, t, links) && AnsweredPage(s, t, other)
    ensures links == other && t in s.fetched
  {
    var i := AnswerFetched(s, t, links);
    var j := AnswerFetched(s, t, other);
    FetchedOnce(c, s);
    assert i == j;
  }

  lemma FetchedOnce(c: Config, s: State)
    requires Books(c, s)
    ensures DistinctKeys(c, s.fetched)
  {
    forall t: Task ensures multiset(s.fetched)[t] <= multiset(s.sent)[t] {
      assert Copies(s, t) <= multiset(s.sent)[t];
    }
    assert multiset(s.fetched) <= multiset(s.sent);
    SubDistinct(c, s.fetched, s.sent);
  }

  lemma SeedIsVisited(c: Config, s: State, k: Key)
    requires SeedsAreRoots(c, s) && s.Started() && SeedKey(c, k)
    ensures k in s.visited && s.visited[k] == 0
  {
    var u :| IsSeed(c, u) && c.site.norm(u) == k;
  }

  lemma LinkIsVisited(c: Config, s: State, from: Key, to: Key)
    requires Complete(c, s) && ResultLink(c, s, from, to) && from in s.visited
    requires s.visited[from] < c.limits.maxDepth
    ensures to in s.visited && s.visited[to] <= s.visited[from] + 1
  {
    var t, links :| t in s.delivered && AnsweredPage(s, t, links) && c.site.norm(t.url) == from
                    && LinksTo(c, Expansion(t, links), to);
    DeliveredRecorded(c, s, t, links);
    var e := ResultExpanded(c, s, t, links);
  }

  /** A page within the depth limit is visited, no deeper than the path is long. */
  lemma {:induction false} PathIsVisited(c: Config, s: State, ks: seq<Key>)
    requires Complete(c, s) && ResultPath(c, s, ks) && |ks| <= c.limits.maxDepth + 1
    ensures ks[|ks| - 1] in s.visited && s.visited[ks[|ks| - 1]] <= |ks| - 1
    decreases |ks|
  {
    if |ks| == 1 {
      SeedIsVisited(c, s, ks[0]);
    } else {
      PathIsVisited(c, s, ks[..|ks| - 1]);
      LinkIsVisited(c, s, ks[|ks| - 2], ks[|ks| - 1]);
    }
  }

  lemma DeliveredRecorded(c: Config, s: State, t: Task, links: seq<string>)
    requires Books(c, s) && AnsweredTasks(s.answers) == s.fetched && AnsweredPage(s, t, links)
    ensures Recorded(c, s, t)
  {
    var i := AnswerFetched(s, t, links);
    FetchedWasSent(s);
    assert t in s.fetched;
  }

  lemma {:induction false} PathIsResultPath(c: Config, s: State, ks: seq<Key>)
    requires Faithful(c, s) && Path(c, s, ks)
    ensures ResultPath(c, s, ks)
    decreases |ks|
  {
    if |ks| > 1 {
      PathIsResultPath(c, s, ks[..|ks| - 1]);
      var to := ks[|ks| - 1];
      var e :| e in s.expanded && c.site.norm(e.task.url) == ks[|ks| - 2] && LinksTo(c, e, to);
      TaskExpanded(s.expanded, e.task);
      ShallowAre(c, s.delivered, e.task);
      assert AnsweredPage(s, e.task, e.links) && e == Expansion(e.task, e.links);
    }
  }

  lemma SentIsShallow(c: Config, s: State, t: Task)
    requires Provenance(c, s) && t in s.sent
    ensures t.depth <= c.limits.maxDepth
  {
    assert Justified(c, s.expanded, t);
  }

  lemma CompleteCovers(c: Config, s: State, k: Key)
    requires Complete(c, s)
    ensures IsSent(c, s, k) <==> exists ks :: Within(c, s, ks, k, c.limits.maxDepth)
  {
    if IsSent(c, s, k) {
      var t :| t in s.sent && c.site.norm(t.url) == k;
      assert Recorded(c, s, t);
      SentIsShallow(c, s, t);
      var ks := PathOfDepth(c, s, k);
      PathIsResultPath(c, s, ks);
      assert Within(c, s, ks, k, c.limits.maxDepth);
    }
    if exists ks :: Within(c, s, ks, k, c.limits.maxDepth) {
      var ks :| Within(c, s, ks, k, c.limits.maxDepth);
      PathIsVisited(c, s, ks);
    }
  }

  lemma ProgressFollows(c: Config, s: State)
    requires |s.workers| == 1 && Progress(c, s) && AllExited(s) && s.processed < c.limits.maxPages
    ensures Followed(c, s)
  {
    assert s.workers[0] in s.workers;
  }

  lemma NothingToFollow(c: Config, s: State)
    requires Faithful(c, s) && Counted(c, s) && s.processed == 0
    ensures Followed(c, s)
  {
    assert |s.delivered| == 0;
    assert Shallow(c, s.delivered) == [];
    assert |ExpandedTasks(s.expanded)| == 0;
  }

  /** When the link loops of one worker, or of no worker, are over, all links were followed. */
  lemma FinishedFollows(c: Config, acts: seq<Action>, s: State)
    requires c.limits.Positive() && SafeLimits(c.limits) && Reaches(c, acts, s) && Finished(s)
    requires s.processed < c.limits.maxPages && Faithful(c, s) && Counted(c, s)
    ensures Followed(c, s)
  {
    if c.limits.workers == 1 {
      OrderlyInit(c);
      OrderlyRun(c, Init(c), acts);
      ProgressFollows(c, s);
    } else {
      NothingToFollow(c, s);
    }
  }

  lemma {:induction false} RootsRun(c: Config, s: State, acts: seq<Action>)
    requires Books(c, s) && Roots(c, s) && c.limits.Positive() && RunFrom(c, s, acts).Some?
    ensures Roots(c, RunFrom(c, s, acts).value)
    decreases |acts|
  {
    if acts != [] {
      BooksStep(c, s, acts[0]);
      RootsStep(c, s, acts[0]);
      RootsRun(c, Next(c, s, acts[0]), acts[1..]);
    }
  }

  lemma FinishedIsComplete(c: Config, acts: seq<Action>, s: State)
    requires c.limits.Positive() && SafeLimits(c.limits) && Reaches(c, acts, s) && Finished(s)
    requires s.processed < c.limits.maxPages && NeverDrops(c, Init(c), acts)
    ensures Complete(c, s)
  {
    BooksInit(c);
    BooksRun(c, Init(c), acts);
    RootsRun(c, Init(c), acts);
    FaithfulRun(c, Init(c), acts);
    NothingLostRun(c, Init(c), acts);
    FinishedFollows(c, acts, s);
    forall k | k in s.visited ensures IsSent(c, s, k) {
      assert !IsClaimed(c, s, k);
    }
  }

  /** With one worker, or one page: a finished run below the page limit that dropped no offer has sent exactly the pages
      whose keys lie within MaxDepth links of the admitted seeds, along the links of its results, and has fetched all of
      them. */
  lemma CoversDepth(c: Config, acts: seq<Action>, s: State)
    requires c.limits.Positive() && SafeLimits(c.limits) && Reaches(c, acts, s) && Finished(s)
    requires s.processed < c.limits.maxPages && NeverDrops(c, Init(c), acts)
    ensures forall k :: IsSent(c, s, k) <==> exists ks :: Within(c, s, ks, k, c.limits.maxDepth)
    ensures forall t | t in s.sent :: t in s.fetched
  {
    FinishedIsComplete(c, acts, s);
    forall k ensures IsSent(c, s, k) <==> exists ks :: Within(c, s, ks, k, c.limits.maxDepth) {
      CompleteCovers(c, s, k);
    }
    UncancelledRunsReturn(c, acts, s);
    KeptInit(c);
    KeptRun(c, Init(c), acts);
    AllAreFetched(c, s);
  }
}
