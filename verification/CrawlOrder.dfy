/**
  Breadth-first order. The distance of a key is measured in the graph whose edges leave only the pages that were really
  expanded. With one worker the depth given to every visited key is that distance, although full-channel drops and the
  page cap cut pages off.
*/
module CrawlOrder {
  import opened Basics
  import opened CrawlModel
  import opened CrawlLedger
  import opened CrawlVisits

  ghost predicate SeedKey(c: Config, k: Key) {
    exists u :: IsSeed(c, u) && c.site.norm(u) == k
  }

  /** The page links to some admitted URL with this key. */
  ghost predicate LinksTo(c: Config, e: Expansion, k: Key) {
    exists u :: Leads(c, e.links, u) && c.site.norm(u) == k
  }

  ghost predicate Edge(c: Config, s: State, from: Key, to: Key) {
    exists e | e in s.expanded :: c.site.norm(e.task.url) == from && LinksTo(c, e, to)
  }

  ghost predicate Path(c: Config, s: State, ks: seq<Key>)
    decreases |ks|
  {
    if ks == [] then false
    else if |ks| == 1 then SeedKey(c, ks[0])
    else Path(c, s, ks[..|ks| - 1]) && Edge(c, s, ks[|ks| - 2], ks[|ks| - 1])
  }

  ghost predicate PathTo(c: Config, s: State, ks: seq<Key>, k: Key) {
    Path(c, s, ks) && ks[|ks| - 1] == k
  }

  /** `d` is the length of a shortest path to `k`. */
  ghost predicate Distance(c: Config, s: State, k: Key, d: nat) {
    && (exists ks :: PathTo(c, s, ks, k) && |ks| == d + 1)
    && (forall ks :: PathTo(c, s, ks, k) ==> |ks| >= d + 1)
  }

  ghost predicate DepthsAreDistances(c: Config, s: State) {
    forall k | k in s.visited :: Distance(c, s, k, s.visited[k])
  }

  // Upper bound: any number of workers

  ghost predicate Grounded(c: Config, s: State, k: Key)
    requires k in s.visited
  {
    || (s.visited[k] == 0 && SeedKey(c, k))
    || exists e | e in s.expanded :: e.task.depth + 1 == s.visited[k] && LinksTo(c, e, k)
  }

  /** Every visited key is a seed or linked from a page one level up; all seeds are claimed at depth 0. */
  ghost predicate Roots(c: Config, s: State) {
    && (forall k | k in s.visited :: Grounded(c, s, k))
    && SeedsAreRoots(c, s)
    && (s.main.Seeding? ==> forall k | k in s.visited :: s.visited[k] == 0)
  }

  ghost predicate SeedsAreRoots(c: Config, s: State) {
    forall u | IsSeed(c, u) && !(s.main.Seeding? && u in s.main.rest) ::
      c.site.norm(u) in s.visited && s.visited[c.site.norm(u)] == 0
  }

  /** A step that claims nothing can only add to the pages that ground a key. */
  lemma RootsStay(c: Config, s: State, s': State)
    requires Roots(c, s) && s'.visited == s.visited && s.expanded <= s'.expanded
    requires s'.main == s.main || (!s'.main.Seeding? && (s.main.Seeding? ==> s.main.rest == []))
    ensures Roots(c, s')
  {
    forall k | k in s'.visited ensures Grounded(c, s', k) {
      assert Grounded(c, s, k);
      GroundedMonotone(c, s, s', k);
    }
  }

  lemma RootsClaim(c: Config, s: State, s': State, p: Worker)
    requires Roots(c, s) && p.Checked? && OnPage(c, s.expanded, p) && c.site.norm(p.url) !in s.visited
    requires s'.visited == s.visited[c.site.norm(p.url) := p.task.depth + 1]
    requires s'.expanded == s.expanded && s'.main == s.main && !s.main.Seeding?
    ensures Roots(c, s')
  {
    forall k | k in s'.visited ensures Grounded(c, s', k) {
      if k in s.visited {
        assert Grounded(c, s, k);
        GroundedMonotone(c, s, s', k);
      } else {
        ClaimedIsGrounded(c, s, p, k);
        GroundedMonotone(c, s.(visited := s'.visited), s', k);
      }
    }
    SeedsStayRoots(c, s, s');
  }

  lemma RootsWork(c: Config, s: State, w: nat, step: Step)
    requires Books(c, s) && Roots(c, s) && Enabled(c, s, Work(w, step)) && Panic(s, step).None?
    ensures Roots(c, Next(c, s, Work(w, step)))
  {
    var p, s' := s.workers[w], Next(c, s, Work(w, step));
    HistoriesGrow(c, s, p, step);
    VisitedGrows(c, s, p, step);
    if s'.visited == s.visited {
      RootsStay(c, s, s');
    } else {
      assert p in s.workers;
      RootsClaim(c, s, s', p);
    }
  }

  lemma SeedsStayRoots(c: Config, s: State, s': State)
    requires SeedsAreRoots(c, s) && s'.main == s.main
    requires forall k | k in s.visited :: k in s'.visited && s'.visited[k] == s.visited[k]
    ensures SeedsAreRoots(c, s')
  {
  }

  /** A claim is grounded in the page whose link it comes from. */
  lemma ClaimedIsGrounded(c: Config, s: State, p: Worker, k: Key)
    requires p.Checked? && OnPage(c, s.expanded, p) && c.site.norm(p.url) == k
    ensures Grounded(c, s.(visited := s.visited[k := p.task.depth + 1]), k)
  {
    var e :| e in s.expanded && Covers(c, e, p);
    assert LinksTo(c, e, k);
  }

  lemma VisitedGrows(c: Config, s: State, p: Worker, step: Step)
    requires Ready(c, s, p, step) && Panic(s, step).None?
    ensures var s' := Effect(c, s, p, step);
      && s'.main == s.main && s'.processed >= s.processed && (step.Claim? ==> s'.expanded == s.expanded)
      && (s'.visited == s.visited ||
          (step.Claim? && c.site.norm(p.url) !in s.visited &&
           s'.visited == s.visited[c.site.norm(p.url) := p.task.depth + 1]))
  {
  }

  lemma GroundedMonotone(c: Config, s: State, s': State, k: Key)
    requires k in s.visited && Grounded(c, s, k) && s.expanded <= s'.expanded
    requires k in s'.visited && s'.visited[k] == s.visited[k]
    ensures Grounded(c, s', k)
  {
    if !(s.visited[k] == 0 && SeedKey(c, k)) {
      var e :| e in s.expanded && e.task.depth + 1 == s.visited[k] && LinksTo(c, e, k);
      assert e in s'.expanded;
    }
  }

  lemma RootsSeed(c: Config, s: State, offer: Offer)
    requires Books(c, s) && Roots(c, s) && c.limits.Positive() && Enabled(c, s, Seed(offer))
    ensures Roots(c, SeedNext(c, s, offer))
  {
    var s', url := SeedNext(c, s, offer), s.main.rest[0];
    assert url in s.main.rest;
    forall k | k in s'.visited ensures Grounded(c, s', k) {
      if k in s.visited {
        assert Grounded(c, s, k);
        GroundedMonotone(c, s, s', k);
      } else {
        assert IsSeed(c, url) && c.site.norm(url) == k;
      }
    }
  }

  lemma RootsStep(c: Config, s: State, a: Action)
    requires Books(c, s) && Roots(c, s) && c.limits.Positive() && Enabled(c, s, a)
    ensures Roots(c, Next(c, s, a))
  {
    match a
    case Work(w, step) =>
      if Panic(s, step).None? {
        RootsWork(c, s, w, step);
      }
    case Seed(offer) => RootsSeed(c, s, offer);
    case _ => RootsStay(c, s, Next(c, s, a));
  }

  /** A visited key that is not a seed has an edge from a key one level up. */
  lemma StepUp(c: Config, s: State, k: Key) returns (from: Key)
    requires Books(c, s) && Roots(c, s) && k in s.visited && !(s.visited[k] == 0 && SeedKey(c, k))
    ensures from in s.visited && s.visited[from] + 1 == s.visited[k] && Edge(c, s, from, k)
  {
    assert Grounded(c, s, k);
    var e :| e in s.expanded && e.task.depth + 1 == s.visited[k] && LinksTo(c, e, k);
    assert Recorded(c, s, e.task);
    from := c.site.norm(e.task.url);
  }

  lemma PathExtend(c: Config, s: State, prefix: seq<Key>, from: Key, k: Key)
    requires PathTo(c, s, prefix, from) && Edge(c, s, from, k)
    ensures PathTo(c, s, prefix + [k], k)
  {
    var ks := prefix + [k];
    assert ks[..|ks| - 1] == prefix;
  }

  /** A path as long as the depth leads to every visited key. */
  lemma {:induction false} PathOfDepth(c: Config, s: State, k: Key) returns (ks: seq<Key>)
    requires Books(c, s) && Roots(c, s) && k in s.visited
    ensures PathTo(c, s, ks, k) && |ks| == s.visited[k] + 1
    decreases s.visited[k]
  {
    if s.visited[k] == 0 && SeedKey(c, k) {
      ks := [k];
    } else {
      var from := StepUp(c, s, k);
      var prefix := PathOfDepth(c, s, from);
      PathExtend(c, s, prefix, from, k);
      ks := prefix + [k];
    }
  }

  // Lower bound

  /** No visited key is deeper than a link from an expanded page allows. */
  ghost predicate Relaxed(c: Config, s: State) {
    forall e, k | e in s.expanded && LinksTo(c, e, k) && k in s.visited :: s.visited[k] <= e.task.depth + 1
  }

  lemma {:induction false} PathsAreLong(c: Config, s: State, ks: seq<Key>)
    requires Books(c, s) && Roots(c, s) && Relaxed(c, s)
    requires Path(c, s, ks) && ks[|ks| - 1] in s.visited
    ensures s.visited[ks[|ks| - 1]] <= |ks| - 1
    decreases |ks|
  {
    var k := ks[|ks| - 1];
    if |ks| == 1 {
      var u :| IsSeed(c, u) && c.site.norm(u) == k;
    } else {
      var prefix, from := ks[..|ks| - 1], ks[|ks| - 2];
      var e :| e in s.expanded && c.site.norm(e.task.url) == from && LinksTo(c, e, k);
      assert Recorded(c, s, e.task);
      PathsAreLong(c, s, prefix);
    }
  }

  lemma RelaxedGivesDistances(c: Config, s: State)
    requires Books(c, s) && Roots(c, s) && Relaxed(c, s)
    ensures DepthsAreDistances(c, s)
  {
    forall k | k in s.visited ensures Distance(c, s, k, s.visited[k]) {
      var shortest := PathOfDepth(c, s, k);
      forall ks | PathTo(c, s, ks, k) ensures |ks| >= s.visited[k] + 1 {
        PathsAreLong(c, s, ks);
      }
    }
  }

  // One worker

  /** The task whose level the queue is at: the one being worked on, or else the next one. */
  function Front(s: State): Option<Task>
    requires |s.workers| == 1
  {
    if s.workers[0].Holds() then Some(s.workers[0].task)
    else if s.tasks != [] then Some(s.tasks[0])
    else None
  }

  function HeldSeq(p: Worker): seq<Task> {
    if p.Holds() then [p.task] else []
  }

  ghost predicate ByDepth(ts: seq<Task>) {
    forall i, j | 0 <= i <= j < |ts| :: ts[i].depth <= ts[j].depth
  }

  /** First in, first out, level by level. */
  ghost predicate Levels(c: Config, s: State) {
    && |s.workers| == 1
    && s.sent == s.done + HeldSeq(s.workers[0]) + s.tasks
    && ByDepth(s.sent)
    && (Front(s).Some? ==> forall k | k in s.visited :: s.visited[k] <= Front(s).value.depth + 1)
    && (s.workers[0].Checked? ==> s.processed < c.limits.maxPages)
    && (s.main.Seeding? ==> s.workers[0].Idle? && forall k | k in s.visited :: s.visited[k] == 0)
  }

  lemma LevelsTake(c: Config, s: State)
    requires Levels(c, s) && Enabled(c, s, Work(0, Take))
    ensures Levels(c, Next(c, s, Work(0, Take)))
  {
    var s' := Next(c, s, Work(0, Take));
    assert s.tasks == [s.tasks[0]] + s'.tasks;
    assert s'.sent == s'.done + HeldSeq(s'.workers[0]) + s'.tasks;
  }

  lemma LevelsFinish(c: Config, s: State)
    requires Levels(c, s) && Enabled(c, s, Work(0, Finish)) && s.wg > 0
    ensures Levels(c, Next(c, s, Work(0, Finish)))
  {
    var s' := Next(c, s, Work(0, Finish));
    assert s'.sent == s'.done + HeldSeq(s'.workers[0]) + s'.tasks;
    if s.tasks != [] {
      var d := |s.done|;
      assert s.sent[d] == s.workers[0].task && s.sent[d + 1] == s.tasks[0];
    }
  }

  lemma LevelsSend(c: Config, s: State)
    requires Claims(c, s) && Levels(c, s) && Enabled(c, s, Work(0, MakeOffer(Send))) && !s.TasksAreClosed()
    ensures Levels(c, Next(c, s, Work(0, MakeOffer(Send))))
  {
    var p, s' := s.workers[0], Next(c, s, Work(0, MakeOffer(Send)));
    var child := Task(p.url, p.task.depth + 1);
    assert s'.sent == s.sent + [child];
    assert s'.sent == s'.done + HeldSeq(s'.workers[0]) + s'.tasks;
    forall i | 0 <= i < |s.sent| ensures s.sent[i].depth <= child.depth {
      assert s.sent[i] in s.sent && Recorded(c, s, s.sent[i]);
    }
  }

  lemma LevelsOther(c: Config, s: State, step: Step)
    requires Levels(c, s) && Enabled(c, s, Work(0, step)) && Panic(s, step).None?
    requires !step.Take? && !step.Finish? && step != MakeOffer(Send)
    ensures Levels(c, Next(c, s, Work(0, step)))
  {
    var p, s' := s.workers[0], Next(c, s, Work(0, step));
    TurnHolds(c, s, p, step);
    EffectOnLedger(c, s, p, step);
    VisitedGrows(c, s, p, step);
    CheckedUnderCap(c, s, p, step);
    assert s'.workers == [Turn(c, s, p, step)];
  }

  lemma CheckedUnderCap(c: Config, s: State, p: Worker, step: Step)
    requires Ready(c, s, p, step) && Panic(s, step).None?
    ensures Turn(c, s, p, step).Checked? ==> Effect(c, s, p, step).processed < c.limits.maxPages
  {
  }

  lemma LevelsSeed(c: Config, s: State, offer: Offer)
    requires Levels(c, s) && Claims(c, s) && Enabled(c, s, Seed(offer))
    ensures Levels(c, SeedNext(c, s, offer))
  {
    var s' := SeedNext(c, s, offer);
    forall i | 0 <= i < |s.sent| ensures s.sent[i].depth == 0 {
      assert s.sent[i] in s.sent && Recorded(c, s, s.sent[i]);
    }
    assert s'.sent == s'.done + HeldSeq(s'.workers[0]) + s'.tasks;
    assert forall k | k in s'.visited :: s'.visited[k] == 0;
  }

  lemma LevelsStep(c: Config, s: State, a: Action)
    requires Books(c, s) && Levels(c, s) && Enabled(c, s, a)
    ensures Levels(c, Next(c, s, a))
  {
    match a
    case Work(w, step) =>
      if Panic(s, step).None? {
        LevelsWork(c, s, step);
      }
    case Seed(offer) => LevelsSeed(c, s, offer);
    case _ =>
  }

  lemma LevelsWork(c: Config, s: State, step: Step)
    requires Claims(c, s) && Levels(c, s) && Enabled(c, s, Work(0, step)) && Panic(s, step).None?
    ensures Levels(c, Next(c, s, Work(0, step)))
  {
    if step.Take? {
      LevelsTake(c, s);
    } else if step.Finish? {
      LevelsFinish(c, s);
    } else if step == MakeOffer(Send) {
      LevelsSend(c, s);
    } else {
      LevelsOther(c, s, step);
    }
  }

  /** A key the page links to is still ahead of the worker that is offering the page's links. */
  ghost predicate Ahead(c: Config, e: Expansion, k: Key, p: Worker) {
    && p.InLinks() && p.task == e.task
    && (LinksTo(c, Expansion(p.task, p.links), k) || (p.Checked? && c.site.norm(p.url) == k))
  }

  /** What the link loops have done so far: a linked key is visited, at most one level down, or it is still ahead, or
      the page cap turned it away. */
  ghost predicate Progress(c: Config, s: State)
    requires |s.workers| == 1
  {
    forall e, k | e in s.expanded && LinksTo(c, e, k) ::
      if k in s.visited then s.visited[k] <= e.task.depth + 1
      else s.processed >= c.limits.maxPages || Ahead(c, e, k, s.workers[0])
  }

  lemma ProgressDeliver(c: Config, s: State)
    requires Levels(c, s) && Progress(c, s) && Enabled(c, s, Work(0, Deliver)) && Panic(s, Deliver).None?
    ensures Progress(c, Next(c, s, Work(0, Deliver)))
  {
    var p, s' := s.workers[0], Next(c, s, Work(0, Deliver));
    forall e, k | e in s'.expanded && LinksTo(c, e, k)
      ensures if k in s'.visited then s'.visited[k] <= e.task.depth + 1
              else s'.processed >= c.limits.maxPages || Ahead(c, e, k, s'.workers[0])
    {
      if e !in s.expanded {
        assert e == Expansion(p.task, p.links);
        var u :| Leads(c, e.links, u) && c.site.norm(u) == k;
        var h :| h in p.links && c.site.resolve(h) == Some(u);
      }
    }
  }

  lemma ProgressNextLink(c: Config, s: State)
    requires Levels(c, s) && Progress(c, s) && Enabled(c, s, Work(0, NextLink))
    ensures Progress(c, Next(c, s, Work(0, NextLink)))
  {
    var p, s' := s.workers[0], Next(c, s, Work(0, NextLink));
    forall e, k | e in s.expanded && LinksTo(c, e, k) && Ahead(c, e, k, p)
      ensures s.processed >= c.limits.maxPages || Ahead(c, e, k, s'.workers[0])
    {
      var u :| Leads(c, p.links, u) && c.site.norm(u) == k;
      var h :| h in p.links && c.site.resolve(h) == Some(u);
      if h in p.links[1..] {
        assert Leads(c, p.links[1..], u);
        assert LinksTo(c, Expansion(p.task, p.links[1..]), k);
      }
    }
  }

  lemma ProgressClaim(c: Config, s: State)
    requires Levels(c, s) && Progress(c, s) && Roots(c, s) && Enabled(c, s, Work(0, Claim))
    ensures Progress(c, Next(c, s, Work(0, Claim)))
  {
  }

  lemma ProgressOther(c: Config, s: State, step: Step)
    requires Levels(c, s) && Progress(c, s) && Enabled(c, s, Work(0, step)) && Panic(s, step).None?
    requires !step.Deliver? && !step.NextLink? && !step.Claim?
    ensures Progress(c, Next(c, s, Work(0, step)))
  {
    var p, s' := s.workers[0], Next(c, s, Work(0, step));
    assert s'.workers == [Turn(c, s, p, step)];
    AheadStays(c, s, p, step);
  }

  lemma AheadStays(c: Config, s: State, p: Worker, step: Step)
    requires Ready(c, s, p, step) && Panic(s, step).None?
    requires !step.Deliver? && !step.NextLink? && !step.Claim?
    ensures var s', p' := Effect(c, s, p, step), Turn(c, s, p, step);
      && s'.expanded == s.expanded && s'.visited == s.visited && s'.processed >= s.processed
      && (p.InLinks() ==> p'.InLinks() && p'.task == p.task && p'.links == p.links && !p.Checked?)
  {
  }

  lemma ProgressStep(c: Config, s: State, a: Action)
    requires Books(c, s) && Roots(c, s) && Levels(c, s) && Progress(c, s) && Enabled(c, s, a)
    ensures |Next(c, s, a).workers| == 1 && Progress(c, Next(c, s, a))
  {
    match a
    case Work(w, step) =>
      if Panic(s, step).None? {
        ProgressWork(c, s, step);
      }
    case Seed(_) =>
    case _ =>
  }

  lemma ProgressWork(c: Config, s: State, step: Step)
    requires Roots(c, s) && Levels(c, s) && Progress(c, s)
    requires Enabled(c, s, Work(0, step)) && Panic(s, step).None?
    ensures var s' := Next(c, s, Work(0, step)); |s'.workers| == 1 && Progress(c, s')
  {
    EffectOnLedger(c, s, s.workers[0], step);
    if step.Deliver? {
      ProgressDeliver(c, s);
    } else if step.NextLink? {
      ProgressNextLink(c, s);
    } else if step.Claim? {
      ProgressClaim(c, s);
    } else {
      ProgressOther(c, s, step);
    }
  }

  ghost predicate Orderly(c: Config, s: State) {
    c.limits.Positive() && Books(c, s) && Roots(c, s) && Levels(c, s) && Progress(c, s)
  }

  lemma {:induction false} OrderlyRun(c: Config, s: State, acts: seq<Action>)
    requires Orderly(c, s) && RunFrom(c, s, acts).Some?
    ensures Orderly(c, RunFrom(c, s, acts).value)
    decreases |acts|
  {
    if acts != [] {
      BooksStep(c, s, acts[0]);
      RootsStep(c, s, acts[0]);
      LevelsStep(c, s, acts[0]);
      ProgressStep(c, s, acts[0]);
      OrderlyRun(c, Next(c, s, acts[0]), acts[1..]);
    }
  }

  lemma OrderlyInit(c: Config)
    requires c.limits.Positive() && c.limits.workers == 1
    ensures Orderly(c, Init(c))
  {
    BooksInit(c);
  }

  /** One worker, every site and every run: tasks are sent, queued and finished in order of depth, at most two levels
      are in the queue at a time, and every visited key has its distance as its depth. */
  lemma BreadthFirst(c: Config, acts: seq<Action>, s: State)
    requires c.limits.Positive() && c.limits.workers == 1 && Reaches(c, acts, s)
    ensures |s.workers| == 1 && s.sent == s.done + HeldSeq(s.workers[0]) + s.tasks && ByDepth(s.sent)
    ensures ByDepth(s.tasks) && forall x, y | x in s.tasks && y in s.tasks :: x.depth <= y.depth + 1
    ensures DepthsAreDistances(c, s)
  {
    OrderlyInit(c);
    OrderlyRun(c, Init(c), acts);
    RelaxedGivesDistances(c, s);
    QueueSpread(c, s);
  }

  /** The queue is the end of what was sent, after the task being worked on. */
  lemma QueuePlace(s: State, j: nat)
    requires |s.workers| == 1 && s.sent == s.done + HeldSeq(s.workers[0]) + s.tasks && j < |s.tasks|
    ensures s.sent[|s.sent| - |s.tasks| + j] == s.tasks[j]
    ensures s.workers[0].Holds() ==> |s.sent| > |s.tasks| && s.sent[|s.sent| - |s.tasks| - 1] == s.workers[0].task
  {
  }

  lemma QueueSpread(c: Config, s: State)
    requires Claims(c, s) && Levels(c, s)
    ensures ByDepth(s.tasks) && forall x, y | x in s.tasks && y in s.tasks :: x.depth <= y.depth + 1
  {
    forall i, j | 0 <= i <= j < |s.tasks| ensures s.tasks[i].depth <= s.tasks[j].depth {
      QueuePlace(s, i);
      QueuePlace(s, j);
    }
    forall x, y | x in s.tasks && y in s.tasks ensures x.depth <= y.depth + 1 {
      OneLevel(c, s, x, y);
    }
  }

  lemma OneLevel(c: Config, s: State, x: Task, y: Task)
    requires Claims(c, s) && Levels(c, s) && x in s.tasks && y in s.tasks
    ensures x.depth <= y.depth + 1
  {
    var i, j :| 0 <= i < |s.tasks| && s.tasks[i] == x && 0 <= j < |s.tasks| && s.tasks[j] == y;
    QueuePlace(s, 0);
    QueuePlace(s, i);
    QueuePlace(s, j);
    assert x in s.sent && Recorded(c, s, x);
    assert y.depth >= Front(s).value.depth;
  }
}
