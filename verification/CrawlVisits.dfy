/**
  What is fetched and why: every task ever sent has its own normalised URL, respects the depth limit, and is linked
  from a page that was really expanded, so a chain of exactly `depth` links leads to it from a seed. The results that
  are sent are counted by `processed` up to the page limit and all of them are returned.
*/
module CrawlVisits {
  import opened Basics
  import opened CrawlModel
  import opened CrawlLedger

  /** The filters admit `url` and one of the links resolves to it. */
  ghost predicate Leads(c: Config, links: seq<string>, url: Url) {
    c.site.admits(url) && exists h | h in links :: c.site.resolve(h) == Some(url)
  }

  ghost predicate IsSeed(c: Config, url: Url) {
    url in c.site.seeds && c.site.admits(url)
  }

  ghost predicate Parent(c: Config, e: Expansion, t: Task) {
    e.task.depth + 1 == t.depth && Leads(c, e.links, t.url)
  }

  ghost predicate Justified(c: Config, expanded: seq<Expansion>, t: Task) {
    (t.depth == 0 && IsSeed(c, t.url)) || exists e | e in expanded :: Parent(c, e, t)
  }

  /** The links that worker `p` still has to offer are links of the page `e`. */
  ghost predicate Covers(c: Config, e: Expansion, p: Worker)
    requires p.InLinks()
  {
    e.task == p.task && (forall h | h in p.links :: h in e.links) &&
    (p.Checked? || p.Claimed? ==> Leads(c, e.links, p.url))
  }

  ghost predicate OnPage(c: Config, expanded: seq<Expansion>, p: Worker) {
    p.InLinks() ==> exists e | e in expanded :: Covers(c, e, p)
  }

  ghost predicate Provenance(c: Config, s: State) {
    && (s.main.Seeding? ==> forall u | u in s.main.rest :: u in c.site.seeds)
    && (forall t | t in s.sent :: Justified(c, s.expanded, t))
    && (forall p | p in s.workers :: OnPage(c, s.expanded, p))
    && (forall e | e in s.expanded :: e.task in s.sent && e.task.depth < c.limits.maxDepth)
  }

  lemma ProvenanceWork(c: Config, s: State, w: nat, step: Step)
    requires Ledger(c, s) && Provenance(c, s) && Enabled(c, s, Work(w, step)) && Panic(s, step).None?
    ensures Provenance(c, Next(c, s, Work(w, step)))
  {
    var p, s' := s.workers[w], Next(c, s, Work(w, step));
    assert p in s.workers;
    var p' := Turn(c, s, p, step);
    EffectOnLedger(c, s, p, step);
    if p.Holds() {
      HeldIsSent(s, w);
    }
    assert s.expanded <= s'.expanded && s.sent <= s'.sent by { HistoriesGrow(c, s, p, step); }
    TurnOnPage(c, s, p, step);
    assert s'.workers == s.workers[w := p'];
    forall q | q in s'.workers ensures OnPage(c, s'.expanded, q) {
      if q != p' {
        assert q in s.workers;
        OnPageMonotone(c, s.expanded, s'.expanded, q);
      }
    }
    forall t | t in s'.sent ensures Justified(c, s'.expanded, t) {
      if t in s.sent {
        JustifiedMonotone(c, s.expanded, s'.expanded, t);
      } else {
        SentIsJustified(c, s, p, step, t);
      }
    }
    forall e | e in s'.expanded ensures e.task in s'.sent && e.task.depth < c.limits.maxDepth {
      if e !in s.expanded {
        assert step.Deliver? && e.task == p.task;
      }
    }
  }

  lemma HeldIsSent(s: State, w: nat)
    requires Conserved(s) && w < |s.workers| && s.workers[w].Holds()
    ensures s.workers[w].task in s.sent
  {
    MoveLedger(s, w, Idle);
    assert s.workers[w].task in Held(s.workers[w]);
    assert s.workers[w].task in multiset(s.sent);
  }

  lemma HistoriesGrow(c: Config, s: State, p: Worker, step: Step)
    requires Ready(c, s, p, step) && Panic(s, step).None?
    ensures s.expanded <= Effect(c, s, p, step).expanded
    ensures s.sent <= Effect(c, s, p, step).sent
    ensures forall e | e in Effect(c, s, p, step).expanded && e !in s.expanded ::
              step.Deliver? && p.task.depth < c.limits.maxDepth && e == Expansion(p.task, p.links)
    ensures forall t | t in Effect(c, s, p, step).sent && t !in s.sent ::
              step == MakeOffer(Send) && t == Task(p.url, p.task.depth + 1)
  {
  }

  lemma TurnOnPage(c: Config, s: State, p: Worker, step: Step)
    requires Ready(c, s, p, step) && Panic(s, step).None? && OnPage(c, s.expanded, p)
    ensures OnPage(c, Effect(c, s, p, step).expanded, Turn(c, s, p, step))
  {
    var s', p' := Effect(c, s, p, step), Turn(c, s, p, step);
    if p'.InLinks() {
      if step.Deliver? {
        var e := Expansion(p.task, p.links);
        assert e in s'.expanded && Covers(c, e, p');
      } else {
        var e :| e in s.expanded && Covers(c, e, p);
        assert Covers(c, e, p');
      }
    }
  }

  lemma OnPageMonotone(c: Config, before: seq<Expansion>, after: seq<Expansion>, p: Worker)
    requires OnPage(c, before, p) && before <= after
    ensures OnPage(c, after, p)
  {
    if p.InLinks() {
      var e :| e in before && Covers(c, e, p);
      assert e in after;
    }
  }

  lemma JustifiedMonotone(c: Config, before: seq<Expansion>, after: seq<Expansion>, t: Task)
    requires Justified(c, before, t) && before <= after
    ensures Justified(c, after, t)
  {
    if !(t.depth == 0 && IsSeed(c, t.url)) {
      var e :| e in before && Parent(c, e, t);
      assert e in after;
    }
  }

  lemma SentIsJustified(c: Config, s: State, p: Worker, step: Step, t: Task)
    requires Ready(c, s, p, step) && Panic(s, step).None? && OnPage(c, s.expanded, p)
    requires t in Effect(c, s, p, step).sent && t !in s.sent
    ensures Justified(c, Effect(c, s, p, step).expanded, t)
  {
    HistoriesGrow(c, s, p, step);
    var e :| e in s.expanded && Covers(c, e, p);
    assert Parent(c, e, t);
  }

  lemma ProvenanceStep(c: Config, s: State, a: Action)
    requires Ledger(c, s) && Provenance(c, s) && Enabled(c, s, a)
    ensures Provenance(c, Next(c, s, a))
  {
    match a
    case Work(w, step) =>
      if Panic(s, step).None? {
        ProvenanceWork(c, s, w, step);
      }
    case Seed(_) => assert s.main.rest[0] in s.main.rest;
    case _ =>
  }

  // Visit once

  ghost predicate DistinctKeys(c: Config, ts: seq<Task>) {
    forall i, j | 0 <= i < j < |ts| :: c.site.norm(ts[i].url) != c.site.norm(ts[j].url)
  }

  ghost predicate Recorded(c: Config, s: State, t: Task) {
    c.site.norm(t.url) in s.visited && s.visited[c.site.norm(t.url)] == t.depth
  }

  /** A claim that has not been sent yet: its key is recorded and no task carries it. */
  ghost predicate PrivateClaim(c: Config, s: State, p: Worker)
    requires p.Claimed?
  {
    && Recorded(c, s, Task(p.url, p.task.depth + 1))
    && forall t | t in s.sent :: c.site.norm(t.url) != c.site.norm(p.url)
  }

  ghost predicate Claims(c: Config, s: State) {
    && (forall t | t in s.sent :: Recorded(c, s, t))
    && DistinctKeys(c, s.sent)
    && (forall i | 0 <= i < |s.workers| && s.workers[i].Claimed? :: PrivateClaim(c, s, s.workers[i]))
    && (forall i, j | 0 <= i < j < |s.workers| && s.workers[i].Claimed? && s.workers[j].Claimed? ::
          c.site.norm(s.workers[i].url) != c.site.norm(s.workers[j].url))
    && (s.main.Seeding? ==> forall p | p in s.workers :: p.Idle?)
  }

  lemma ClaimsClaim(c: Config, s: State, w: nat)
    requires Claims(c, s) && Enabled(c, s, Work(w, Claim))
    ensures Claims(c, Next(c, s, Work(w, Claim)))
  {
  }

  lemma ClaimsSend(c: Config, s: State, w: nat)
    requires Claims(c, s) && Enabled(c, s, Work(w, MakeOffer(Send))) && Panic(s, MakeOffer(Send)).None?
    ensures Claims(c, Next(c, s, Work(w, MakeOffer(Send))))
  {
    var p, s' := s.workers[w], Next(c, s, Work(w, MakeOffer(Send)));
    assert PrivateClaim(c, s, p);
  }

  lemma ClaimsOther(c: Config, s: State, w: nat, step: Step)
    requires Claims(c, s) && Enabled(c, s, Work(w, step)) && Panic(s, step).None?
    requires !step.Claim? && step != MakeOffer(Send)
    ensures Claims(c, Next(c, s, Work(w, step)))
  {
    var p, s' := s.workers[w], Next(c, s, Work(w, step));
    NoNewClaim(c, s, p, step);
    assert s'.workers == s.workers[w := s'.workers[w]];
    forall i | 0 <= i < |s'.workers| && s'.workers[i].Claimed? ensures PrivateClaim(c, s', s'.workers[i]) {
      assert PrivateClaim(c, s, s.workers[i]);
    }
  }

  lemma NoNewClaim(c: Config, s: State, p: Worker, step: Step)
    requires Ready(c, s, p, step) && Panic(s, step).None? && !step.Claim? && step != MakeOffer(Send)
    ensures var s' := Effect(c, s, p, step);
      && !Turn(c, s, p, step).Claimed? && s'.visited == s.visited && s'.sent == s.sent
      && s'.workers == s.workers && s'.main == s.main
  {
  }

  lemma ClaimsSeed(c: Config, s: State, offer: Offer)
    requires Claims(c, s) && Enabled(c, s, Seed(offer))
    ensures Claims(c, SeedNext(c, s, offer))
  {
    var s' := SeedNext(c, s, offer);
    if s'.sent != s.sent {
      assert s'.sent == s.sent + [Task(s.main.rest[0], 0)];
      assert forall i | 0 <= i < |s.sent| :: s.sent[i] in s.sent && Recorded(c, s, s.sent[i]);
    }
  }

  lemma ClaimsStep(c: Config, s: State, a: Action)
    requires Claims(c, s) && Enabled(c, s, a)
    ensures Claims(c, Next(c, s, a))
  {
    match a
    case Work(w, step) =>
      if Panic(s, step).None? {
        if step.Claim? {
          ClaimsClaim(c, s, w);
        } else if step == MakeOffer(Send) {
          ClaimsSend(c, s, w);
        } else {
          ClaimsOther(c, s, w, step);
        }
      }
    case Seed(offer) => ClaimsSeed(c, s, offer);
    case _ =>
  }

  // Fetch once

  /** How often `t` is in the channel, on its way to `processPage`, or past it. */
  function Copies(s: State, t: Task): nat {
    multiset(s.fetched)[t] + multiset(s.tasks)[t] + Bag(s.workers, Unfetched)[t]
  }

  ghost predicate FetchLedger(s: State) {
    forall t: Task :: Copies(s, t) <= multiset(s.sent)[t]
  }

  lemma CopiesWork(c: Config, s: State, w: nat, step: Step, t: Task)
    requires Enabled(c, s, Work(w, step)) && Panic(s, step).None?
    ensures var s' := Next(c, s, Work(w, step));
      Copies(s', t) + multiset(s.sent)[t] <= Copies(s, t) + multiset(s'.sent)[t]
  {
    var p, s' := s.workers[w], Next(c, s, Work(w, step));
    var p' := Turn(c, s, p, step);
    UnfetchedCount(s.workers, w, p', t);
    EffectOnLedger(c, s, p, step);
    CopiesTurn(c, s, p, step, t);
    assert s'.workers == s.workers[w := p'];
  }

  lemma UnfetchedCount(ws: seq<Worker>, w: nat, p: Worker, t: Task)
    requires w < |ws|
    ensures Bag(ws[w := p], Unfetched)[t] + Unfetched(ws[w])[t] == Bag(ws, Unfetched)[t] + Unfetched(p)[t]
  {
    BagUpdate(ws, Unfetched, w, p);
    assert (Bag(ws[w := p], Unfetched) + Unfetched(ws[w]))[t] == (Bag(ws, Unfetched) + Unfetched(p))[t];
  }

  lemma CopiesTurn(c: Config, s: State, p: Worker, step: Step, t: Task)
    requires Ready(c, s, p, step) && Panic(s, step).None?
    ensures var s', p' := Effect(c, s, p, step), Turn(c, s, p, step);
      multiset(s'.fetched)[t] + multiset(s'.tasks)[t] + Unfetched(p')[t] + multiset(s.sent)[t]
      <= multiset(s.fetched)[t] + multiset(s.tasks)[t] + Unfetched(p)[t] + multiset(s'.sent)[t]
  {
    var s' := Effect(c, s, p, step);
    if step.Take? {
      assert s.tasks == [s.tasks[0]] + s'.tasks;
      assert multiset(s.tasks) == multiset{s.tasks[0]} + multiset(s'.tasks);
    } else if step.Fetch? {
      assert multiset(s'.fetched) == multiset(s.fetched) + multiset{p.task};
    } else {
      UnfetchedShrinks(c, s, p, step);
      EffectOnLedger(c, s, p, step);
    }
  }

  /** Apart from a page that the cap turns away, which leaves the unfetched tasks. */
  lemma UnfetchedShrinks(c: Config, s: State, p: Worker, step: Step)
    requires Ready(c, s, p, step) && Panic(s, step).None? && !step.Take? && !step.Fetch?
    ensures Unfetched(Turn(c, s, p, step)) <= Unfetched(p)
    ensures Effect(c, s, p, step).fetched == s.fetched
  {
  }

  lemma FetchStep(c: Config, s: State, a: Action)
    requires FetchLedger(s) && Enabled(c, s, a)
    ensures FetchLedger(Next(c, s, a))
  {
    match a
    case Work(w, step) =>
      if Panic(s, step).None? {
        forall t: Task ensures Copies(Next(c, s, a), t) <= multiset(Next(c, s, a).sent)[t] {
          CopiesWork(c, s, w, step, t);
        }
      }
    case Seed(_) =>
    case _ =>
  }

  lemma {:induction false} CountTwice(ts: seq<Task>, i: nat, j: nat)
    requires i < j < |ts| && ts[i] == ts[j]
    ensures multiset(ts)[ts[i]] >= 2
  {
    assert ts == ts[..j] + [ts[j]] + ts[j + 1..];
    assert ts[i] in ts[..j];
  }

  lemma {:induction false} DistinctOnce(c: Config, ts: seq<Task>, t: Task)
    requires DistinctKeys(c, ts)
    ensures multiset(ts)[t] <= 1
  {
    if ts != [] {
      var last := |ts| - 1;
      assert ts == ts[..last] + [ts[last]];
      DistinctOnce(c, ts[..last], t);
      assert forall i | 0 <= i < last :: ts[..last][i] == ts[i];
      assert ts[last] !in ts[..last];
    }
  }

  /** A part of tasks with distinct keys has distinct keys. */
  lemma SubDistinct(c: Config, part: seq<Task>, whole: seq<Task>)
    requires multiset(part) <= multiset(whole) && DistinctKeys(c, whole)
    ensures DistinctKeys(c, part)
  {
    forall i, j | 0 <= i < j < |part| ensures c.site.norm(part[i].url) != c.site.norm(part[j].url) {
      assert part[i] in multiset(part) && part[j] in multiset(part);
      var a :| 0 <= a < |whole| && whole[a] == part[i];
      var b :| 0 <= b < |whole| && whole[b] == part[j];
      if a == b {
        CountTwice(part, i, j);
        DistinctOnce(c, whole, part[i]);
      }
    }
  }

  // Results

  /** Every result sent has been collected or is in the channel; `processed` counts them up to the page limit. */
  ghost predicate Counted(c: Config, s: State) {
    && |s.delivered| + Total(s.workers, IsDelivering) ==
         (if s.processed <= c.limits.maxPages then s.processed else c.limits.maxPages)
    && s.delivered == (if s.main.Seeding? then [] else s.main.got) + s.results
    && (s.main.Returned? ==> s.results == [] && s.ResultsAreClosed())
  }

  lemma CountedWork(c: Config, s: State, w: nat, step: Step)
    requires Counted(c, s) && Enabled(c, s, Work(w, step)) && Panic(s, step).None?
    ensures Counted(c, Next(c, s, Work(w, step)))
  {
    var p, s' := s.workers[w], Next(c, s, Work(w, step));
    TotalUpdate(s.workers, IsDelivering, w, Turn(c, s, p, step));
    assert s'.workers == s.workers[w := Turn(c, s, p, step)];
    DeliveringTurn(c, s, p, step);
    EffectOnLedger(c, s, p, step);
  }

  lemma DeliveringTurn(c: Config, s: State, p: Worker, step: Step)
    requires Ready(c, s, p, step) && Panic(s, step).None?
    ensures var s', p' := Effect(c, s, p, step), Turn(c, s, p, step);
      && IsDelivering(p) == (if step.Deliver? then 1 else 0)
      && IsDelivering(p') == (if step.Count? && s.processed < c.limits.maxPages then 1 else 0)
      && s'.processed == s.processed + (if step.Count? then 1 else 0)
      && s'.delivered == s.delivered + (if step.Deliver? then [p.task] else [])
      && s'.results == s.results + (if step.Deliver? then [p.task] else [])
      && (step.Deliver? ==> !s.ResultsAreClosed())
  {
  }

  lemma CountedStep(c: Config, s: State, a: Action)
    requires Ledger(c, s) && Counted(c, s) && Enabled(c, s, a)
    ensures Counted(c, Next(c, s, a))
    ensures a.Collect? ==> |s.main.got| < c.limits.maxPages
  {
    match a
    case Work(w, step) =>
      if Panic(s, step).None? {
        CountedWork(c, s, w, step);
      }
    case Collect => CountedCollect(c, s);
    case Seed(offer) => CountedSeed(c, s, offer);
    case _ => CountedQuiet(c, s, a);
  }

  lemma CountedSeed(c: Config, s: State, offer: Offer)
    requires Counted(c, s) && Enabled(c, s, Seed(offer))
    ensures Counted(c, SeedNext(c, s, offer))
  {
  }

  /** The steps of the closer, the cancellation, and the main goroutine's start and end. */
  lemma CountedQuiet(c: Config, s: State, a: Action)
    requires Ledger(c, s) && Counted(c, s) && Enabled(c, s, a) && !a.Work? && !a.Collect? && !a.Seed?
    ensures Counted(c, Next(c, s, a))
  {
    assert Next(c, s, a).workers == s.workers && Next(c, s, a).processed == s.processed;
  }

  lemma CountedCollect(c: Config, s: State)
    requires Counted(c, s) && Enabled(c, s, Collect)
    ensures Counted(c, Next(c, s, Collect)) && |s.main.got| < c.limits.maxPages
  {
    assert |s.delivered| == |s.main.got| + |s.results|;
    assert [s.results[0]] + s.results[1..] == s.results;
    assert s.delivered == (s.main.got + [s.results[0]]) + s.results[1..];
  }

  // The invariant as a whole

  ghost predicate Books(c: Config, s: State) {
    Ledger(c, s) && Provenance(c, s) && Claims(c, s) && FetchLedger(s) && Counted(c, s)
  }

  lemma BooksInit(c: Config)
    ensures Books(c, Init(c))
  {
    LedgerInit(c);
    BagEmpty(Init(c).workers, Unfetched);
    TotalZero(Init(c).workers, IsDelivering);
  }

  lemma BooksStep(c: Config, s: State, a: Action)
    requires Books(c, s) && Enabled(c, s, a)
    ensures Books(c, Next(c, s, a))
  {
    LedgerStep(c, s, a);
    ProvenanceStep(c, s, a);
    ClaimsStep(c, s, a);
    FetchStep(c, s, a);
    CountedStep(c, s, a);
  }

  lemma {:induction false} BooksRun(c: Config, s: State, acts: seq<Action>)
    requires Books(c, s) && RunFrom(c, s, acts).Some?
    ensures Books(c, RunFrom(c, s, acts).value)
    decreases |acts|
  {
    if acts != [] {
      BooksStep(c, s, acts[0]);
      BooksRun(c, Next(c, s, acts[0]), acts[1..]);
    }
  }

  /** The page of task `from` was expanded and links to `to`, one level deeper. */
  ghost predicate Linked(c: Config, s: State, from: Task, to: Task) {
    exists e | e in s.expanded :: e.task == from && Parent(c, e, to)
  }

  ghost predicate Chain(c: Config, s: State, path: seq<Task>) {
    && path != [] && path[0].depth == 0 && IsSeed(c, path[0].url)
    && forall i, j | 0 <= i < j < |path| && j == i + 1 :: Linked(c, s, path[i], path[j])
  }

  lemma ChainExtend(c: Config, s: State, prefix: seq<Task>, t: Task)
    requires Chain(c, s, prefix) && Linked(c, s, prefix[|prefix| - 1], t)
    ensures Chain(c, s, prefix + [t])
  {
  }

  lemma {:induction false} ChainTo(c: Config, s: State, t: Task) returns (path: seq<Task>)
    requires Provenance(c, s) && t in s.sent
    ensures Chain(c, s, path) && |path| == t.depth + 1 && path[t.depth] == t
    decreases t.depth
  {
    if t.depth == 0 && IsSeed(c, t.url) {
      path := [t];
    } else {
      var e :| e in s.expanded && Parent(c, e, t);
      var prefix := ChainTo(c, s, e.task);
      assert Linked(c, s, e.task, t);
      ChainExtend(c, s, prefix, t);
      path := prefix + [t];
    }
  }

  /** In every reachable state of every interleaving: no page is sent or fetched twice, no task is deeper than the
      limit, every task is admitted by the filters, and a chain of exactly `depth` links leads to it from a seed. */
  lemma {:induction false} VisitOnce(c: Config, acts: seq<Action>, s: State)
    requires Reaches(c, acts, s)
    ensures DistinctKeys(c, s.sent) && DistinctKeys(c, s.fetched)
    ensures forall t | t in s.fetched :: t in s.sent
    ensures forall t | t in s.sent :: t.depth <= c.limits.maxDepth && c.site.admits(t.url)
    ensures forall t | t in s.sent :: exists path :: Chain(c, s, path) && |path| == t.depth + 1 && path[t.depth] == t
  {
    BooksInit(c);
    BooksRun(c, Init(c), acts);
    assert multiset(s.fetched) <= multiset(s.sent) by {
      forall t: Task ensures multiset(s.fetched)[t] <= multiset(s.sent)[t] {
        assert Copies(s, t) <= multiset(s.sent)[t];
      }
    }
    SubDistinct(c, s.fetched, s.sent);
    forall t | t in s.fetched ensures t in s.sent {
      assert t in multiset(s.fetched);
    }
    forall t | t in s.sent
      ensures exists path :: Chain(c, s, path) && |path| == t.depth + 1 && path[t.depth] == t
    {
      var path := ChainTo(c, s, t);
    }
  }

  /** The results sent, delivered or about to be, are `min(processed, MaxPages)`, so the buffer of `results` always has
      room for them and the collector never takes its early exit. */
  lemma {:induction false} ResultsFit(c: Config, acts: seq<Action>, s: State)
    requires Reaches(c, acts, s)
    ensures |s.delivered| + Total(s.workers, IsDelivering) ==
              (if s.processed <= c.limits.maxPages then s.processed else c.limits.maxPages)
    ensures forall w: nat | w < |s.workers| && s.workers[w].Delivering? :: |s.results| < c.limits.maxPages
    ensures s.main.Collecting? && s.results != [] ==> |s.main.got| < c.limits.maxPages
    ensures s.main.Returned? ==> s.main.got == s.delivered
  {
    BooksInit(c);
    BooksRun(c, Init(c), acts);
    forall w: nat | w < |s.workers| && s.workers[w].Delivering? ensures |s.results| < c.limits.maxPages {
      TotalUpdate(s.workers, IsDelivering, w, Idle);
      assert |s.delivered| >= |s.results|;
    }
    assert s.main.Returned? ==> s.main.got + [] == s.main.got;
  }
}
