/**
  The duplicate index within one crawl: its pages have distinct URLs, because no page is fetched twice, and what the
  duplicates name among the results.
*/
module CrawlDuplicates {
  import opened CrawlModel
  import opened CrawlLedger
  import opened CrawlVisits
  import Duplicates

  /** The pages that had their turn in the index by now, in whatever order, each from a task of its own that
      `processPage` is done with or still busy with. */
  ghost predicate FromFetches(pages: seq<Duplicates.Page>, tasks: seq<Task>, s: State) {
    && |pages| == |tasks| && multiset(tasks) <= multiset(s.fetched) + Bag(s.workers, Unfetched)
    && forall i | 0 <= i < |pages| :: pages[i].url == tasks[i].url
  }

  lemma TasksWereSent(c: Config, s: State, tasks: seq<Task>)
    requires Books(c, s) && multiset(tasks) <= multiset(s.fetched) + Bag(s.workers, Unfetched)
    ensures multiset(tasks) <= multiset(s.sent) && DistinctKeys(c, tasks)
  {
    forall t: Task ensures multiset(tasks)[t] <= multiset(s.sent)[t] {
      assert Copies(s, t) <= multiset(s.sent)[t];
    }
    SubDistinct(c, tasks, s.sent);
  }

  lemma DistinctPages(c: Config, s: State, pages: seq<Duplicates.Page>, tasks: seq<Task>)
    requires Books(c, s) && FromFetches(pages, tasks, s)
    ensures Duplicates.DistinctUrls(pages)
  {
    TasksWereSent(c, s, tasks);
    forall i, j | 0 <= i < j < |pages| ensures pages[i].url != pages[j].url {
      assert c.site.norm(tasks[i].url) != c.site.norm(tasks[j].url);
    }
  }

  /** In every reachable state of every crawl, with any number of workers taking turns in any order: originals are
      pairwise more than the threshold apart, a duplicate names another, original page of the crawl within the
      threshold, and duplicates of one original are within twice the threshold. */
  lemma CrawlClusters(c: Config, acts: seq<Action>, s: State, threshold: nat, pages: seq<Duplicates.Page>,
                      tasks: seq<Task>, seen: map<nat, Duplicates.Url>)
    requires Reaches(c, acts, s) && FromFetches(pages, tasks, s) && Duplicates.Crawled(threshold, pages, seen)
    ensures Duplicates.Apart(threshold, pages) && Duplicates.Stars(threshold, pages)
    ensures Duplicates.Near(threshold, pages)
  {
    BooksInit(c);
    BooksRun(c, Init(c), acts);
    DistinctPages(c, s, pages, tasks);
    Duplicates.ClustersAreStars(threshold, pages, seen);
  }

  // Duplicates among the results

  ghost predicate ResultsWereSent(s: State) {
    forall t | t in s.delivered :: t in s.sent
  }

  lemma ResultsStep(c: Config, s: State, a: Action)
    requires Ledger(c, s) && ResultsWereSent(s) && Enabled(c, s, a)
    ensures ResultsWereSent(Next(c, s, a))
  {
    match a
    case Work(w, step) =>
      if Panic(s, step).None? {
        if s.workers[w].Holds() {
          HeldIsSent(s, w);
        }
        ResultsWork(c, s, s.workers[w], step);
      }
    case Seed(_) =>
    case _ =>
  }

  lemma ResultsWork(c: Config, s: State, p: Worker, step: Step)
    requires ResultsWereSent(s) && Ready(c, s, p, step) && Panic(s, step).None? && (p.Holds() ==> p.task in s.sent)
    ensures ResultsWereSent(Effect(c, s, p, step))
  {
    DeliveringTurn(c, s, p, step);
    HistoriesGrow(c, s, p, step);
  }

  lemma {:induction false} ResultsRun(c: Config, s: State, acts: seq<Action>)
    requires Ledger(c, s) && ResultsWereSent(s) && RunFrom(c, s, acts).Some?
    ensures ResultsWereSent(RunFrom(c, s, acts).value)
    decreases |acts|
  {
    if acts != [] {
      ResultsStep(c, s, acts[0]);
      LedgerStep(c, s, acts[0]);
      ResultsRun(c, Next(c, s, acts[0]), acts[1..]);
    }
  }

  /** The URL that the page names as its original is that of a result. */
  ghost predicate NamesResult(s: State, page: Duplicates.Page) {
    page.duplicateOf.Some? && exists t | t in s.delivered :: t.url == page.duplicateOf.value
  }

  /** Tasks are told apart by their URLs. */
  lemma SameTask(c: Config, s: State, t: Task, u: Task)
    requires Claims(c, s) && t in s.sent && u in s.sent && t.url == u.url
    ensures t == u
  {
    assert Recorded(c, s, t) && Recorded(c, s, u);
  }

  lemma NamesItsOriginal(c: Config, s: State, threshold: nat, pages: seq<Duplicates.Page>, tasks: seq<Task>, i: nat,
                         j: nat)
    requires Books(c, s) && ResultsWereSent(s) && FromFetches(pages, tasks, s)
    requires i < |pages| && j < |pages| && Duplicates.PointsTo(threshold, pages, i, j)
    ensures NamesResult(s, pages[i]) <==> tasks[j] in s.delivered
  {
    TasksWereSent(c, s, tasks);
    assert tasks[j] in multiset(tasks) && tasks[j] in multiset(s.sent);
    if NamesResult(s, pages[i]) {
      var t :| t in s.delivered && t.url == pages[i].duplicateOf.value;
      SameTask(c, s, t, tasks[j]);
    }
  }

  /** In every reachable state: each duplicate among the results names one of the results, exactly when no result points
      to an original that is not one, because its output hook failed or the page cap turned it away. */
  lemma NamesResultIff(c: Config, acts: seq<Action>, s: State, threshold: nat, pages: seq<Duplicates.Page>,
                       tasks: seq<Task>, seen: map<nat, Duplicates.Url>)
    requires Reaches(c, acts, s) && FromFetches(pages, tasks, s) && Duplicates.Crawled(threshold, pages, seen)
    ensures (forall i: nat | i < |pages| && tasks[i] in s.delivered && pages[i].duplicateOf.Some? ::
               NamesResult(s, pages[i]))
            <==>
            (forall i: nat, j: nat | i < |pages| && j < |pages| && tasks[i] in s.delivered &&
               Duplicates.PointsTo(threshold, pages, i, j) :: tasks[j] in s.delivered)
  {
    BooksInit(c);
    BooksRun(c, Init(c), acts);
    ResultsRun(c, Init(c), acts);
    Duplicates.IndexInvariant(threshold, pages, seen);
    forall i: nat, j: nat | i < |pages| && j < |pages| && Duplicates.PointsTo(threshold, pages, i, j)
      ensures NamesResult(s, pages[i]) <==> tasks[j] in s.delivered
    {
      NamesItsOriginal(c, s, threshold, pages, tasks, i, j);
    }
    forall i: nat | i < |pages| && pages[i].duplicateOf.Some?
      ensures exists j: nat :: j < |pages| && Duplicates.PointsTo(threshold, pages, i, j)
    {
      var j: nat :| j < i && Duplicates.PointsTo(threshold, pages, i, j);
    }
  }
}
