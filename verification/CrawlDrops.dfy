/**
  What a full channel costs. A URL is claimed in `visited` before it is offered, so an offer that is dropped, or
  abandoned on cancellation, takes its page out of the crawl for good.
*/
module CrawlDrops {
  import opened Basics
  import opened CrawlModel
  import opened CrawlLedger
  import opened CrawlShutdown
  import opened CrawlVisits
  import opened CrawlScenarios

  /** Claimed, never sent, and with no worker about to send it. */
  ghost predicate Lost(c: Config, s: State, k: Key) {
    && k in s.visited
    && (forall t | t in s.sent :: c.site.norm(t.url) != k)
    && (forall p | p in s.workers && p.Claimed? :: c.site.norm(p.url) != k)
  }

  /** A worker comes to hold a claim only by claiming a key that nobody has visited. */
  lemma ClaimsAreNew(c: Config, s: State, p: Worker, step: Step)
    requires Ready(c, s, p, step) && Panic(s, step).None?
    ensures var s', p' := Effect(c, s, p, step), Turn(c, s, p, step);
      && (p'.Claimed? ==> c.site.norm(p'.url) !in s.visited)
      && (forall k | k in s.visited :: k in s'.visited)
      && s'.workers == s.workers
      && (s'.sent == s.sent || (p.Claimed? && s'.sent == s.sent + [Task(p.url, p.task.depth + 1)]))
  {
  }

  lemma LostStays(c: Config, s: State, a: Action, k: Key)
    requires Lost(c, s, k) && Enabled(c, s, a)
    ensures Lost(c, Next(c, s, a), k)
  {
    match a
    case Work(w, step) =>
      if Panic(s, step).None? {
        assert s.workers[w] in s.workers;
        ClaimsAreNew(c, s, s.workers[w], step);
        assert Next(c, s, a).workers == s.workers[w := Turn(c, s, s.workers[w], step)];
      }
    case Seed(_) =>
    case _ =>
  }

  lemma {:induction false} LostForever(c: Config, s: State, acts: seq<Action>, k: Key)
    requires Lost(c, s, k) && RunFrom(c, s, acts).Some?
    ensures Lost(c, RunFrom(c, s, acts).value, k)
    decreases |acts|
  {
    if acts != [] {
      LostStays(c, s, acts[0], k);
      LostForever(c, Next(c, s, acts[0]), acts[1..], k);
    }
  }

  /** On every run of any number of workers: once the offer of a link is dropped or abandoned, no page with its key is
      sent or fetched in any continuation, however often it is linked again. */
  lemma DroppedIsLost(c: Config, acts: seq<Action>, s: State, w: nat, offer: Offer, more: seq<Action>, end: State)
    requires Reaches(c, acts, s) && Enabled(c, s, Work(w, MakeOffer(offer))) && !offer.Send?
    requires RunFrom(c, Next(c, s, Work(w, MakeOffer(offer))), more) == Some(end)
    ensures forall t | t in end.sent || t in end.fetched :: c.site.norm(t.url) != c.site.norm(s.workers[w].url)
  {
    var k, after := c.site.norm(s.workers[w].url), Next(c, s, Work(w, MakeOffer(offer)));
    BooksInit(c);
    BooksRun(c, Init(c), acts);
    LostForever(c, after, more, k);
    BooksStep(c, s, Work(w, MakeOffer(offer)));
    BooksRun(c, after, more);
    FetchedWasSent(end);
  }

  /** The same for a seed that finds the channel full. */
  lemma DroppedSeedIsLost(c: Config, acts: seq<Action>, s: State, offer: Offer, more: seq<Action>, end: State)
    requires Reaches(c, acts, s) && Enabled(c, s, Seed(offer)) && !offer.Send? && WillOffer(c, s, s.main.rest[0])
    requires RunFrom(c, Next(c, s, Seed(offer)), more) == Some(end)
    ensures forall t | t in end.sent || t in end.fetched :: c.site.norm(t.url) != c.site.norm(s.main.rest[0])
  {
    var k, after := c.site.norm(s.main.rest[0]), Next(c, s, Seed(offer));
    BooksInit(c);
    BooksRun(c, Init(c), acts);
    assert forall t | t in s.sent :: Recorded(c, s, t);
    assert Lost(c, after, k);
    LostForever(c, after, more, k);
    BooksStep(c, s, Seed(offer));
    BooksRun(c, after, more);
    FetchedWasSent(end);
  }

  lemma FetchedWasSent(s: State)
    requires FetchLedger(s)
    ensures forall t | t in s.fetched :: t in s.sent
  {
    forall t | t in s.fetched ensures t in s.sent {
      assert Copies(s, t) <= multiset(s.sent)[t];
      assert t in multiset(s.fetched);
    }
  }

  // Seeds

  /** The keys of the seeds that pass the filters. */
  function AdmittedKeys(c: Config, seeds: seq<Url>): set<Key> {
    set u | u in seeds && c.site.admits(u) :: c.site.norm(u)
  }

  /** The next seed is new and admitted, and the channel is full. */
  ghost predicate DropsSeed(c: Config, s: State) {
    Enabled(c, s, Seed(Drop)) && WillOffer(c, s, s.main.rest[0])
  }

  ghost predicate SomeRunDrops(c: Config) {
    exists acts, s :: Reaches(c, acts, s) && DropsSeed(c, s)
  }

  /** After the first `k` seeds of an uncancelled run that sends when it can. */
  ghost predicate Seeded(c: Config, k: nat, s: State)
    requires k <= |c.site.seeds|
  {
    s.visited.Keys == AdmittedKeys(c, c.site.seeds[..k]) && Filling(c, k, s)
  }

  ghost predicate Filling(c: Config, k: nat, s: State)
    requires k <= |c.site.seeds|
  {
    && s.crash.None? && s.main == Seeding(c.site.seeds[k..]) && s.workers == Init(c).workers
    && s.processed == 0 && s.closer.Waiting? && !s.outerCancelled && s.results == []
    && |s.tasks| == (if |s.visited| <= c.limits.maxPages then |s.visited| else c.limits.maxPages)
  }

  /** The key of one more seed. */
  lemma NextKey(c: Config, k: nat)
    requires k < |c.site.seeds|
    ensures var u, keys := c.site.seeds[k], AdmittedKeys(c, c.site.seeds[..k]);
      AdmittedKeys(c, c.site.seeds[..k + 1]) == if c.site.admits(u) then keys + {c.site.norm(u)} else keys
  {
    assert c.site.seeds[..k + 1] == c.site.seeds[..k] + [c.site.seeds[k]];
  }

  lemma SeedFills(c: Config, k: nat, s: State, offer: Offer)
    requires k < |c.site.seeds| && Filling(c, k, s) && WillOffer(c, s, c.site.seeds[k])
    requires offer == if |s.tasks| < c.limits.maxPages then Send else Drop
    ensures Enabled(c, s, Seed(offer)) && Filling(c, k + 1, Next(c, s, Seed(offer)))
    ensures Next(c, s, Seed(offer)).visited == s.visited[c.site.norm(c.site.seeds[k]) := 0]
    ensures offer.Drop? ==> DropsSeed(c, s)
  {
    OneMoreKey(s.visited, c.site.norm(c.site.seeds[k]));
  }

  lemma SeedClaims(c: Config, k: nat, s: State, offer: Offer)
    requires k < |c.site.seeds| && Seeded(c, k, s) && WillOffer(c, s, c.site.seeds[k])
    requires offer == if |s.tasks| < c.limits.maxPages then Send else Drop
    ensures Enabled(c, s, Seed(offer)) && Seeded(c, k + 1, Next(c, s, Seed(offer)))
    ensures offer.Drop? ==> DropsSeed(c, s)
    ensures |Next(c, s, Seed(offer)).visited| == |s.visited| + 1
  {
    NextKey(c, k);
    SeedFills(c, k, s, offer);
    OneMoreKey(s.visited, c.site.norm(c.site.seeds[k]));
  }

  lemma OneMoreKey(visited: map<Key, nat>, key: Key)
    requires key !in visited
    ensures visited[key := 0].Keys == visited.Keys + {key} && |visited[key := 0]| == |visited| + 1
  {
    assert |visited[key := 0].Keys| == |visited.Keys| + 1;
  }

  lemma SeedOne(c: Config, k: nat, s: State) returns (offer: Offer)
    requires c.limits.Positive() && k < |c.site.seeds| && Seeded(c, k, s)
    ensures Enabled(c, s, Seed(offer)) && Seeded(c, k + 1, Next(c, s, Seed(offer)))
    ensures |Next(c, s, Seed(offer)).visited| > c.limits.maxPages >= |s.visited| ==> DropsSeed(c, s)
  {
    if WillOffer(c, s, c.site.seeds[k]) {
      offer := if |s.tasks| < c.limits.maxPages then Send else Drop;
      SeedClaims(c, k, s, offer);
    } else {
      offer := Drop;
    }
  }

  lemma {:induction false} SeedFirst(c: Config, k: nat) returns (acts: seq<Action>, s: State)
    requires c.limits.Positive() && k <= |c.site.seeds|
    ensures Reaches(c, acts, s) && Seeded(c, k, s)
    ensures |s.visited| > c.limits.maxPages ==> SomeRunDrops(c)
  {
    if k == 0 {
      acts, s := [], Init(c);
      assert c.site.seeds[0..] == c.site.seeds;
    } else {
      var before, t := SeedFirst(c, k - 1);
      var offer := SeedOne(c, k - 1, t);
      acts, s := Do(c, before, t, Seed(offer));
    }
  }

  lemma {:induction false} KeysOf(c: Config, ts: seq<Task>) returns (keys: set<Key>)
    requires DistinctKeys(c, ts)
    ensures |keys| == |ts| && forall k :: k in keys <==> exists t | t in ts :: c.site.norm(t.url) == k
  {
    if ts == [] {
      keys := {};
    } else {
      var init, last := ts[..|ts| - 1], ts[|ts| - 1];
      var some := KeysOf(c, init);
      assert ts == init + [last];
      keys := some + {c.site.norm(last.url)};
    }
  }

  /** While the seeds are offered, every key visited is that of an admitted seed. */
  ghost predicate OnlySeeds(c: Config, s: State) {
    s.main.Seeding? ==> s.visited.Keys <= AdmittedKeys(c, c.site.seeds)
  }

  lemma {:induction false} OnlySeedsRun(c: Config, s: State, acts: seq<Action>)
    requires Books(c, s) && OnlySeeds(c, s) && RunFrom(c, s, acts).Some?
    ensures Books(c, RunFrom(c, s, acts).value) && OnlySeeds(c, RunFrom(c, s, acts).value)
    decreases |acts|
  {
    if acts != [] {
      BooksStep(c, s, acts[0]);
      OnlySeedsStep(c, s, acts[0]);
      OnlySeedsRun(c, Next(c, s, acts[0]), acts[1..]);
    }
  }

  lemma OnlySeedsStep(c: Config, s: State, a: Action)
    requires Provenance(c, s) && OnlySeeds(c, s) && Enabled(c, s, a)
    ensures OnlySeeds(c, Next(c, s, a))
  {
    match a
    case Work(w, step) =>
      if Panic(s, step).None? {
        EffectOnLedger(c, s, s.workers[w], step);
      }
    case Seed(_) => assert s.main.rest[0] in s.main.rest;
    case _ =>
  }

  /** A full channel and one key more. */
  lemma DropNeedsKeys(c: Config, s: State)
    requires Books(c, s) && OnlySeeds(c, s) && DropsSeed(c, s)
    ensures |AdmittedKeys(c, c.site.seeds)| > c.limits.maxPages
  {
    assert multiset(s.tasks) <= multiset(s.sent);
    SubDistinct(c, s.tasks, s.sent);
    var next := c.site.norm(s.main.rest[0]);
    var keys := KeysOf(c, s.tasks);
    forall k | k in keys ensures k in s.visited {
      var t :| t in s.tasks && c.site.norm(t.url) == k;
      assert t in multiset(s.tasks) && t in multiset(s.sent) && Recorded(c, s, t);
    }
    assert s.main.rest[0] in s.main.rest;
    Smaller(keys + {next}, AdmittedKeys(c, c.site.seeds));
  }

  lemma Smaller<T>(a: set<T>, b: set<T>)
    requires a <= b
    ensures |a| <= |b|
  {
    assert b == a + (b - a);
  }

  /** Some run drops a seed that passes the filters exactly when those seeds have more keys than a crawl may have
      pages, which is the capacity of the channel. */
  lemma SeedDropIff(c: Config)
    requires c.limits.Positive()
    ensures SomeRunDrops(c) <==> |AdmittedKeys(c, c.site.seeds)| > c.limits.maxPages
  {
    if SomeRunDrops(c) {
      var acts, s :| Reaches(c, acts, s) && DropsSeed(c, s);
      BooksInit(c);
      OnlySeedsRun(c, Init(c), acts);
      DropNeedsKeys(c, s);
    }
    var _, s := SeedFirst(c, |c.site.seeds|);
    assert c.site.seeds[..|c.site.seeds|] == c.site.seeds;
    assert |s.visited| == |s.visited.Keys|;
  }

  // Links

  /** Some worker offers a link and finds the channel full. */
  ghost predicate DropsLink(c: Config, s: State) {
    exists w: nat :: Enabled(c, s, Work(w, MakeOffer(Drop)))
  }

  /** Links of different lengths, all of them new on a site that has only the root. */
  function FreshLinks(n: nat): seq<string> {
    seq(n, i requires 0 <= i < n => FreshLink(i))
  }

  function FreshLink(i: nat): string {
    "/" + seq(i + 1, _ => 'a')
  }

  /** Worker 0 has sent the first `j` links of the root page; nobody else has moved. */
  ghost predicate Offered(c: Config, links: seq<string>, j: nat, s: State)
    requires j <= |links|
  {
    && s.crash.None? && s.main == Collecting([]) && s.closer.Waiting? && !s.outerCancelled
    && s.workers != [] && s.workers[0] == Expanding(Task("/", 0), links[j..])
    && |s.tasks| == j && s.processed == 1 && forall u | u in s.visited :: |u| <= j + 1
  }

  /** The next link, up to its claim. */
  lemma ClaimLink(c: Config, links: seq<string>, j: nat, acts: seq<Action>, s: State)
    returns (acts': seq<Action>, s': State)
    requires c.limits.maxPages >= 2 && c.site == OpenSite() && j < |links| && links[j] == FreshLink(j)
    requires Reaches(c, acts, s) && Offered(c, links, j, s)
    ensures Reaches(c, acts', s')
    ensures s' == s.(visited := s.visited[links[j] := 1],
                     workers := s.workers[0 := Claimed(Task("/", 0), links[j], links[j + 1..])])
  {
    assert links[j..][0] == links[j] && links[j..][1..] == links[j + 1..];
    acts', s' := Do(c, acts, s, Work(0, NextLink));
    acts', s' := Do(c, acts', s', Work(0, Claim));
    assert s'.workers == s.workers[0 := Claimed(Task("/", 0), links[j], links[j + 1..])];
  }

  lemma {:induction false} OfferLinks(c: Config, links: seq<string>, j: nat) returns (acts: seq<Action>, s: State)
    requires c.limits.Positive() && c.limits.maxPages >= 2 && c.site == OpenSite()
    requires links == FreshLinks(c.limits.maxPages + 1) && j <= c.limits.maxPages
    ensures Reaches(c, acts, s) && Offered(c, links, j, s)
  {
    if j == 0 {
      acts, s := AcceptRoot(c, links);
      assert links[0..] == links;
    } else {
      var before, t := OfferLinks(c, links, j - 1);
      acts, s := SendLink(c, links, j - 1, before, t);
    }
  }

  lemma SendLink(c: Config, links: seq<string>, j: nat, acts: seq<Action>, s: State)
    returns (acts': seq<Action>, s': State)
    requires c.limits.maxPages >= 2 && c.site == OpenSite() && j < |links| && links[j] == FreshLink(j)
    requires Reaches(c, acts, s) && Offered(c, links, j, s) && j < c.limits.maxPages
    ensures Reaches(c, acts', s') && Offered(c, links, j + 1, s')
  {
    acts', s' := ClaimLink(c, links, j, acts, s);
    acts', s' := Do(c, acts', s', Work(0, MakeOffer(Send)));
    acts', s' := Do(c, acts', s', Work(0, AddToGroup));
  }

  lemma DropLastLink(c: Config) returns (acts: seq<Action>, s: State)
    requires c.limits.Positive() && c.limits.maxPages >= 2 && c.site == OpenSite()
    ensures Reaches(c, acts, s) && DropsLink(c, s)
  {
    var links, n := FreshLinks(c.limits.maxPages + 1), c.limits.maxPages;
    var before, t := OfferLinks(c, links, n);
    acts, s := ClaimLink(c, links, n, before, t);
    assert Enabled(c, s, Work(0, MakeOffer(Drop)));
  }

  lemma OnePageDropsNoLink(c: Config, acts: seq<Action>, s: State)
    requires c.limits.Positive() && c.limits.maxPages == 1 && Reaches(c, acts, s)
    ensures !DropsLink(c, s)
  {
    SoloInit(c);
    SoloRun(c, Init(c), acts);
    forall w: nat ensures !Enabled(c, s, Work(w, MakeOffer(Drop))) {
      NoClaimNoOffer(c, s, w);
    }
  }

  lemma NoClaimNoOffer(c: Config, s: State, w: nat)
    requires forall p | p in s.workers :: !p.Claimed?
    ensures !Enabled(c, s, Work(w, MakeOffer(Drop)))
  {
    if w < |s.workers| {
      assert s.workers[w] in s.workers;
    }
  }

  /** On no site and no run a link finds the channel full, exactly when a crawl has one page: with two or more, a root
      page with one link more than that drops the last. */
  lemma LinkDropIff(l: Limits)
    requires l.Positive()
    ensures (forall site, acts, s | Reaches(Config(l, site), acts, s) :: !DropsLink(Config(l, site), s))
            <==> l.maxPages == 1
  {
    if l.maxPages == 1 {
      forall site, acts, s | Reaches(Config(l, site), acts, s) ensures !DropsLink(Config(l, site), s) {
        OnePageDropsNoLink(Config(l, site), acts, s);
      }
    } else {
      var acts, s := DropLastLink(Config(l, OpenSite()));
    }
  }
}
