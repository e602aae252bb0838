/**
  The double-checked cache of robots.txt files, with any number of goroutines racing for any hosts, as a transition
  system over a clock that never runs backwards.
*/
module RobotsCache {
  import opened Basics
  import opened Strings
  import opened RobotsSelect

  type Time = int

  /** A cached fetch. No groups: the fetch failed. */
  datatype Entry = Entry(groups: Option<seq<Group>>, fetchedAt: Time)

  /** Where a goroutine is in `getRuleset`. */
  datatype Caller =
    | Outside
    | Entering(host: string)
    | Peeked(host: string, seen: Option<Entry>)
    | Waiting(host: string)
    | Locked(host: string)
    | Fetching(host: string, started: Time)

  datatype Fetched = Fetched(host: string, started: Time, entry: Entry)

  datatype Answer = Answer(host: string, entry: Entry, at: Time)

  datatype State = State(now: Time, data: map<string, Entry>, writer: Option<nat>, callers: seq<Caller>,
                         fetches: seq<Fetched>, answers: seq<Answer>)
  {
    function Set(i: nat, c: Caller): State
      requires i < |callers|
    {
      this.(callers := callers[i := c])
    }
  }

  datatype Action =
    | Tick(elapsed: nat)
    | Call(i: nat, host: string)
    | Peek(i: nat)
    | Check(i: nat)
    | Acquire(i: nat)
    | Recheck(i: nat)
    | Store(i: nat, result: Option<seq<Group>>)

  const HOUR: Time := 3_600_000_000_000

  /** The time to live that `NewCache` settles on. */
  function Ttl(requested: Time): (ttl: Time)
    ensures ttl > 0
    ensures requested > 0 ==> ttl == requested
    ensures requested <= 0 ==> ttl == HOUR
  {
    if requested <= 0 then HOUR else requested
  }

  predicate Fresh(ttl: Time, now: Time, e: Option<Entry>) {
    e.Some? && now - e.value.fetchedAt < ttl
  }

  function Lookup(s: State, host: string): Option<Entry> {
    if host in s.data then Some(s.data[host]) else None
  }

  predicate Enabled(s: State, a: Action) {
    match a
    case Tick(_) => true
    case Call(i, _) => i < |s.callers| && s.callers[i].Outside?
    case Peek(i) => i < |s.callers| && s.callers[i].Entering? && s.writer.None?
    case Check(i) => i < |s.callers| && s.callers[i].Peeked?
    case Acquire(i) => i < |s.callers| && s.callers[i].Waiting? && s.writer.None?
    case Recheck(i) => i < |s.callers| && s.callers[i].Locked?
    case Store(i, _) => i < |s.callers| && s.callers[i].Fetching?
  }

  function Next(ttl: Time, s: State, a: Action): State
    requires Enabled(s, a)
  {
    match a
    case Tick(elapsed) => s.(now := s.now + elapsed)
    case Call(i, host) => s.Set(i, Entering(host))
    case Peek(i) => s.Set(i, Peeked(s.callers[i].host, Lookup(s, s.callers[i].host)))
    case Check(i) =>
      var c := s.callers[i];
      if Fresh(ttl, s.now, c.seen) then
        s.(answers := s.answers + [Answer(c.host, c.seen.value, s.now)]).Set(i, Outside)
      else s.Set(i, Waiting(c.host))
    case Acquire(i) => s.(writer := Some(i)).Set(i, Locked(s.callers[i].host))
    case Recheck(i) =>
      var host := s.callers[i].host;
      if Fresh(ttl, s.now, Lookup(s, host)) then
        s.(answers := s.answers + [Answer(host, s.data[host], s.now)], writer := None).Set(i, Outside)
      else s.Set(i, Fetching(host, s.now))
    case Store(i, result) =>
      var c, e := s.callers[i], Entry(result, s.now);
      s.(data := s.data[c.host := e], writer := None,
         fetches := s.fetches + [Fetched(c.host, c.started, e)],
         answers := s.answers + [Answer(c.host, e, s.now)]).Set(i, Outside)
  }

  function RunFrom(ttl: Time, s: State, acts: seq<Action>): Option<State>
    decreases |acts|
  {
    if acts == [] then Some(s)
    else if Enabled(s, acts[0]) then RunFrom(ttl, Next(ttl, s, acts[0]), acts[1..])
    else None
  }

  function Init(now: Time, callers: nat): State {
    State(now, map[], None, seq(callers, _ => Outside), [], [])
  }

  // Invariants

  /** Fetches of one host are at least the time to live apart, from a store to the next start. */
  ghost predicate Spaced(ttl: Time, fetches: seq<Fetched>) {
    forall i, j | 0 <= i < j < |fetches| && fetches[i].host == fetches[j].host ::
      fetches[j].started >= fetches[i].entry.fetchedAt + ttl
  }

  /** The cached entry of a host is that of its last fetch. */
  ghost predicate IsLast(fetches: seq<Fetched>, host: string, e: Entry, k: nat) {
    && k < |fetches| && fetches[k].host == host && fetches[k].entry == e
    && forall j | k < j < |fetches| :: fetches[j].host != host
  }

  ghost predicate DataIsLast(s: State) {
    && (forall h | h in s.data :: exists k: nat :: IsLast(s.fetches, h, s.data[h], k))
    && (forall f | f in s.fetches :: f.host in s.data)
    && (forall f | f in s.fetches :: f.started <= f.entry.fetchedAt <= s.now)
  }

  /** An entry a caller has peeked at is the cached one still, or it is stale by now. */
  ghost predicate PeekIsCurrent(ttl: Time, s: State, c: Caller) {
    c.Peeked? && c.seen.Some? ==>
      Lookup(s, c.host) == c.seen || s.now >= c.seen.value.fetchedAt + ttl
  }

  /** Only the holder of the lock is past it, and what it fetches was stale when it started. */
  ghost predicate WriterOnly(ttl: Time, s: State) {
    && (forall i: nat | i < |s.callers| && (s.callers[i].Locked? || s.callers[i].Fetching?) :: s.writer == Some(i))
    && (forall c | c in s.callers && c.Fetching? ::
          c.started <= s.now && (c.host in s.data ==> c.started >= s.data[c.host].fetchedAt + ttl))
  }

  /** An answer given while a fetch of its host is fresh is that fetch's answer. */
  ghost predicate Consistent(ttl: Time, s: State, a: Answer) {
    && a.at <= s.now && 0 <= a.at - a.entry.fetchedAt < ttl
    && (exists f | f in s.fetches :: f.host == a.host && f.entry == a.entry)
    && (forall f | f in s.fetches && f.host == a.host ::
          f.entry.fetchedAt <= a.at < f.entry.fetchedAt + ttl ==> a.entry == f.entry)
  }

  ghost predicate Inv(ttl: Time, s: State) {
    && ttl > 0
    && Spaced(ttl, s.fetches) && DataIsLast(s) && WriterOnly(ttl, s)
    && (forall c | c in s.callers :: PeekIsCurrent(ttl, s, c))
    && (forall a | a in s.answers :: Consistent(ttl, s, a))
  }

  /** What an action that stores nothing has to keep. */
  lemma QuietKeeps(ttl: Time, s: State, s': State)
    requires Inv(ttl, s) && s'.data == s.data && s'.fetches == s.fetches && s'.now >= s.now
    ensures Spaced(ttl, s'.fetches) && DataIsLast(s')
    ensures forall a | a in s.answers :: Consistent(ttl, s', a)
    ensures forall c | c in s.callers :: PeekIsCurrent(ttl, s', c)
  {
    forall a | a in s.answers ensures Consistent(ttl, s', a) {
      assert Consistent(ttl, s, a);
    }
  }

  lemma WriterStep(ttl: Time, s: State, a: Action)
    requires WriterOnly(ttl, s) && Enabled(s, a)
    ensures WriterOnly(ttl, Next(ttl, s, a))
  {
    var s' := Next(ttl, s, a);
    if !a.Tick? {
      assert s'.callers == s.callers[a.i := s'.callers[a.i]];
    }
    forall c | c in s'.callers && c.Fetching?
      ensures c.started <= s'.now && (c.host in s'.data ==> c.started >= s'.data[c.host].fetchedAt + ttl)
    {
      var j :| 0 <= j < |s'.callers| && s'.callers[j] == c;
      if a.Tick? || j != a.i {
        assert s.callers[j] == c && c in s.callers;
        assert !a.Store?;
      }
    }
  }

  lemma QuietPeeks(ttl: Time, s: State, a: Action)
    requires Inv(ttl, s) && Enabled(s, a) && !a.Store?
    ensures forall c | c in Next(ttl, s, a).callers :: PeekIsCurrent(ttl, Next(ttl, s, a), c)
  {
    var s' := Next(ttl, s, a);
    QuietNext(ttl, s, a);
    QuietKeeps(ttl, s, s');
  }

  lemma QuietAnswers(ttl: Time, s: State, a: Action)
    requires Inv(ttl, s) && Enabled(s, a) && !a.Store?
    ensures forall x | x in Next(ttl, s, a).answers :: Consistent(ttl, Next(ttl, s, a), x)
  {
    var s' := Next(ttl, s, a);
    QuietNext(ttl, s, a);
    QuietKeeps(ttl, s, s');
    if s'.answers != s.answers {
      var x := NewAnswer(ttl, s, a);
    }
  }

  lemma QuietNext(ttl: Time, s: State, a: Action)
    requires Enabled(s, a) && !a.Store?
    ensures var s' := Next(ttl, s, a); s'.data == s.data && s'.fetches == s.fetches && s'.now >= s.now
  {
  }

  lemma NewAnswer(ttl: Time, s: State, a: Action) returns (x: Answer)
    requires Inv(ttl, s) && Enabled(s, a) && !a.Store? && Next(ttl, s, a).answers != s.answers
    ensures Next(ttl, s, a).answers == s.answers + [x] && Consistent(ttl, Next(ttl, s, a), x)
  {
    var c := s.callers[a.i];
    assert c in s.callers && PeekIsCurrent(ttl, s, c);
    x := Answer(c.host, s.data[c.host], s.now);
  }

  // The store of a fetch

  lemma StoreSpaced(ttl: Time, s: State, i: nat, result: Option<seq<Group>>)
    requires Inv(ttl, s) && Enabled(s, Store(i, result))
    ensures Spaced(ttl, Next(ttl, s, Store(i, result)).fetches)
  {
    var c := s.callers[i];
    assert c in s.callers;
    forall j | 0 <= j < |s.fetches| && s.fetches[j].host == c.host
      ensures c.started >= s.fetches[j].entry.fetchedAt + ttl
    {
      EntriesAge(ttl, s, j);
    }
  }

  /** A fetch at the end is the last of its host and no other. */
  lemma LastAppends(fetches: seq<Fetched>, f: Fetched, host: string, e: Entry, k: nat)
    requires if host == f.host then e == f.entry && k == |fetches| else IsLast(fetches, host, e, k)
    ensures IsLast(fetches + [f], host, e, k)
  {
  }

  lemma StoreIsLast(ttl: Time, s: State, i: nat, result: Option<seq<Group>>)
    requires DataIsLast(s) && WriterOnly(ttl, s) && Enabled(s, Store(i, result))
    ensures DataIsLast(Next(ttl, s, Store(i, result)))
  {
    var s', c := Next(ttl, s, Store(i, result)), s.callers[i];
    assert c in s.callers;
    var f := Fetched(c.host, c.started, Entry(result, s.now));
    forall h | h in s'.data ensures exists k: nat :: IsLast(s'.fetches, h, s'.data[h], k) {
      var k: nat := |s.fetches|;
      if h != c.host {
        k :| IsLast(s.fetches, h, s.data[h], k);
      }
      LastAppends(s.fetches, f, h, s'.data[h], k);
    }
  }

  /** The entry of an earlier fetch is no younger than the cached one. */
  lemma EntriesAge(ttl: Time, s: State, j: nat)
    requires Inv(ttl, s) && j < |s.fetches|
    ensures var f := s.fetches[j]; f.host in s.data && f.entry.fetchedAt <= s.data[f.host].fetchedAt
  {
    var f := s.fetches[j];
    assert f in s.fetches;
    var k: nat :| IsLast(s.fetches, f.host, s.data[f.host], k);
    assert s.fetches[k] in s.fetches && j <= k;
  }

  ghost predicate AllStale(ttl: Time, s: State, host: string) {
    forall f | f in s.fetches && f.host == host :: s.now >= f.entry.fetchedAt + ttl
  }

  lemma NewAnswerFits(ttl: Time, s: State, s': State, stored: Fetched, x: Answer)
    requires ttl > 0 && AllStale(ttl, s, stored.host)
    requires s'.fetches == s.fetches + [stored] && s'.now == s.now && stored.entry.fetchedAt == s.now
    requires x == Answer(stored.host, stored.entry, s.now)
    ensures Consistent(ttl, s', x)
  {
    assert s'.fetches[|s.fetches|] == stored && stored in s'.fetches;
  }

  lemma StoreAnswers(ttl: Time, s: State, i: nat, result: Option<seq<Group>>)
    requires Inv(ttl, s) && Enabled(s, Store(i, result))
    ensures var s' := Next(ttl, s, Store(i, result)); forall x | x in s'.answers :: Consistent(ttl, s', x)
  {
    var s', c := Next(ttl, s, Store(i, result)), s.callers[i];
    var stored := Fetched(c.host, c.started, Entry(result, s.now));
    forall x | x in s'.answers ensures Consistent(ttl, s', x) {
      if x !in s.answers {
        NewAnswerFits(ttl, s, s', stored, x);
      }
    }
  }

  lemma StorePeeks(ttl: Time, s: State, i: nat, result: Option<seq<Group>>)
    requires Inv(ttl, s) && Enabled(s, Store(i, result))
    ensures var s' := Next(ttl, s, Store(i, result)); forall c | c in s'.callers :: PeekIsCurrent(ttl, s', c)
  {
    var s', w := Next(ttl, s, Store(i, result)), s.callers[i];
    assert w in s.callers;
    assert s'.callers == s.callers[i := Outside];
    forall c | c in s'.callers ensures PeekIsCurrent(ttl, s', c) {
      if c.Peeked? {
        assert c in s.callers && PeekIsCurrent(ttl, s, c);
      }
    }
  }

  lemma InvStep(ttl: Time, s: State, a: Action)
    requires Inv(ttl, s) && Enabled(s, a)
    ensures Inv(ttl, Next(ttl, s, a))
  {
    WriterStep(ttl, s, a);
    if a.Store? {
      StoreSpaced(ttl, s, a.i, a.result);
      StoreIsLast(ttl, s, a.i, a.result);
      StoreAnswers(ttl, s, a.i, a.result);
      StorePeeks(ttl, s, a.i, a.result);
    } else {
      QuietKeeps(ttl, s, Next(ttl, s, a));
      QuietPeeks(ttl, s, a);
      QuietAnswers(ttl, s, a);
    }
  }

  lemma {:induction false} InvRun(ttl: Time, s: State, acts: seq<Action>)
    requires Inv(ttl, s) && RunFrom(ttl, s, acts).Some?
    ensures Inv(ttl, RunFrom(ttl, s, acts).value)
    decreases |acts|
  {
    if acts != [] {
      InvStep(ttl, s, acts[0]);
      InvRun(ttl, Next(ttl, s, acts[0]), acts[1..]);
    }
  }

  // What callers see

  /** `Cache.IsAllowed` on a decoded path: a failed fetch allows; otherwise the rules of the agent's group decide. */
  ghost predicate Allowed(e: Entry, userAgent: string, path: string) {
    var ua := ToLower(userAgent);
    e.groups.None? ||
    exists chosen: Option<nat> ::
      && (if chosen.Some? then IsBestGroup(e.groups.value, ua, chosen.value)
          else forall g | g in e.groups.value :: BestRank(g.agents, ua) == -1)
      && Verdict(ForUserAgent(e.groups.value, chosen).rules, path)
  }

  ghost predicate Reaches(requestedTtl: Time, start: Time, callers: nat, acts: seq<Action>, s: State) {
    RunFrom(Ttl(requestedTtl), Init(start, callers), acts) == Some(s)
  }

  /** For any number of goroutines and any hosts: two fetches of one host are a time to live apart, from store to
      start, so at most one goroutine fetches it at a time. */
  lemma FetchesAreSpaced(requestedTtl: Time, start: Time, callers: nat, acts: seq<Action>, s: State)
    requires Reaches(requestedTtl, start, callers, acts, s)
    ensures forall i, j | 0 <= i < j < |s.fetches| && s.fetches[i].host == s.fetches[j].host ::
              s.fetches[j].started >= s.fetches[i].entry.fetchedAt + Ttl(requestedTtl)
    ensures forall i: nat, j: nat | i < j < |s.callers| && s.callers[i].Fetching? :: !s.callers[j].Fetching?
  {
    InvRun(Ttl(requestedTtl), Init(start, callers), acts);
  }

  /** Every answer comes from a fetch of its host that is younger than the time to live when it is given, and from the
      latest one: while a fetch is fresh, every answer for the host is its answer. */
  lemma AnswersAreFresh(requestedTtl: Time, start: Time, callers: nat, acts: seq<Action>, s: State, a: Answer)
    requires Reaches(requestedTtl, start, callers, acts, s) && a in s.answers
    ensures exists f :: f in s.fetches && f.host == a.host && f.entry == a.entry
    ensures 0 <= a.at - a.entry.fetchedAt < Ttl(requestedTtl)
    ensures forall f | f in s.fetches && f.host == a.host &&
              f.entry.fetchedAt <= a.at < f.entry.fetchedAt + Ttl(requestedTtl) :: a.entry == f.entry
  {
    InvRun(Ttl(requestedTtl), Init(start, callers), acts);
    assert Consistent(Ttl(requestedTtl), s, a);
  }

  /** After a failed fetch every caller is told "allowed" until the time to live has passed, whatever the agent and the
      path. */
  lemma FailuresAllow(requestedTtl: Time, start: Time, callers: nat, acts: seq<Action>, s: State, f: Fetched,
                      a: Answer, ua: string, path: string)
    requires Reaches(requestedTtl, start, callers, acts, s) && f in s.fetches && a in s.answers
    requires f.entry.groups.None? && a.host == f.host
    requires f.entry.fetchedAt <= a.at < f.entry.fetchedAt + Ttl(requestedTtl)
    ensures a.entry == f.entry && Allowed(a.entry, ua, path)
  {
    AnswersAreFresh(requestedTtl, start, callers, acts, s, a);
  }
}
