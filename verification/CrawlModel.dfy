/**
  The concurrent crawl of `Run` as a transition system, one action per access of a goroutine to what it shares with
  others: the main goroutine (seeding, then collecting), the workers, and the closer. The environment adds the outer
  cancellation. The send on `tasks` and the `wg.Add(1)` that follows it are two steps, as in the program, and so are
  the return of `wg.Wait` and `close(tasks)`.
*/
module CrawlModel {
  import opened Basics

  type Url = string
  type Key = string

  datatype Request = Request(maxPages: int, maxDepth: int, concurrency: int)

  datatype Limits = Limits(maxPages: nat, maxDepth: nat, workers: nat) {
    predicate Positive() {
      maxPages > 0 && maxDepth > 0 && workers > 0
    }
  }

  /** The limits a run works with: those of the request, and defaults for the ones that are not positive. */
  function Normalize(r: Request): (l: Limits)
    ensures l.Positive()
    ensures l.maxPages == r.maxPages || (r.maxPages <= 0 && l.maxPages == 100)
    ensures l.maxDepth == r.maxDepth || (r.maxDepth <= 0 && l.maxDepth == 1)
    ensures l.workers == r.concurrency || (r.concurrency <= 0 && l.workers == 4)
  {
    Limits(if r.maxPages <= 0 then 100 else r.maxPages,
           if r.maxDepth <= 0 then 1 else r.maxDepth,
           if r.concurrency <= 0 then 4 else r.concurrency)
  }

  /** What one run sees of the outside: its seed URLs in the order they are offered, and three fixed functions:
      `normalizeURL`, the robots and pattern filters, and `resolveURL` with the same-host test. */
  datatype Site = Site(seeds: seq<Url>, norm: Url -> Key, admits: Url -> bool, resolve: string -> Option<Url>)

  datatype Config = Config(limits: Limits, site: Site)

  datatype Task = Task(url: Url, depth: nat)

  /** What `processPage` reports to the worker. */
  datatype Outcome = Failed | Skipped | Page(links: seq<string>)

  /** How the `select` in `enqueue` resolves: the send, the default case, or `ctx.Done()`. */
  datatype Offer = Send | Drop | Abandon

  /** Where a worker is. Every state but `Idle` and `Exited` holds the task it received. */
  datatype Worker =
    | Idle
    | Received(task: Task)
    | Fetching(task: Task)
    | Counting(task: Task, links: seq<string>)
    | Delivering(task: Task, links: seq<string>)
    | Expanding(task: Task, links: seq<string>)
    | Checked(task: Task, url: Url, links: seq<string>)
    | Claimed(task: Task, url: Url, links: seq<string>)
    | Adding(task: Task, links: seq<string>)
    | Finishing(task: Task)
    | Exited
  {
    predicate Holds() {
      !Idle? && !Exited?
    }

    /** Between the moment a page is counted in and the worker's Done. */
    predicate Accepted() {
      Delivering? || Expanding? || Checked? || Claimed? || Adding?
    }

    predicate InLinks() {
      Expanding? || Checked? || Claimed? || Adding?
    }
  }

  datatype Main = Seeding(rest: seq<Url>) | Collecting(got: seq<Task>) | Returned(got: seq<Task>)

  /** `Woken` is the closer between the return of `wg.Wait` and `close(tasks)`. */
  datatype Closer = Waiting | Woken | TasksClosed | ResultsClosed | Cancelled

  datatype Crash = SendOnClosedTasks | SendOnClosedResults | NegativeWaitGroup

  datatype Expansion = Expansion(task: Task, links: seq<string>)

  datatype Answer = Answer(task: Task, outcome: Outcome)

  /** The shared variables, then the goroutines, then what has happened so far. The domain of `visited` is the
      program's map; its values remember the depth each key was claimed at. */
  datatype State = State(
    tasks: seq<Task>,
    results: seq<Task>,
    wg: int,
    processed: nat,
    visited: map<Key, nat>,
    workers: seq<Worker>,
    main: Main,
    closer: Closer,
    outerCancelled: bool,
    crash: Option<Crash>,
    sent: seq<Task>,
    done: seq<Task>,
    fetched: seq<Task>,
    answers: seq<Answer>,
    delivered: seq<Task>,
    expanded: seq<Expansion>)
  {
    predicate TasksAreClosed() {
      !closer.Waiting? && !closer.Woken?
    }

    predicate ResultsAreClosed() {
      closer.ResultsClosed? || closer.Cancelled?
    }

    predicate ContextDone() {
      outerCancelled || closer.Cancelled? || main.Returned?
    }

    predicate Started() {
      !main.Seeding?
    }

    function Move(w: nat, p: Worker): State
      requires w < |workers|
    {
      this.(workers := workers[w := p])
    }
  }

  /** One atomic step of a worker. */
  datatype Step =
    | Take
    | TakeClosed
    | SeeCancel
    | CapCheck
    | Fetch(outcome: Outcome)
    | Count
    | Deliver
    | NextLink
    | Claim
    | MakeOffer(offer: Offer)
    | AddToGroup
    | Finish

  datatype Action =
    | OuterCancel
    | Seed(offer: Offer)
    | Start
    | Work(w: nat, step: Step)
    | WaitReturns
    | CloseTasks
    | CloseResults
    | CancelContext
    | Collect
    | CollectEnd

  function Init(c: Config): State {
    State([], [], 0, 0, map[], seq(c.limits.workers, _ => Idle), Seeding(c.site.seeds), Waiting, false, None,
          [], [], [], [], [], [])
  }

  /** Which cases of the `select` in `enqueue` are ready. A closed channel is ready to panic. */
  predicate MayOffer(c: Config, s: State, offer: Offer) {
    var ready := s.TasksAreClosed() || |s.tasks| < c.limits.maxPages;
    match offer
    case Send => ready
    case Abandon => s.ContextDone()
    case Drop => !ready && !s.ContextDone()
  }

  /** Whether `enqueue(url, _)` gets as far as the `select` when nobody interferes. */
  predicate WillOffer(c: Config, s: State, url: Url) {
    s.processed < c.limits.maxPages && c.site.admits(url) && c.site.norm(url) !in s.visited
  }

  /** Whether a worker in state `p` can take a step. */
  predicate Ready(c: Config, s: State, p: Worker, step: Step) {
    match step
    case Take => p.Idle? && s.tasks != []
    case TakeClosed => p.Idle? && s.tasks == [] && s.TasksAreClosed()
    case SeeCancel => p.Idle? && s.ContextDone()
    case CapCheck => p.Received?
    case Fetch(_) => p.Fetching?
    case Count => p.Counting?
    case Deliver => p.Delivering? && (s.ResultsAreClosed() || |s.results| < c.limits.maxPages)
    case NextLink => p.Expanding?
    case Claim => p.Checked?
    case MakeOffer(offer) => p.Claimed? && MayOffer(c, s, offer)
    case AddToGroup => p.Adding?
    case Finish => p.Finishing?
  }

  /** The panic a step runs into, if any. */
  function Panic(s: State, step: Step): Option<Crash> {
    match step
    case Deliver => if s.ResultsAreClosed() then Some(SendOnClosedResults) else None
    case MakeOffer(Send) => if s.TasksAreClosed() then Some(SendOnClosedTasks) else None
    case Finish => if s.wg <= 0 then Some(NegativeWaitGroup) else None
    case _ => None
  }

  /** Where the step leaves the worker. */
  function Turn(c: Config, s: State, p: Worker, step: Step): Worker
    requires Ready(c, s, p, step) && Panic(s, step).None?
  {
    match step
    case Take => Received(s.tasks[0])
    case TakeClosed => Exited
    case SeeCancel => Exited
    case CapCheck => if s.processed >= c.limits.maxPages then Finishing(p.task) else Fetching(p.task)
    case Fetch(outcome) => if outcome.Page? then Counting(p.task, outcome.links) else Finishing(p.task)
    case Count =>
      if s.processed + 1 <= c.limits.maxPages then Delivering(p.task, p.links) else Finishing(p.task)
    case Deliver => if p.task.depth < c.limits.maxDepth then Expanding(p.task, p.links) else Finishing(p.task)
    case NextLink =>
      if p.links == [] then Finishing(p.task)
      else
        var target := c.site.resolve(p.links[0]);
        if target.Some? && s.processed < c.limits.maxPages && c.site.admits(target.value)
        then Checked(p.task, target.value, p.links[1..])
        else Expanding(p.task, p.links[1..])
    case Claim =>
      if c.site.norm(p.url) in s.visited then Expanding(p.task, p.links) else Claimed(p.task, p.url, p.links)
    case MakeOffer(offer) => if offer.Send? then Adding(p.task, p.links) else Expanding(p.task, p.links)
    case AddToGroup => Expanding(p.task, p.links)
    case Finish => Idle
  }

  /** What the step does to everything but the worker's own state. */
  function Effect(c: Config, s: State, p: Worker, step: Step): State
    requires Ready(c, s, p, step) && Panic(s, step).None?
  {
    match step
    case Take => s.(tasks := s.tasks[1..])
    case Fetch(outcome) => s.(fetched := s.fetched + [p.task], answers := s.answers + [Answer(p.task, outcome)])
    case Count => s.(processed := s.processed + 1)
    case Deliver =>
      s.(results := s.results + [p.task], delivered := s.delivered + [p.task],
         expanded := s.expanded + if p.task.depth < c.limits.maxDepth then [Expansion(p.task, p.links)] else [])
    case Claim =>
      if c.site.norm(p.url) in s.visited then s
      else s.(visited := s.visited[c.site.norm(p.url) := p.task.depth + 1])
    case MakeOffer(Send) =>
      s.(tasks := s.tasks + [Task(p.url, p.task.depth + 1)], sent := s.sent + [Task(p.url, p.task.depth + 1)])
    case AddToGroup => s.(wg := s.wg + 1)
    case Finish => s.(wg := s.wg - 1, done := s.done + [p.task])
    case _ => s
  }

  predicate Enabled(c: Config, s: State, a: Action) {
    && s.crash.None?
    && match a
       case OuterCancel => !s.outerCancelled
       case Seed(offer) =>
         && s.main.Seeding? && s.main.rest != []
         && if WillOffer(c, s, s.main.rest[0]) then MayOffer(c, s, offer) else offer.Drop?
       case Start => s.main.Seeding? && s.main.rest == []
       case Work(w, step) => s.Started() && w < |s.workers| && Ready(c, s, s.workers[w], step)
       case WaitReturns => s.Started() && s.closer.Waiting? && s.wg == 0
       case CloseTasks => s.closer.Woken?
       case CloseResults => s.closer.TasksClosed?
       case CancelContext => s.closer.ResultsClosed?
       case Collect => s.main.Collecting? && s.results != []
       case CollectEnd => s.main.Collecting? && s.results == [] && s.ResultsAreClosed()
  }

  /** `enqueue` of the first remaining seed. No other goroutine has been started, so it is one step. */
  function SeedNext(c: Config, s: State, offer: Offer): State
    requires Enabled(c, s, Seed(offer))
  {
    var url, s' := s.main.rest[0], s.(main := Seeding(s.main.rest[1..]));
    if !WillOffer(c, s, url) then s'
    else
      var claimed := s'.(visited := s.visited[c.site.norm(url) := 0]);
      if offer.Send? then
        claimed.(tasks := s.tasks + [Task(url, 0)], sent := s.sent + [Task(url, 0)], wg := s.wg + 1)
      else claimed
  }

  function Next(c: Config, s: State, a: Action): State
    requires Enabled(c, s, a)
  {
    match a
    case OuterCancel => s.(outerCancelled := true)
    case Seed(offer) => SeedNext(c, s, offer)
    case Start => s.(main := Collecting([]))
    case Work(w, step) =>
      var p := s.workers[w];
      if Panic(s, step).Some? then s.(crash := Panic(s, step))
      else Effect(c, s, p, step).Move(w, Turn(c, s, p, step))
    case WaitReturns => s.(closer := Woken)
    case CloseTasks => s.(closer := TasksClosed)
    case CloseResults => s.(closer := ResultsClosed)
    case CancelContext => s.(closer := Cancelled)
    case Collect =>
      s.(results := s.results[1..],
         main := if |s.main.got| >= c.limits.maxPages then Returned(s.main.got)
                 else Collecting(s.main.got + [s.results[0]]))
    case CollectEnd => s.(main := Returned(s.main.got))
  }

  /** The state after a sequence of actions, if each of them is enabled in turn. */
  function RunFrom(c: Config, s: State, acts: seq<Action>): Option<State>
    decreases |acts|
  {
    if acts == [] then Some(s)
    else if Enabled(c, s, acts[0]) then RunFrom(c, Next(c, s, acts[0]), acts[1..])
    else None
  }

  ghost predicate Reaches(c: Config, acts: seq<Action>, s: State) {
    RunFrom(c, Init(c), acts) == Some(s)
  }

  lemma {:induction false} RunExtend(c: Config, s: State, acts: seq<Action>, a: Action)
    requires RunFrom(c, s, acts).Some?
    requires Enabled(c, RunFrom(c, s, acts).value, a)
    ensures RunFrom(c, s, acts + [a]) == Some(Next(c, RunFrom(c, s, acts).value, a))
    decreases |acts|
  {
    if acts == [] {
      assert acts + [a] == [a];
      assert RunFrom(c, Next(c, s, a), [a][1..]) == Some(Next(c, s, a));
    } else {
      RunExtend(c, Next(c, s, acts[0]), acts[1..], a);
      assert (acts + [a])[1..] == acts[1..] + [a];
    }
  }

  // Sums and bags over the workers

  function Total(ws: seq<Worker>, f: Worker -> nat): nat {
    if ws == [] then 0 else f(ws[0]) + Total(ws[1..], f)
  }

  function Bag(ws: seq<Worker>, f: Worker -> multiset<Task>): multiset<Task> {
    if ws == [] then multiset{} else f(ws[0]) + Bag(ws[1..], f)
  }

  lemma {:induction false} TotalUpdate(ws: seq<Worker>, f: Worker -> nat, w: nat, p: Worker)
    requires w < |ws|
    ensures Total(ws[w := p], f) + f(ws[w]) == Total(ws, f) + f(p)
    ensures f(ws[w]) <= Total(ws, f)
  {
    if w == 0 {
      assert ws[0 := p][1..] == ws[1..];
    } else {
      TotalUpdate(ws[1..], f, w - 1, p);
      assert ws[w := p][1..] == ws[1..][w - 1 := p];
    }
  }

  lemma {:induction false} BagUpdate(ws: seq<Worker>, f: Worker -> multiset<Task>, w: nat, p: Worker)
    requires w < |ws|
    ensures Bag(ws[w := p], f) + f(ws[w]) == Bag(ws, f) + f(p)
    ensures f(ws[w]) <= Bag(ws, f)
  {
    var ws' := ws[w := p];
    if w == 0 {
      assert ws'[1..] == ws[1..];
    } else {
      BagUpdate(ws[1..], f, w - 1, p);
      assert ws'[1..] == ws[1..][w - 1 := p];
      calc {
        Bag(ws', f) + f(ws[w]);
        (f(ws[0]) + Bag(ws'[1..], f)) + f(ws[w]);
        f(ws[0]) + (Bag(ws[1..], f) + f(p));
        Bag(ws, f) + f(p);
      }
    }
  }

  lemma {:induction false} TotalZero(ws: seq<Worker>, f: Worker -> nat)
    ensures Total(ws, f) == 0 <==> forall i | 0 <= i < |ws| :: f(ws[i]) == 0
  {
    if ws != [] {
      TotalZero(ws[1..], f);
      assert forall i | 0 < i < |ws| :: ws[i] == ws[1..][i - 1];
    }
  }

  lemma {:induction false} BagEmpty(ws: seq<Worker>, f: Worker -> multiset<Task>)
    ensures Bag(ws, f) == multiset{} <==> forall i | 0 <= i < |ws| :: f(ws[i]) == multiset{}
  {
    if ws != [] {
      BagEmpty(ws[1..], f);
      assert forall i | 0 < i < |ws| :: ws[i] == ws[1..][i - 1];
      assert Bag(ws, f) == multiset{} <==> f(ws[0]) == multiset{} && Bag(ws[1..], f) == multiset{} by {
        assert f(ws[0]) <= Bag(ws, f) && Bag(ws[1..], f) <= Bag(ws, f);
      }
    }
  }

  function Held(p: Worker): multiset<Task> {
    if p.Holds() then multiset{p.task} else multiset{}
  }

  /** The tasks a worker has received and not yet handed to `processPage`. */
  function Unfetched(p: Worker): multiset<Task> {
    if p.Received? || p.Fetching? then multiset{p.task} else multiset{}
  }

  function IsAdding(p: Worker): nat {
    if p.Adding? then 1 else 0
  }

  function IsDelivering(p: Worker): nat {
    if p.Delivering? then 1 else 0
  }

  function HeldTasks(s: State): multiset<Task> {
    Bag(s.workers, Held)
  }

  /** The workers that have sent a child and not yet added it to the wait group. */
  function Unpaid(s: State): nat {
    Total(s.workers, IsAdding)
  }
}
