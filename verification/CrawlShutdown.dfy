/**
  When shutting down is safe: Wait returns only once nothing is queued or held, so nothing is sent on a closed channel
  afterwards. As written (the Add after the send) that depends on the limits of the request, and exactly how is proved
  here; with the send and its Add undisturbed it holds for any number of workers.
*/
module CrawlShutdown {
  import opened Basics
  import opened CrawlModel
  import opened CrawlLedger

  function IsWorking(p: Worker): nat {
    if p.Holds() && !p.Adding? then 1 else 0
  }

  /** The workers that hold a task and owe no Add. */
  function Working(s: State): nat {
    Total(s.workers, IsWorking)
  }

  lemma {:induction false} HeldSize(ws: seq<Worker>)
    ensures |Bag(ws, Held)| == Total(ws, IsWorking) + Total(ws, IsAdding)
  {
    if ws != [] {
      HeldSize(ws[1..]);
      assert |Held(ws[0])| == IsWorking(ws[0]) + IsAdding(ws[0]);
    }
  }

  /** The counter is the queue plus the workers that owe no Add, in every interleaving of any number of workers. It is
      never negative, and it can read zero only when every task still held is held by a worker between a send and its
      Add. */
  lemma {:induction false} GroupCounts(c: Config, s: State)
    requires Ledger(c, s)
    ensures s.wg == |s.tasks| + Working(s)
    ensures s.wg == 0 <==> s.tasks == [] && forall p | p in s.workers :: p.Holds() ==> p.Adding?
  {
    HeldSize(s.workers);
    assert |s.sent| == |multiset(s.sent)| == |s.tasks| + |HeldTasks(s)| + |s.done|;
    TotalZero(s.workers, IsWorking);
  }

  /** Once Wait has returned, no task is left anywhere. */
  ghost predicate Settled(s: State) {
    !s.closer.Waiting? ==> s.tasks == [] && forall p | p in s.workers :: !p.Holds()
  }

  /** The closer is not about to take a sender that still owes its Add for an idle one. */
  ghost predicate NoEarlyZero(s: State) {
    s.wg == 0 && s.closer.Waiting? ==> forall p | p in s.workers :: !p.Adding?
  }

  ghost predicate Safe(c: Config, s: State) {
    Ledger(c, s) && Settled(s) && s.crash.None?
  }

  lemma SafeInit(c: Config)
    ensures Safe(c, Init(c))
  {
    LedgerInit(c);
  }

  lemma FinishHasCredit(c: Config, s: State, w: nat)
    requires Ledger(c, s) && Enabled(c, s, Work(w, Finish))
    ensures s.wg > 0
  {
    GroupCounts(c, s);
    assert s.workers[w] in s.workers;
  }

  lemma SafeWork(c: Config, s: State, w: nat, step: Step)
    requires Safe(c, s) && Enabled(c, s, Work(w, step))
    ensures Panic(s, step).None?
  {
    assert s.workers[w] in s.workers;
    if step.Finish? {
      FinishHasCredit(c, s, w);
    }
  }

  lemma SettledWork(c: Config, s: State, w: nat, step: Step)
    requires Settled(s) && Enabled(c, s, Work(w, step)) && Panic(s, step).None?
    ensures Settled(Next(c, s, Work(w, step)))
  {
    var p, s' := s.workers[w], Next(c, s, Work(w, step));
    assert p in s.workers;
    EffectOnLedger(c, s, p, step);
    TurnHolds(c, s, p, step);
    assert s'.workers == s.workers[w := Turn(c, s, p, step)];
  }

  lemma SafeWake(c: Config, s: State)
    requires Safe(c, s) && NoEarlyZero(s) && Enabled(c, s, WaitReturns)
    ensures Settled(Next(c, s, WaitReturns))
  {
    GroupCounts(c, s);
  }

  lemma SafeStep(c: Config, s: State, a: Action)
    requires Safe(c, s) && NoEarlyZero(s) && Enabled(c, s, a)
    ensures Safe(c, Next(c, s, a))
  {
    LedgerStep(c, s, a);
    match a
    case Work(w, step) =>
      SafeWork(c, s, w, step);
      SettledWork(c, s, w, step);
      EffectOnLedger(c, s, s.workers[w], step);
    case WaitReturns => SafeWake(c, s);
    case Seed(_) =>
    case _ =>
  }

  /** No interleaving ever drives the wait group below zero. */
  lemma {:induction false} NeverNegative(c: Config, acts: seq<Action>, s: State)
    requires Reaches(c, acts, s)
    ensures s.wg >= 0 && s.crash != Some(NegativeWaitGroup)
  {
    LedgerInit(c);
    NeverNegativeFrom(c, Init(c), acts);
  }

  lemma {:induction false} NeverNegativeFrom(c: Config, s: State, acts: seq<Action>)
    requires Ledger(c, s) && s.crash != Some(NegativeWaitGroup) && RunFrom(c, s, acts).Some?
    ensures var end := RunFrom(c, s, acts).value; end.wg >= 0 && end.crash != Some(NegativeWaitGroup)
    decreases |acts|
  {
    GroupCounts(c, s);
    if acts != [] {
      var a := acts[0];
      LedgerStep(c, s, a);
      if a.Work? {
        if a.step.Finish? {
          FinishHasCredit(c, s, a.w);
        }
        if Panic(s, a.step).None? {
          EffectOnLedger(c, s, s.workers[a.w], a.step);
        }
      }
      NeverNegativeFrom(c, Next(c, s, a), acts[1..]);
    }
  }

  // One worker, or one page

  /** What keeps the counter honest when no other worker can receive the child before its Add, or when no worker ever
      gets as far as sending one. */
  ghost predicate Solo(c: Config, s: State) {
    && (c.limits.workers == 1 ==> OnlySender(s))
    && (c.limits.maxPages == 1 ==> NoSender(s))
  }

  ghost predicate OnlySender(s: State) {
    forall p | p in s.workers :: p.Adding? && s.closer.Waiting? ==> s.tasks != []
  }

  ghost predicate NoSender(s: State) {
    forall p | p in s.workers :: (p.Accepted() ==> s.processed >= 1) && !p.Checked? && !p.Claimed? && !p.Adding?
  }

  ghost predicate SafeLimits(l: Limits) {
    l.workers == 1 || l.maxPages == 1
  }

  lemma SoloIsHonest(c: Config, s: State)
    requires Ledger(c, s) && |s.workers| > 0 && Solo(c, s) && SafeLimits(c.limits)
    ensures NoEarlyZero(s)
  {
    GroupCounts(c, s);
  }

  lemma SoloStep(c: Config, s: State, a: Action)
    requires c.limits.Positive() && Safe(c, s) && Solo(c, s) && Enabled(c, s, a)
    ensures |Next(c, s, a).workers| > 0 && Solo(c, Next(c, s, a))
  {
    LedgerStep(c, s, a);
    if c.limits.maxPages == 1 {
      NoSenderStep(c, s, a);
    }
    if c.limits.workers == 1 {
      OnlySenderStep(c, s, a);
    }
  }

  lemma NoSenderStep(c: Config, s: State, a: Action)
    requires c.limits.maxPages == 1 && NoSender(s) && Enabled(c, s, a)
    ensures NoSender(Next(c, s, a))
  {
    if a.Work? && Panic(s, a.step).None? {
      var p := s.workers[a.w];
      assert p in s.workers;
      EffectOnLedger(c, s, p, a.step);
      TurnOnePage(c, s, p, a.step);
      assert Next(c, s, a).workers == s.workers[a.w := Turn(c, s, p, a.step)];
    }
  }

  lemma OnlySenderStep(c: Config, s: State, a: Action)
    requires c.limits.workers == 1 && Ledger(c, s) && OnlySender(s) && Enabled(c, s, a)
    ensures OnlySender(Next(c, s, a))
  {
    if a.Work? && Panic(s, a.step).None? {
      EffectOnLedger(c, s, s.workers[a.w], a.step);
      SoloSend(c, s, s.workers[a.w], a.step);
    }
  }

  lemma TurnOnePage(c: Config, s: State, p: Worker, step: Step)
    requires Ready(c, s, p, step) && Panic(s, step).None?
    requires c.limits.maxPages == 1 && (p.Accepted() ==> s.processed >= 1) && !p.Checked? && !p.Claimed? && !p.Adding?
    ensures var s', p' := Effect(c, s, p, step), Turn(c, s, p, step);
      && s'.processed >= s.processed
      && (p'.Accepted() ==> s'.processed >= 1) && !p'.Checked? && !p'.Claimed? && !p'.Adding?
  {
  }

  lemma SoloSend(c: Config, s: State, p: Worker, step: Step)
    requires Ready(c, s, p, step) && Panic(s, step).None?
    ensures Turn(c, s, p, step).Adding? ==> Effect(c, s, p, step).tasks != []
  {
  }

  lemma SoloInit(c: Config)
    requires c.limits.Positive()
    ensures Safe(c, Init(c)) && Solo(c, Init(c))
  {
    SafeInit(c);
  }

  lemma {:induction false} SoloRun(c: Config, s: State, acts: seq<Action>)
    requires c.limits.Positive() && SafeLimits(c.limits) && Safe(c, s) && Solo(c, s) && RunFrom(c, s, acts).Some?
    ensures Safe(c, RunFrom(c, s, acts).value) && NoEarlyZero(RunFrom(c, s, acts).value)
    ensures Solo(c, RunFrom(c, s, acts).value)
    decreases |acts|
  {
    SoloIsHonest(c, s);
    if acts != [] {
      SafeStep(c, s, acts[0]);
      SoloStep(c, s, acts[0]);
      SoloRun(c, Next(c, s, acts[0]), acts[1..]);
    }
  }

  // Sends that are paid at once

  /** Every send on `tasks` by a worker is followed at once by that worker's Add. */
  ghost predicate Undisturbed(acts: seq<Action>) {
    forall i | 0 <= i < |acts| ::
      acts[i].Work? && acts[i].step == MakeOffer(Send) ==> i + 1 < |acts| && acts[i + 1] == Work(acts[i].w, AddToGroup)
  }

  ghost predicate NobodyAdding(s: State) {
    forall p | p in s.workers :: !p.Adding?
  }

  /** With any number of workers: if no other goroutine moves between a send and its Add, shutdown is safe. */
  lemma {:induction false} UndisturbedRun(c: Config, s: State, acts: seq<Action>)
    requires Safe(c, s) && NobodyAdding(s) && RunFrom(c, s, acts).Some? && Undisturbed(acts)
    ensures Safe(c, RunFrom(c, s, acts).value)
    decreases |acts|
  {
    if acts != [] {
      var a, s1, rest := acts[0], Next(c, s, acts[0]), acts[1..];
      UndisturbedTail(acts);
      if a.Work? && a.step == MakeOffer(Send) {
        var add := Work(a.w, AddToGroup);
        PaidSend(c, s, a.w);
        UndisturbedTail(rest);
        UndisturbedRun(c, Next(c, s1, add), rest[1..]);
      } else {
        SafeStep(c, s, a);
        NoNewAdder(c, s, a);
        UndisturbedRun(c, s1, rest);
      }
    }
  }

  lemma UndisturbedTail(acts: seq<Action>)
    requires acts != [] && Undisturbed(acts)
    ensures Undisturbed(acts[1..])
    ensures acts[0].Work? && acts[0].step == MakeOffer(Send) ==>
              acts[1..] != [] && acts[1..][0] == Work(acts[0].w, AddToGroup)
  {
    assert forall i | 0 <= i < |acts| - 1 :: acts[1..][i] == acts[i + 1];
  }

  lemma {:induction false} PaidSend(c: Config, s: State, w: nat)
    requires Safe(c, s) && NobodyAdding(s) && Enabled(c, s, Work(w, MakeOffer(Send)))
    ensures var s1 := Next(c, s, Work(w, MakeOffer(Send)));
      && Enabled(c, s1, Work(w, AddToGroup))
      && Safe(c, Next(c, s1, Work(w, AddToGroup))) && NobodyAdding(Next(c, s1, Work(w, AddToGroup)))
  {
    var s1 := Next(c, s, Work(w, MakeOffer(Send)));
    SendUnpaid(c, s, w);
    SafeStep(c, s, Work(w, MakeOffer(Send)));
    GroupCounts(c, s1);
    SafeStep(c, s1, Work(w, AddToGroup));
    AddPays(c, s, s1, w);
  }

  lemma SendUnpaid(c: Config, s: State, w: nat)
    requires Safe(c, s) && Enabled(c, s, Work(w, MakeOffer(Send)))
    ensures NoEarlyZero(s) || !NobodyAdding(s)
    ensures var s1 := Next(c, s, Work(w, MakeOffer(Send)));
      s1.tasks != [] && s1.crash.None? && s1.Started() && |s1.workers| == |s.workers| && s1.workers[w].Adding?
      && forall i | 0 <= i < |s.workers| && i != w :: s1.workers[i] == s.workers[i]
  {
    SafeWork(c, s, w, MakeOffer(Send));
  }

  lemma AddPays(c: Config, s: State, s1: State, w: nat)
    requires NobodyAdding(s) && |s1.workers| == |s.workers| && Enabled(c, s1, Work(w, AddToGroup))
    requires forall i | 0 <= i < |s.workers| && i != w :: s1.workers[i] == s.workers[i]
    ensures NobodyAdding(Next(c, s1, Work(w, AddToGroup)))
  {
  }

  lemma NoNewAdder(c: Config, s: State, a: Action)
    requires Safe(c, s) && NobodyAdding(s) && Enabled(c, s, a) && !(a.Work? && a.step == MakeOffer(Send))
    ensures NobodyAdding(Next(c, s, a))
  {
    if a.Work? {
      assert s.workers[a.w] in s.workers;
      SafeWork(c, s, a.w, a.step);
      TurnHolds(c, s, s.workers[a.w], a.step);
      EffectOnLedger(c, s, s.workers[a.w], a.step);
    }
  }
}
