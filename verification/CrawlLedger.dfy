/**
  What the wait group counts. In every reachable state of every interleaving each task that was ever sent is in the
  channel, held by one worker, or done, and the counter trails that number by the sends whose Add is still to come.
*/
module CrawlLedger {
  import opened Basics
  import opened CrawlModel

  ghost predicate Conserved(s: State) {
    && multiset(s.sent) == multiset(s.tasks) + HeldTasks(s) + multiset(s.done)
    && s.wg == |s.sent| - |s.done| - Unpaid(s)
  }

  ghost predicate BeforeStart(c: Config, s: State) {
    s.main.Seeding? ==>
      && (forall p | p in s.workers :: p.Idle?)
      && s.closer.Waiting? && s.processed == 0 && s.delivered == s.results == [] && s.expanded == []
  }

  ghost predicate Ledger(c: Config, s: State) {
    && |s.workers| == c.limits.workers
    && BeforeStart(c, s)
    && Conserved(s)
  }

  lemma {:induction false} LedgerInit(c: Config)
    ensures Ledger(c, Init(c))
  {
    BagEmpty(Init(c).workers, Held);
    TotalZero(Init(c).workers, IsAdding);
  }

  lemma {:induction false} MoveLedger(s: State, w: nat, p: Worker)
    requires w < |s.workers|
    ensures HeldTasks(s.Move(w, p)) + Held(s.workers[w]) == HeldTasks(s) + Held(p)
    ensures Held(s.workers[w]) <= HeldTasks(s)
    ensures Unpaid(s.Move(w, p)) + IsAdding(s.workers[w]) == Unpaid(s) + IsAdding(p)
    ensures IsAdding(s.workers[w]) <= Unpaid(s)
  {
    BagUpdate(s.workers, Held, w, p);
    TotalUpdate(s.workers, IsAdding, w, p);
  }

  /** A step changes what its worker holds only by receiving a task or by finishing one, and whether it owes an Add
      only by sending or by adding. */
  lemma TurnHolds(c: Config, s: State, p: Worker, step: Step)
    requires Ready(c, s, p, step) && Panic(s, step).None?
    ensures var p' := Turn(c, s, p, step);
      && (step.Take? ==> !p.Holds() && p'.Holds() && p'.task == s.tasks[0])
      && (step.Finish? ==> p.Holds() && !p'.Holds())
      && (!step.Take? && !step.Finish? ==> p.Holds() == p'.Holds() && (p.Holds() ==> p'.task == p.task))
      && (step == MakeOffer(Send) ==> !p.Adding? && p'.Adding?)
      && (step.AddToGroup? ==> p.Adding? && !p'.Adding?)
      && (step != MakeOffer(Send) && !step.AddToGroup? ==> !p.Adding? && !p'.Adding?)
  {
  }

  lemma EffectOnLedger(c: Config, s: State, p: Worker, step: Step)
    requires Ready(c, s, p, step) && Panic(s, step).None?
    ensures var s' := Effect(c, s, p, step);
      && s'.workers == s.workers && s'.main == s.main && s'.closer == s.closer && s'.crash == s.crash
      && (!step.Take? && step != MakeOffer(Send) ==> s'.tasks == s.tasks)
      && (step != MakeOffer(Send) ==> s'.sent == s.sent)
      && (!step.Finish? ==> s'.done == s.done)
      && (!step.Finish? && !step.AddToGroup? ==> s'.wg == s.wg)
  {
  }

  lemma Cancel(a: multiset<Task>, b: multiset<Task>, x: multiset<Task>)
    requires a + x == b + x
    ensures a == b
  {
    assert a == (a + x) - x;
    assert b == (b + x) - x;
  }

  lemma {:induction false} TakeHolds(c: Config, s: State, w: nat)
    requires Enabled(c, s, Work(w, Take))
    ensures var s', t := Next(c, s, Work(w, Take)), s.tasks[0];
      HeldTasks(s') == HeldTasks(s) + multiset{t} && Unpaid(s') == Unpaid(s)
  {
    var p' := Received(s.tasks[0]);
    MoveLedger(s, w, p');
    assert Next(c, s, Work(w, Take)).workers == s.Move(w, p').workers;
  }

  lemma {:induction false} TakeConserved(c: Config, s: State, w: nat)
    requires Conserved(s) && Enabled(c, s, Work(w, Take))
    ensures Conserved(Next(c, s, Work(w, Take)))
  {
    TakeHolds(c, s, w);
    assert s.tasks == [s.tasks[0]] + s.tasks[1..];
    assert multiset(s.tasks) == multiset{s.tasks[0]} + multiset(s.tasks[1..]);
  }

  lemma {:induction false} FinishConserved(c: Config, s: State, w: nat)
    requires Conserved(s) && Enabled(c, s, Work(w, Finish)) && s.wg > 0
    ensures Conserved(Next(c, s, Work(w, Finish)))
  {
    var t, s' := s.workers[w].task, Next(c, s, Work(w, Finish));
    MoveLedger(s, w, Idle);
    assert s'.workers == s.Move(w, Idle).workers;
    assert multiset(s'.done) == multiset(s.done) + multiset{t};
    assert HeldTasks(s) == HeldTasks(s') + multiset{t};
  }

  lemma {:induction false} OtherHolds(c: Config, s: State, w: nat, step: Step)
    requires Enabled(c, s, Work(w, step)) && Panic(s, step).None?
    requires !step.Take? && !step.Finish?
    ensures var p, s' := s.workers[w], Next(c, s, Work(w, step));
      HeldTasks(s') == HeldTasks(s) && Unpaid(s') + IsAdding(p) == Unpaid(s) + IsAdding(Turn(c, s, p, step))
  {
    var p, s' := s.workers[w], Next(c, s, Work(w, step));
    var p' := Turn(c, s, p, step);
    TurnHolds(c, s, p, step);
    EffectOnLedger(c, s, p, step);
    MoveLedger(s, w, p');
    assert s'.workers == s.Move(w, p').workers;
    assert Held(p') == Held(p);
    Cancel(HeldTasks(s'), HeldTasks(s), Held(p));
  }

  lemma {:induction false} SendConserved(c: Config, s: State, w: nat)
    requires Conserved(s) && Enabled(c, s, Work(w, MakeOffer(Send))) && Panic(s, MakeOffer(Send)).None?
    ensures Conserved(Next(c, s, Work(w, MakeOffer(Send))))
  {
    OtherHolds(c, s, w, MakeOffer(Send));
    TurnHolds(c, s, s.workers[w], MakeOffer(Send));
  }

  lemma {:induction false} OtherConserved(c: Config, s: State, w: nat, step: Step)
    requires Conserved(s) && Enabled(c, s, Work(w, step)) && Panic(s, step).None?
    requires !step.Take? && !step.Finish? && step != MakeOffer(Send)
    ensures Conserved(Next(c, s, Work(w, step)))
  {
    OtherHolds(c, s, w, step);
    TurnHolds(c, s, s.workers[w], step);
    EffectOnLedger(c, s, s.workers[w], step);
  }

  lemma {:induction false} SeedConserved(c: Config, s: State, offer: Offer)
    requires Conserved(s) && Enabled(c, s, Seed(offer))
    ensures Conserved(SeedNext(c, s, offer))
  {
  }

  lemma {:induction false} LedgerStep(c: Config, s: State, a: Action)
    requires Ledger(c, s) && Enabled(c, s, a)
    ensures Ledger(c, Next(c, s, a))
  {
    BeforeStartStep(c, s, a);
    ConservedStep(c, s, a);
  }

  lemma BeforeStartStep(c: Config, s: State, a: Action)
    requires BeforeStart(c, s) && Enabled(c, s, a)
    ensures BeforeStart(c, Next(c, s, a)) && |Next(c, s, a).workers| == |s.workers|
  {
    if a.Work? && Panic(s, a.step).None? {
      EffectOnLedger(c, s, s.workers[a.w], a.step);
    }
  }

  lemma {:induction false} ConservedStep(c: Config, s: State, a: Action)
    requires Conserved(s) && Enabled(c, s, a)
    ensures Conserved(Next(c, s, a))
  {
    match a
    case Work(w, step) =>
      if Panic(s, step).None? {
        WorkConserved(c, s, w, step);
      }
    case Seed(offer) => SeedConserved(c, s, offer);
    case _ =>
  }

  lemma {:induction false} WorkConserved(c: Config, s: State, w: nat, step: Step)
    requires Conserved(s) && Enabled(c, s, Work(w, step)) && Panic(s, step).None?
    ensures Conserved(Next(c, s, Work(w, step)))
  {
    if step.Take? {
      TakeConserved(c, s, w);
    } else if step.Finish? {
      FinishConserved(c, s, w);
    } else if step == MakeOffer(Send) {
      SendConserved(c, s, w);
    } else {
      OtherConserved(c, s, w, step);
    }
  }

  /** The conservation law, over every interleaving, crashed or not. */
  lemma {:induction false} LedgerRun(c: Config, s: State, acts: seq<Action>)
    requires Ledger(c, s) && RunFrom(c, s, acts).Some?
    ensures Ledger(c, RunFrom(c, s, acts).value)
    decreases |acts|
  {
    if acts != [] {
      LedgerStep(c, s, acts[0]);
      LedgerRun(c, Next(c, s, acts[0]), acts[1..]);
    }
  }
}
