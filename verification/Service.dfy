/** The asynchronous service: workers, producers and a releasing caller interleaved around the monitor in any order. */
module Services {
  import opened Batches
  import opened BatchingPools
  import opened Monitors

  /** What a worker thread is doing: waiting on the monitor, translating a batch on behalf of a model it keeps alive,
      owing the acknowledgement of a maintenance pass, or gone after the shutdown. */
  datatype Phase = Idle | Busy(model: nat, batch: seq<Sentence>) | Owing | Gone
  datatype Worker = Worker(seen: nat, phase: Phase)

  datatype Job = Job(model: nat, batch: seq<Sentence>)

  /** `releasing` says a maintenance round is waiting for acknowledgements; rounds are serialised. `log` lists every
      batch drawn so far, `submitted` every fresh sentence handed in, `used` the request ids given out. */
  datatype Service = Service(m: Monitor, workers: seq<Worker>, releasing: bool,
                             used: set<nat>, submitted: multiset<Sentence>, log: seq<Job>)

  datatype Step =
    | SubmitOne(model: nat, request: Request)
    | SubmitAll(model: nat, requests: seq<Request>)
    | DrawBatch(w: nat, model: nat, skipped: set<nat>)
    | FinishBatch(w: nat)
    | NoticeMaintenance(w: nat)
    | Acknowledge(w: nat)
    | StartRound
    | EndRound
    | ShutDown
    | Leave(w: nat)

  ghost predicate Welcome(s: Service, model: nat, rs: seq<Request>) {
    && !s.m.shutdown && model < |s.m.pools| && DistinctIds(rs)
    && forall r <- rs :: r.Valid() && r.id !in s.used && (forall l <- r.segments :: l <= s.m.pools[model].words)
  }

  ghost predicate IsIdle(s: Service, w: nat) {
    w < |s.workers| && s.workers[w].phase == Idle
  }

  ghost predicate UpToDate(s: Service, w: nat) {
    IsIdle(s, w) && s.workers[w].seen == s.m.epoch
  }

  ghost predicate Enabled(s: Service, step: Step) {
    match step
    case SubmitOne(model, r) => Welcome(s, model, [r]) && r.Valid()
    case SubmitAll(model, rs) => Welcome(s, model, rs)
    case DrawBatch(w, model, skipped) => UpToDate(s, w) && CanDraw(s.m, model, skipped)
    case FinishBatch(w) => w < |s.workers| && s.workers[w].phase.Busy?
    case NoticeMaintenance(w) => IsIdle(s, w) && s.workers[w].seen != s.m.epoch
    case Acknowledge(w) => w < |s.workers| && s.workers[w].phase == Owing
    case StartRound => !s.releasing && !s.m.shutdown && s.m.consumers > 0
    case EndRound => s.releasing && (s.m.acked >= s.m.consumers || s.m.shutdown)
    case ShutDown => true
    case Leave(w) => UpToDate(s, w) && s.m.shutdown && s.m.enqueued == 0
  }

  ghost function WithPhase(s: Service, w: nat, phase: Phase): Service
    requires w < |s.workers|
  {
    s.(workers := s.workers[w := s.workers[w].(phase := phase)])
  }

  ghost function Next(s: Service, step: Step): Service
    requires Enabled(s, step)
  {
    match step
    case SubmitOne(model, r) =>
      s.(m := Enqueue(s.m, model, r), used := s.used + {r.id}, submitted := s.submitted + multiset(Fresh(r)))
    case SubmitAll(model, rs) =>
      s.(m := EnqueueAll(s.m, model, rs, |s.workers|), used := s.used + (set r <- rs :: r.id),
         submitted := s.submitted + multiset(FreshOfAll(rs)))
    case DrawBatch(w, model, skipped) =>
      var batch := s.m.pools[model].Batch();
      WithPhase(s, w, Busy(model, batch)).(m := Draw(s.m, model, skipped), log := s.log + [Job(model, batch)])
    case FinishBatch(w) => WithPhase(s, w, Idle)
    case NoticeMaintenance(w) => s.(workers := s.workers[w := Worker(s.m.epoch, Owing)])
    case Acknowledge(w) => WithPhase(s, w, Idle).(m := s.m.(acked := s.m.acked + 1))
    case StartRound => s.(m := BeginMaintenance(s.m), releasing := true)
    case EndRound => s.(releasing := false)
    case ShutDown => s.(m := s.m.(shutdown := true))
    case Leave(w) => WithPhase(s, w, Gone).(m := Clear(s.m))
  }

  /** `steps` can be taken one after the other from `s`. */
  ghost predicate Legal(s: Service, steps: seq<Step>)
    decreases steps
  {
    steps == [] || (Enabled(s, steps[0]) && Legal(Next(s, steps[0]), steps[1..]))
  }

  ghost function Run(s: Service, steps: seq<Step>): Service
    requires Legal(s, steps)
    decreases steps
  {
    if steps == [] then s else Run(Next(s, steps[0]), steps[1..])
  }

  /** A freshly constructed service: drained pools, workers that have seen epoch 0. */
  ghost predicate Initial(s: Service) {
    && s.m.pools != [] && |s.workers| > 0
    && (forall i :: 0 <= i < |s.m.pools| ==> s.m.pools[i].Valid() && s.m.pools[i].waiting == [])
    && s.m == Monitor(s.m.pools, {}, 0, false, |s.workers|, 0, 0)
    && (forall w :: 0 <= w < |s.workers| ==> s.workers[w] == Worker(0, Idle))
    && !s.releasing && s.used == {} && s.submitted == multiset{} && s.log == []
  }

  // ---- What every run keeps ----

  ghost function DrawnIn(log: seq<Job>): multiset<Sentence> {
    if log == [] then multiset{} else DrawnIn(log[..|log| - 1]) + multiset(log[|log| - 1].batch)
  }

  ghost function OwingIn(ws: seq<Worker>): nat {
    if ws == [] then 0 else (if ws[0].phase == Owing then 1 else 0) + OwingIn(ws[1..])
  }

  ghost function BehindIn(ws: seq<Worker>, epoch: nat): nat {
    if ws == [] then 0 else (if ws[0].seen != epoch then 1 else 0) + BehindIn(ws[1..], epoch)
  }

  /** Every submitted sentence is in exactly one place: one pool or one drawn batch. */
  ghost predicate Conserved(s: Service) {
    && WaitingIn(s.m.pools) + DrawnIn(s.log) == s.submitted
    && forall x <- s.submitted :: s.submitted[x] == 1 && x.request in s.used
  }

  /** The acknowledgement ledger of the current epoch. */
  ghost predicate Ledger(s: Service) {
    && s.m.consumers == |s.workers|
    && (forall w :: 0 <= w < |s.workers| ==> s.workers[w].seen <= s.m.epoch)
    && (forall w :: 0 <= w < |s.workers| && (s.workers[w].phase == Owing || s.workers[w].phase == Gone) ==>
        s.workers[w].seen == s.m.epoch)
    && (forall w :: 0 <= w < |s.workers| && s.workers[w].phase == Gone ==> s.m.shutdown)
    && (if s.m.epoch == 0 then s.m.acked == 0 && !s.releasing && OwingIn(s.workers) == 0
        else s.m.acked + OwingIn(s.workers) + BehindIn(s.workers, s.m.epoch) == |s.workers|)
    && (s.m.epoch > 0 && !s.releasing && !s.m.shutdown ==> s.m.acked == |s.workers|)
  }

  ghost predicate Inv(s: Service) {
    Accounted(s.m) && Conserved(s) && Ledger(s)
  }

  lemma {:induction false} CountsUpdate(ws: seq<Worker>, w: nat, x: Worker, epoch: nat)
    requires w < |ws|
    ensures OwingIn(ws[w := x]) + (if ws[w].phase == Owing then 1 else 0)
            == OwingIn(ws) + (if x.phase == Owing then 1 else 0)
    ensures BehindIn(ws[w := x], epoch) + (if ws[w].seen != epoch then 1 else 0)
         == BehindIn(ws, epoch) + (if x.seen != epoch then 1 else 0)
  {
    if w == 0 {
      assert ws[0 := x][1..] == ws[1..];
    } else {
      assert ws[w := x][1..] == ws[1..][w - 1 := x];
      CountsUpdate(ws[1..], w - 1, x, epoch);
    }
  }

  lemma {:induction false} AllBehind(ws: seq<Worker>, epoch: nat)
    requires forall w :: 0 <= w < |ws| ==> ws[w].seen < epoch
    ensures BehindIn(ws, epoch) == |ws|
  {
    if ws != [] { AllBehind(ws[1..], epoch); }
  }

  lemma {:induction false} NoneLeft(ws: seq<Worker>, epoch: nat)
    requires OwingIn(ws) + BehindIn(ws, epoch) == 0
    ensures forall w :: 0 <= w < |ws| ==> ws[w].phase != Owing && ws[w].seen == epoch
  {
    if ws != [] {
      NoneLeft(ws[1..], epoch);
      forall w | 0 <= w < |ws| ensures ws[w].phase != Owing && ws[w].seen == epoch {
        if w > 0 { assert ws[w] == ws[1..][w - 1]; }
      }
    }
  }

  lemma {:induction false} SomeLeft(ws: seq<Worker>, epoch: nat)
    requires OwingIn(ws) + BehindIn(ws, epoch) > 0
    ensures exists w :: 0 <= w < |ws| && (ws[w].phase == Owing || ws[w].seen != epoch)
  {
    if ws != [] && ws[0].phase != Owing && ws[0].seen == epoch {
      SomeLeft(ws[1..], epoch);
      var w :| 0 <= w < |ws[1..]| && (ws[1..][w].phase == Owing || ws[1..][w].seen != epoch);
      assert ws[w + 1] == ws[1..][w];
    }
  }

  lemma InitialInv(s: Service)
    requires Initial(s)
    ensures Inv(s)
  {
    NothingWaits(s.m.pools);
    NobodyOwes(s.workers);
  }

  lemma {:induction false} NobodyOwes(ws: seq<Worker>)
    requires forall w :: 0 <= w < |ws| ==> ws[w].phase != Owing
    ensures OwingIn(ws) == 0
  {
    if ws != [] { NobodyOwes(ws[1..]); }
  }

  lemma {:induction false} NobodyOwing(ws: seq<Worker>, w: nat)
    requires OwingIn(ws) == 0 && w < |ws|
    ensures ws[w].phase != Owing
  {
    if w > 0 { NobodyOwing(ws[1..], w - 1); }
  }

  lemma RoundStarts(s: Service)
    requires Ledger(s) && Enabled(s, StartRound)
    ensures Ledger(Next(s, StartRound))
  {
    AllBehind(s.workers, s.m.epoch + 1);
    assert OwingIn(s.workers) == 0;
    forall w | 0 <= w < |s.workers| ensures s.workers[w].phase != Owing && s.workers[w].phase != Gone {
      NobodyOwing(s.workers, w);
    }
  }

  lemma LedgerKept(s: Service, step: Step)
    requires Ledger(s) && Enabled(s, step)
    ensures Ledger(Next(s, step))
  {
    if step.DrawBatch? || step.FinishBatch? || step.Leave? {
      BatchStepKeepsLedger(s, step);
    } else if step.NoticeMaintenance? || step.Acknowledge? {
      RoundStepKeepsLedger(s, step);
    } else if step.StartRound? {
      RoundStarts(s);
    }
  }

  lemma {:induction false} BatchStepKeepsLedger(s: Service, step: Step)
    requires Ledger(s) && Enabled(s, step) && (step.DrawBatch? || step.FinishBatch? || step.Leave?)
    ensures Ledger(Next(s, step))
  {
    var w := step.w;
    var after := Next(s, step).workers[w];
    CountsUpdate(s.workers, w, after, s.m.epoch);
    assert after.phase != Owing && after.seen == s.workers[w].seen;
  }

  lemma {:induction false} RoundStepKeepsLedger(s: Service, step: Step)
    requires Ledger(s) && Enabled(s, step) && (step.NoticeMaintenance? || step.Acknowledge?)
    ensures Ledger(Next(s, step))
  {
    match step
    case NoticeMaintenance(w) => CountsUpdate(s.workers, w, Worker(s.m.epoch, Owing), s.m.epoch);
    case Acknowledge(w) => CountsUpdate(s.workers, w, s.workers[w].(phase := Idle), s.m.epoch);
  }

  /** New ids are in nobody's waiting line. */
  lemma FreshIdsCanEnqueue(s: Service, model: nat, rs: seq<Request>)
    requires Accounted(s.m) && Conserved(s) && Welcome(s, model, rs)
    ensures CanEnqueue(s.m, model, rs)
  {
    forall r | r in rs ensures NoneOf(s.m.pools[model].waiting, r.id) {
      forall x | x in s.m.pools[model].waiting ensures x.request != r.id {
        WaitingContains(s.m.pools, model);
        assert x in multiset(s.m.pools[model].waiting);
        assert x in s.submitted;
      }
    }
  }

  lemma SubmissionConserved(s: Service, xs: seq<Sentence>, pools: seq<Pool>, ids: set<nat>)
    requires Conserved(s) && Distinct(xs)
    requires WaitingIn(pools) == WaitingIn(s.m.pools) + multiset(xs)
    requires forall x <- xs :: x.request in ids && x.request !in s.used
    ensures WaitingIn(pools) + DrawnIn(s.log) == s.submitted + multiset(xs)
    ensures forall x <- s.submitted + multiset(xs) :: (s.submitted + multiset(xs))[x] == 1 && x.request in s.used + ids
  {
    forall x | x in s.submitted + multiset(xs)
      ensures (s.submitted + multiset(xs))[x] == 1 && x.request in s.used + ids {
      if x in xs {
        DistinctOnce(xs, x);
        assert x !in s.submitted;
      }
    }
  }

  lemma {:induction false} DistinctOnce(xs: seq<Sentence>, x: Sentence)
    requires Distinct(xs) && x in xs
    ensures multiset(xs)[x] == 1
  {
    assert xs == [xs[0]] + xs[1..];
    if xs[0] != x {
      DistinctOnce(xs[1..], x);
    } else {
      assert x !in xs[1..];
    }
  }

  lemma ConservedKept(s: Service, step: Step)
    requires Accounted(s.m) && Conserved(s) && Enabled(s, step)
    ensures Accounted(Next(s, step).m) && Conserved(Next(s, step))
  {
    match step
    case SubmitOne(_, _) => SubmissionKept(s, step);
    case SubmitAll(_, _) => SubmissionKept(s, step);
    case DrawBatch(_, _, _) => DrawKept(s, step);
    case StartRound => MaintenanceAccounted(s.m);
    case Leave(w) => ClearAccountedIff(s.m);
    case _ =>
  }

  lemma {:induction false} DrawKept(s: Service, step: Step)
    requires Accounted(s.m) && Conserved(s) && Enabled(s, step) && step.DrawBatch?
    ensures Accounted(Next(s, step).m) && Conserved(Next(s, step))
  {
    DrawAccounted(s.m, step.model, step.skipped);
    assert Next(s, step).log[..|s.log|] == s.log;
    Moved(WaitingIn(s.m.pools), WaitingIn(Next(s, step).m.pools), multiset(s.m.pools[step.model].Batch()),
          DrawnIn(s.log));
  }

  lemma Moved<T>(all: multiset<T>, left: multiset<T>, taken: multiset<T>, before: multiset<T>)
    requires all == left + taken
    ensures left + (before + taken) == all + before
  {}

  lemma SubmissionKept(s: Service, step: Step)
    requires Accounted(s.m) && Conserved(s) && Enabled(s, step) && (step.SubmitOne? || step.SubmitAll?)
    ensures Accounted(Next(s, step).m) && Conserved(Next(s, step))
  {
    match step
    case SubmitOne(model, r) =>
      FreshIdsCanEnqueue(s, model, [r]);
      EnqueueAccounted(s.m, model, r);
      FreshDistinct(r, |r.segments|);
      FreshShape(r, |r.segments|);
      assert r in [r];
      SubmissionConserved(s, Fresh(r), Enqueue(s.m, model, r).pools, {r.id});
    case SubmitAll(model, rs) =>
      FreshIdsCanEnqueue(s, model, rs);
      EnqueueAllAccounted(s.m, model, rs, |s.workers|);
      FreshOfAllDistinct(rs);
      SubmissionConserved(s, FreshOfAll(rs), EnqueueAll(s.m, model, rs, |s.workers|).pools, set r <- rs :: r.id);
  }

  /** Every state of every run keeps the accounting, conserves the sentences and balances the ledger. */
  lemma InvKept(s: Service, step: Step)
    requires Inv(s) && Enabled(s, step)
    ensures Inv(Next(s, step))
  {
    ConservedKept(s, step);
    LedgerKept(s, step);
  }

  lemma {:induction false} RunInv(s: Service, steps: seq<Step>)
    requires Inv(s) && Legal(s, steps)
    ensures Inv(Run(s, steps))
    decreases steps
  {
    if steps != [] {
      InvKept(s, steps[0]);
      RunInv(Next(s, steps[0]), steps[1..]);
    }
  }
}
