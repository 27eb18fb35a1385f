/** What holds over whole runs of the service, whatever the schedule. */
module Schedules {
  import opened Basics
  import opened Batches
  import opened BatchBounds
  import opened BatchingPools
  import opened Monitors
  import opened ThreadsafePools
  import opened Services

  /** Each fresh sentence ever submitted is, at any moment of any run, in one pool or in one drawn batch, once. */
  lemma EverySentenceOnce(s: Service, steps: seq<Step>, x: Sentence)
    requires Initial(s) && Legal(s, steps)
    ensures var e := Run(s, steps);
            && WaitingIn(e.m.pools)[x] + DrawnIn(e.log)[x] == (if x in e.submitted then 1 else 0)
            && e.m.enqueued == |WaitingIn(e.m.pools)|
  {
    InitialInv(s);
    RunInv(s, steps);
    var e := Run(s, steps);
    assert (WaitingIn(e.m.pools) + DrawnIn(e.log))[x] == e.submitted[x];
  }

  /** In every state of every run with sentences pending, an up-to-date idle worker can draw a non-empty batch. */
  lemma WorkIsNeverMissed(s: Service, steps: seq<Step>, w: nat)
    requires Initial(s) && Legal(s, steps)
    requires Run(s, steps).m.enqueued > 0 && UpToDate(Run(s, steps), w)
    ensures exists model: nat ::
            Enabled(Run(s, steps), DrawBatch(w, model, {})) && Run(s, steps).m.pools[model].Batch() != []
  {
    InitialInv(s);
    RunInv(s, steps);
    var e := Run(s, steps);
    DrawFindsWork(e.m);
    var model :| CanDraw(e.m, model, {});
    assert Enabled(e, DrawBatch(w, model, {}));
  }

  /** From the first round on, acknowledgements given, owed and still to be noticed add up to the consumers. */
  lemma AcknowledgementsBalance(s: Service, steps: seq<Step>)
    requires Initial(s) && Legal(s, steps)
    ensures var e := Run(s, steps);
            e.m.epoch > 0 ==> e.m.acked + OwingIn(e.workers) + BehindIn(e.workers, e.m.epoch) == e.m.consumers
  {
    InitialInv(s);
    RunInv(s, steps);
  }

  // ---- Maintenance comes before work ----

  ghost predicate MustAck(s: Service, w: nat) {
    w < |s.workers| && (s.workers[w].seen != s.m.epoch || s.workers[w].phase == Owing)
  }

  lemma MustAckKept(s: Service, step: Step, w: nat)
    requires Ledger(s) && Enabled(s, step) && MustAck(s, w) && step != Acknowledge(w)
    ensures MustAck(Next(s, step), w) && !(step.DrawBatch? && step.w == w)
  {}

  /** A worker that has not acknowledged the current epoch draws nothing before it does. */
  lemma {:induction false} NoDrawBeforeAck(s: Service, steps: seq<Step>, w: nat)
    requires Ledger(s) && Legal(s, steps) && MustAck(s, w)
    requires Acknowledge(w) !in steps
    ensures forall step <- steps :: step.DrawBatch? ==> step.w != w
    decreases steps
  {
    if steps != [] {
      LedgerKept(s, steps[0]);
      assert steps == [steps[0]] + steps[1..];
      MustAckKept(s, steps[0], w);
      NoDrawBeforeAck(Next(s, steps[0]), steps[1..], w);
    }
  }

  /** So from the start of a round every worker is barred until its own acknowledgement. */
  lemma RoundBarsDraws(s: Service, steps: seq<Step>, w: nat)
    requires Ledger(s) && Enabled(s, StartRound) && Legal(Next(s, StartRound), steps)
    requires w < |s.workers| && Acknowledge(w) !in steps
    ensures forall step <- steps :: step.DrawBatch? ==> step.w != w
  {
    LedgerKept(s, StartRound);
    NoDrawBeforeAck(Next(s, StartRound), steps, w);
  }

  /** Something in the service keeps `model` alive. */
  ghost predicate Held(s: Service, model: nat) {
    model in s.m.queue || exists w ::
      0 <= w < |s.workers| && s.workers[w].phase.Busy? && s.workers[w].phase.model == model
  }

  ghost predicate Quiet(step: Step) {
    !step.SubmitOne? && !step.SubmitAll? && !step.ShutDown? && !step.EndRound?
  }

  /** What holds from the start of a round with nothing pending. */
  ghost predicate WindingDown(s: Service) {
    && Inv(s) && s.releasing && s.m.epoch > 0 && !s.m.shutdown && s.m.enqueued == 0 && s.m.queue == {}
    && forall w :: 0 <= w < |s.workers| && s.workers[w].seen == s.m.epoch ==> !s.workers[w].phase.Busy?
  }

  lemma {:induction false} WindsDown(s: Service, steps: seq<Step>)
    requires WindingDown(s) && Legal(s, steps) && forall step <- steps :: Quiet(step)
    ensures WindingDown(Run(s, steps))
    decreases steps
  {
    if steps != [] {
      assert steps[0] in steps;
      InvKept(s, steps[0]);
      assert WindingDown(Next(s, steps[0]));
      WindsDown(Next(s, steps[0]), steps[1..]);
    }
  }

  /** `release`: if nothing is pending when the round starts, and nobody submits or shuts down meanwhile, then once
      the acknowledgements are in nothing in the service holds any model, batches in flight at the call included. */
  lemma ReleaseLeavesNoReference(s: Service, steps: seq<Step>)
    requires Inv(s) && s.m.enqueued == 0 && Enabled(s, StartRound)
    requires Legal(Next(s, StartRound), steps) && forall step <- steps :: Quiet(step)
    requires Enabled(Run(Next(s, StartRound), steps), EndRound)
    ensures forall model :: !Held(Run(Next(s, StartRound), steps), model)
  {
    InvKept(s, StartRound);
    var s0 := Next(s, StartRound);
    WindsDown(s0, steps);
    var e := Run(s0, steps);
    NoneLeft(e.workers, e.m.epoch);
  }

  // ---- A round cannot be starved ----

  ghost function Duty(w: Worker, epoch: nat): nat {
    if w.seen != epoch then (if w.phase.Busy? then 3 else 2) else if w.phase == Owing then 1 else 0
  }

  ghost function Duties(ws: seq<Worker>, epoch: nat): nat {
    if ws == [] then 0 else Duty(ws[0], epoch) + Duties(ws[1..], epoch)
  }

  lemma {:induction false} DutiesUpdate(ws: seq<Worker>, w: nat, x: Worker, epoch: nat)
    requires w < |ws|
    ensures Duties(ws[w := x], epoch) + Duty(ws[w], epoch) == Duties(ws, epoch) + Duty(x, epoch)
  {
    if w == 0 {
      assert ws[0 := x][1..] == ws[1..];
    } else {
      assert ws[w := x][1..] == ws[1..][w - 1 := x];
      DutiesUpdate(ws[1..], w - 1, x, epoch);
    }
  }

  /** The next thing a worker that has to acknowledge does. */
  ghost function DutyStep(s: Service, w: nat): Step
    requires MustAck(s, w)
  {
    match s.workers[w].phase
    case Owing => Acknowledge(w)
    case Busy(_, _) => FinishBatch(w)
    case _ => NoticeMaintenance(w)
  }

  /** While a round waits, some worker's next duty is enabled. */
  lemma RoundAdvances(s: Service)
    requires Inv(s) && s.m.epoch > 0 && s.m.acked < s.m.consumers
    ensures exists w :: MustAck(s, w) && Enabled(s, DutyStep(s, w))
  {
    SomeLeft(s.workers, s.m.epoch);
    var w :| 0 <= w < |s.workers| && (s.workers[w].phase == Owing || s.workers[w].seen != s.m.epoch);
    assert MustAck(s, w) && Enabled(s, DutyStep(s, w));
  }

  /** A worker does what it has to do before it can acknowledge, or acknowledges. */
  ghost predicate IsDuty(s: Service, step: Step) { exists w :: MustAck(s, w) && step == DutyStep(s, w) }

  ghost function OneDuty(s: Service, step: Step): nat { if IsDuty(s, step) then 1 else 0 }

  ghost function DutiesDone(s: Service, steps: seq<Step>): nat
    requires Legal(s, steps)
    decreases steps
  {
    if steps == [] then 0 else OneDuty(s, steps[0]) + DutiesDone(Next(s, steps[0]), steps[1..])
  }

  /** The worker a step is about, if it is about one. */
  function Actor(step: Step): Option<nat> {
    match step
    case DrawBatch(w, _, _) => Some(w)
    case FinishBatch(w) => Some(w)
    case NoticeMaintenance(w) => Some(w)
    case Acknowledge(w) => Some(w)
    case Leave(w) => Some(w)
    case _ => None
  }

  /** A duty brings the end of the round one step nearer, and no other step, drawing included, pushes it away. */
  lemma DutyCounts(s: Service, step: Step)
    requires Ledger(s) && Enabled(s, step) && !step.StartRound?
    ensures Next(s, step).m.epoch == s.m.epoch
    ensures Duties(Next(s, step).workers, s.m.epoch) + OneDuty(s, step) == Duties(s.workers, s.m.epoch)
  {
    match Actor(step)
    case None => assert !IsDuty(s, step);
    case Some(w) =>
      DutyOf(s, step, w);
      DutiesUpdate(s.workers, w, Next(s, step).workers[w], s.m.epoch);
  }

  lemma DutyOf(s: Service, step: Step, w: nat)
    requires Ledger(s) && Enabled(s, step) && Actor(step) == Some(w)
    ensures w < |s.workers| == |Next(s, step).workers|
    ensures Next(s, step).workers == s.workers[w := Next(s, step).workers[w]]
    ensures Duty(Next(s, step).workers[w], s.m.epoch) + OneDuty(s, step) == Duty(s.workers[w], s.m.epoch)
  {
    assert IsDuty(s, step) <==> MustAck(s, w) && step == DutyStep(s, w);
  }

  lemma {:induction false} DutiesCountDown(s: Service, steps: seq<Step>)
    requires Ledger(s) && Legal(s, steps) && StartRound !in steps
    ensures Ledger(Run(s, steps)) && Run(s, steps).m.epoch == s.m.epoch
    ensures Duties(Run(s, steps).workers, s.m.epoch) + DutiesDone(s, steps) == Duties(s.workers, s.m.epoch)
    decreases steps
  {
    if steps != [] {
      assert steps == [steps[0]] + steps[1..];
      DutyCounts(s, steps[0]);
      LedgerKept(s, steps[0]);
      DutiesCountDown(Next(s, steps[0]), steps[1..]);
    }
  }

  lemma {:induction false} DutiesBounds(ws: seq<Worker>, epoch: nat)
    ensures OwingIn(ws) + BehindIn(ws, epoch) <= Duties(ws, epoch) <= 3 * |ws|
    ensures OwingIn(ws) + BehindIn(ws, epoch) == 0 ==> Duties(ws, epoch) == 0
  {
    if ws != [] { DutiesBounds(ws[1..], epoch); }
  }

  /** A round takes a fixed number of duties, three for each worker at most: in every run from its start, whatever else
      happens in between, no more of them are done, and all acknowledgements are in exactly when that many are. */
  lemma RoundEnds(s: Service, steps: seq<Step>)
    requires Inv(s) && Enabled(s, StartRound) && Legal(Next(s, StartRound), steps) && StartRound !in steps
    ensures var s0 := Next(s, StartRound);
            var all := Duties(s0.workers, s0.m.epoch);
            && DutiesDone(s0, steps) <= all <= 3 * |s.workers|
            && (Run(s0, steps).m.acked >= Run(s0, steps).m.consumers <==> DutiesDone(s0, steps) == all)
  {
    LedgerKept(s, StartRound);
    var s0 := Next(s, StartRound);
    DutiesCountDown(s0, steps);
    DutiesBounds(s0.workers, s0.m.epoch);
    DutiesBounds(Run(s0, steps).workers, s0.m.epoch);
  }

  // ---- The batches of a submission do not depend on the schedule ----

  ghost function Jobs(model: nat, batches: seq<seq<Sentence>>): seq<Job> {
    if batches == [] then [] else [Job(model, batches[0])] + Jobs(model, batches[1..])
  }

  ghost function DrawsOf(p: Pool): seq<seq<Sentence>> { Draws(p.waiting, p.words, p.cap) }

  /** Drawing takes the first of the batches to come and leaves the others. */
  lemma DrawUnfolds(p: Pool)
    requires p.Valid() && p.waiting != []
    ensures DrawsOf(p) == [p.Batch()] + DrawsOf(p.Rest())
  {
    BatchOfValid(p);
    TakeIsGreedy(p.waiting, p.words, p.cap);
    assert Draws([], p.words, p.cap) == [] == Draws([], p.words, Unbounded);
  }

  /** Only `model` has sentences. */
  ghost predicate OnlyModel(pools: seq<Pool>, model: nat) {
    model < |pools| && forall i :: 0 <= i < |pools| && i != model ==> pools[i].waiting == []
  }

  /** Only `model` has sentences, and its pool plus the log make up `target`. */
  ghost predicate OnTrack(s: Service, model: nat, target: seq<Job>) {
    Inv(s) && OnlyModel(s.m.pools, model) && s.log + Jobs(model, DrawsOf(s.m.pools[model])) == target
  }

  lemma {:induction false} DrawFollowsTrack(s: Service, step: Step, model: nat, target: seq<Job>)
    requires OnTrack(s, model, target) && Enabled(s, step) && step.DrawBatch?
    ensures OnlyModel(Next(s, step).m.pools, model)
    ensures Next(s, step).log + Jobs(model, DrawsOf(Next(s, step).m.pools[model])) == target
  {
    BatchOfValid(s.m.pools[step.model]);
    var p := s.m.pools[model];
    assert step.model == model;
    DrawUnfolds(p);
    JobsFirst(model, p.Batch(), DrawsOf(p.Rest()));
    Associate(s.log, [Job(model, p.Batch())], Jobs(model, DrawsOf(p.Rest())));
  }

  lemma JobsFirst(model: nat, batch: seq<Sentence>, batches: seq<seq<Sentence>>)
    ensures Jobs(model, [batch] + batches) == [Job(model, batch)] + Jobs(model, batches)
  {
    assert ([batch] + batches)[1..] == batches;
  }

  lemma StepStaysOnTrack(s: Service, step: Step, model: nat, target: seq<Job>)
    requires OnTrack(s, model, target) && Enabled(s, step) && !step.SubmitOne? && !step.SubmitAll?
    ensures OnTrack(Next(s, step), model, target)
  {
    InvKept(s, step);
    if step.DrawBatch? { DrawFollowsTrack(s, step, model, target); }
  }

  lemma {:induction false} StaysOnTrack(s: Service, steps: seq<Step>, model: nat, target: seq<Job>)
    requires OnTrack(s, model, target) && Legal(s, steps)
    requires forall step <- steps :: !step.SubmitOne? && !step.SubmitAll?
    ensures OnTrack(Run(s, steps), model, target)
    decreases steps
  {
    if steps != [] {
      assert steps == [steps[0]] + steps[1..];
      StepStaysOnTrack(s, steps[0], model, target);
      StaysOnTrack(Next(s, steps[0]), steps[1..], model, target);
    }
  }

  lemma DrainedIsEmpty(m: Monitor, i: nat)
    requires Accounted(m) && m.enqueued == 0 && i < |m.pools|
    ensures m.pools[i].waiting == []
  {
    WaitingContains(m.pools, i);
    SubsetSize(multiset(m.pools[i].waiting), WaitingIn(m.pools));
  }

  /** After one bulk submission to a drained service every run, with any schedule of workers and any maintenance in
      between, has drawn a prefix of one fixed sequence of batches, and all of it when nothing is left. */
  lemma BatchesAreDeterministic(s: Service, model: nat, rs: seq<Request>, steps: seq<Step>)
    requires Inv(s) && s.m.enqueued == 0 && Enabled(s, SubmitAll(model, rs))
    requires Legal(Next(s, SubmitAll(model, rs)), steps)
    requires forall step <- steps :: !step.SubmitOne? && !step.SubmitAll?
    ensures var e := Run(Next(s, SubmitAll(model, rs)), steps);
            var expected := s.log + Jobs(model, DrawsOf(s.m.pools[model].WithRequests(rs, |s.workers|)));
            e.log <= expected && (e.m.enqueued == 0 ==> e.log == expected)
  {
    InvKept(s, SubmitAll(model, rs));
    var s1 := Next(s, SubmitAll(model, rs));
    var target := s1.log + Jobs(model, DrawsOf(s1.m.pools[model]));
    forall i | 0 <= i < |s.m.pools| && i != model ensures s1.m.pools[i].waiting == [] {
      DrainedIsEmpty(s.m, i);
    }
    StaysOnTrack(s1, steps, model, target);
    AllDrawn(Run(s1, steps), model, target);
  }

  lemma AllDrawn(e: Service, model: nat, target: seq<Job>)
    requires OnTrack(e, model, target)
    ensures e.log <= target && (e.m.enqueued == 0 ==> e.log == target)
  {
    if e.m.enqueued == 0 {
      DrainedIsEmpty(e.m, model);
      assert Draws([], e.m.pools[model].words, e.m.pools[model].cap) == [];
    }
  }
}
