/** The service and the requests it works on: histories come back from several workers while the service goes on. */
module Translations {
  import opened Basics
  import opened Batches
  import opened BatchingPools
  import opened Monitors
  import opened Services
  import Requests

  /** The service and, by id, the shared state of every request submitted so far. */
  datatype World<H> = World(s: Service, requests: map<nat, Requests.State<H>>)

  /** A submission, with what the cache has for each request; any other step of the service; or a step of
      `processHistory` on a request, taken by worker `w`. */
  datatype Event<H> =
    | Submit(step: Step, hits: map<nat, seq<Option<H>>>)
    | Serve(step: Step)
    | Work(w: nat, id: nat, call: Requests.Step<H>)

  function Submitted(step: Step): seq<Request>
    requires step.SubmitOne? || step.SubmitAll?
  {
    match step
    case SubmitOne(_, r) => [r]
    case SubmitAll(_, rs) => rs
  }

  /** What the cache has is what the pool leaves out. */
  predicate Hits<H>(r: Request, hits: map<nat, seq<Option<H>>>) {
    && r.id in hits && |hits[r.id]| == |r.segments| == |r.prefilled|
    && forall i :: 0 <= i < |r.segments| ==> (hits[r.id][i].Some? <==> r.prefilled[i])
  }

  /** Worker `w` translates a batch that holds segment `i` of request `id`. */
  ghost predicate Carries(s: Service, w: nat, id: nat, i: nat) {
    && w < |s.workers| && s.workers[w].phase.Busy?
    && exists x :: x in s.workers[w].phase.batch && x.request == id && x.index == i
  }

  ghost predicate Completed<H>(world: World<H>, x: Sentence) {
    && x.request in world.requests && x.index < |world.requests[x.request].progress|
    && world.requests[x.request].progress[x.index] == Requests.Finished
  }

  /** A worker is done with a batch when it has completed every sentence of it. */
  ghost predicate Enabled<H>(world: World<H>, e: Event<H>) {
    match e
    case Submit(step, hits) =>
      && (step.SubmitOne? || step.SubmitAll?) && Services.Enabled(world.s, step)
      && forall r <- Submitted(step) :: Hits(r, hits)
    case Serve(step) =>
      && !step.SubmitOne? && !step.SubmitAll? && Services.Enabled(world.s, step)
      && (step.FinishBatch? ==> forall x <- world.s.workers[step.w].phase.batch :: Completed(world, x))
    case Work(w, id, call) =>
      id in world.requests && Carries(world.s, w, id, call.i) && Requests.Enabled(world.requests[id], call)
  }

  ghost function Ids(rs: seq<Request>): set<nat> { set r <- rs :: r.id }

  ghost function NewStates<H>(rs: seq<Request>, hits: map<nat, seq<Option<H>>>): map<nat, Requests.State<H>>
    requires Ids(rs) <= hits.Keys
  {
    map id | id in Ids(rs) :: Requests.Built(hits[id])
  }

  ghost function Next<H>(world: World<H>, e: Event<H>): World<H>
    requires Enabled(world, e)
  {
    match e
    case Submit(step, hits) =>
      World(Services.Next(world.s, step),
            world.requests + NewStates(Submitted(step), hits))
    case Serve(step) => world.(s := Services.Next(world.s, step))
    case Work(_, id, call) => world.(requests := world.requests[id := Requests.Next(world.requests[id], call)])
  }

  ghost predicate Legal<H>(world: World<H>, events: seq<Event<H>>)
    decreases events
  {
    events == [] || (Enabled(world, events[0]) && Legal(Next(world, events[0]), events[1..]))
  }

  ghost function Run<H>(world: World<H>, events: seq<Event<H>>): World<H>
    requires Legal(world, events)
    decreases events
  {
    if events == [] then world else Run(Next(world, events[0]), events[1..])
  }

  /** Someone still has to complete segment `i` of request `id`: it waits in a pool, or a worker has it. */
  ghost predicate Due(s: Service, id: nat, i: nat) {
    || (exists x :: x in WaitingIn(s.m.pools) && x.request == id && x.index == i)
    || (exists w: nat :: Carries(s, w, id, i))
  }

  predicate UnfoldSound<H>(k: nat, world: World<H>) { true }

  /** Requests are sound, and whatever is unfinished is due. Unfolds only where `UnfoldSound` is mentioned. */
  ghost predicate Sound<H>(world: World<H>) {
    forall k: nat {:trigger UnfoldSound(k, world)} :: UnfoldSound(k, world) ==> SoundNow(world)
  }

  ghost predicate SoundNow<H>(world: World<H>) {
    Inv(world.s) && RequestsSound(world) && SentencesKnown(world) && AllDue(world)
  }

  ghost predicate RequestsSound<H>(world: World<H>) {
    && world.requests.Keys == world.s.used
    && forall id <- world.requests :: Requests.Inv(world.requests[id])
  }

  ghost predicate SentencesKnown<H>(world: World<H>) {
    forall x <- world.s.submitted :: Known(world, x)
  }

  ghost predicate Known<H>(world: World<H>, x: Sentence) {
    x.request in world.requests && x.index < |world.requests[x.request].progress|
  }

  ghost predicate AllDue<H>(world: World<H>) {
    forall id: nat, i: nat :: id in world.requests ==> DueIfUnfinished(world, id, i)
  }

  ghost predicate DueIfUnfinished<H>(world: World<H>, id: nat, i: nat)
    requires id in world.requests
  {
    i < |world.requests[id].progress| && world.requests[id].progress[i] != Requests.Finished ==> Due(world.s, id, i)
  }

  ghost predicate Start<H>(world: World<H>) { Initial(world.s) && world.requests == map[] }

  lemma StartSound<H>(world: World<H>)
    requires Start(world)
    ensures Sound(world)
  {
    InitialInv(world.s);
  }

  /** What waits either still does or was drawn. */
  lemma WaitsOrDrawn(s: Service, step: Step, x: Sentence)
    requires Inv(s) && Services.Enabled(s, step) && !step.SubmitOne? && !step.SubmitAll? && x in WaitingIn(s.m.pools)
    ensures var s' := Services.Next(s, step);
            x in WaitingIn(s'.m.pools) || Carrying(s', x)
  {
    if step.DrawBatch? {
      DrawAccounted(s.m, step.model, step.skipped);
      var s' := Services.Next(s, step);
      if x !in WaitingIn(s'.m.pools) {
        assert x in s.m.pools[step.model].Batch() && s'.workers[step.w].phase.batch == s.m.pools[step.model].Batch();
        assert Carries(s', step.w, x.request, x.index);
      }
    }
  }

  ghost predicate Carrying(s: Service, x: Sentence) { exists w: nat :: Carries(s, w, x.request, x.index) }

  /** A worker keeps its batch until it is done with it. */
  lemma StillCarries(s: Service, step: Step, w: nat, id: nat, i: nat)
    requires Services.Enabled(s, step) && Carries(s, w, id, i) && step != FinishBatch(w)
    ensures Carries(Services.Next(s, step), w, id, i)
  {}

  /** Whoever has to complete a segment still has to after any step but a submission, unless it is completed. */
  lemma StillDue<H>(world: World<H>, step: Step, id: nat, i: nat)
    requires Inv(world.s) && Enabled(world, Serve(step)) && id in world.requests && i < |world.requests[id].progress|
    requires Due(world.s, id, i) && world.requests[id].progress[i] != Requests.Finished
    ensures Due(Services.Next(world.s, step), id, i)
  {
    var s := world.s;
    if x :| x in WaitingIn(s.m.pools) && x.request == id && x.index == i {
      WaitsOrDrawn(s, step, x);
    } else {
      var w: nat :| Carries(s, w, id, i);
      NotDone(world, step, w, id, i);
      StillCarries(s, step, w, id, i);
    }
  }

  lemma NotDone<H>(world: World<H>, step: Step, w: nat, id: nat, i: nat)
    requires Enabled(world, Serve(step)) && id in world.requests && i < |world.requests[id].progress|
    requires Carries(world.s, w, id, i) && world.requests[id].progress[i] != Requests.Finished
    ensures step != FinishBatch(w)
  {
    var x :| x in world.s.workers[w].phase.batch && x.request == id && x.index == i;
  }

  lemma ServeKeeps<H>(world: World<H>, step: Step)
    requires Sound(world) && Enabled(world, Serve(step))
    ensures Sound(Next(world, Serve(step)))
  {
    assert UnfoldSound(0, world);
    var e: Event<H> := Serve(step);
    InvKept(world.s, step);
    ServeLeavesRequests(world, e);
    ServeKeepsAllDue(world, e);
    SoundNext(Next(world, e));
  }

  lemma SoundNext<H>(world: World<H>)
    requires SoundNow(world)
    ensures Sound(world)
  {
  }

  lemma ServeKeepsAllDue<H>(world: World<H>, e: Event<H>)
    requires Inv(world.s) && AllDue(world) && Enabled(world, e) && e.Serve?
    ensures AllDue(Next(world, e))
  {
    forall id: nat, i: nat | id in Next(world, e).requests ensures DueIfUnfinished(Next(world, e), id, i) {
      assert DueIfUnfinished(world, id, i);
      ServeKeepsDue(world, e, id, i);
    }
  }

  lemma ServeLeavesRequests<H>(world: World<H>, e: Event<H>)
    requires RequestsSound(world) && SentencesKnown(world) && Enabled(world, e) && e.Serve?
    ensures RequestsSound(Next(world, e)) && SentencesKnown(Next(world, e))
  {
    forall x | x in Next(world, e).s.submitted ensures Known(Next(world, e), x) { assert Known(world, x); }
  }

  lemma ServeKeepsDue<H>(world: World<H>, e: Event<H>, id: nat, i: nat)
    requires Inv(world.s) && Enabled(world, e) && e.Serve? && id in world.requests && DueIfUnfinished(world, id, i)
    ensures DueIfUnfinished(Next(world, e), id, i)
  {
    if i < |world.requests[id].progress| && world.requests[id].progress[i] != Requests.Finished {
      StillDue(world, e.step, id, i);
    }
  }

  lemma WorkKeeps<H>(world: World<H>, e: Event<H>)
    requires Sound(world) && Enabled(world, e) && e.Work?
    ensures Sound(Next(world, e))
  {
    assert UnfoldSound(0, world);
    WorkKeepsRequests(world, e);
    WorkKeepsSentences(world, e);
    WorkKeepsAllDue(world, e);
    SoundNext(Next(world, e));
  }

  lemma WorkKeepsSentences<H>(world: World<H>, e: Event<H>)
    requires SentencesKnown(world) && Enabled(world, e) && e.Work?
    ensures SentencesKnown(Next(world, e))
  {
    forall x | x in Next(world, e).s.submitted ensures Known(Next(world, e), x) {
      assert Known(world, x);
    }
  }

  lemma WorkKeepsAllDue<H>(world: World<H>, e: Event<H>)
    requires AllDue(world) && Enabled(world, e) && e.Work?
    ensures AllDue(Next(world, e))
  {
    forall id: nat, i: nat | id in Next(world, e).requests ensures DueIfUnfinished(Next(world, e), id, i) {
      WorkKeepsDue(world, e, id, i);
    }
  }

  lemma WorkKeepsRequests<H>(world: World<H>, e: Event<H>)
    requires RequestsSound(world) && Enabled(world, e) && e.Work?
    ensures RequestsSound(Next(world, e))
  {
    Requests.StepInv(world.requests[e.id], e.call);
  }

  lemma WorkKeepsDue<H>(world: World<H>, e: Event<H>, id: nat, i: nat)
    requires Enabled(world, e) && e.Work? && id in world.requests && DueIfUnfinished(world, id, i)
    ensures DueIfUnfinished(Next(world, e), id, i)
  {}

  /** The ids of a submission are new, and it adds what is new in its requests. */
  lemma SubmissionIds(s: Service, step: Step)
    requires Services.Enabled(s, step) && (step.SubmitOne? || step.SubmitAll?)
    ensures forall r <- Submitted(step) :: r.Valid() && r.id !in s.used
    ensures Services.Next(s, step).submitted == s.submitted + multiset(FreshOfAll(Submitted(step)))
    ensures Services.Next(s, step).used == s.used + Ids(Submitted(step))
  {
    if step.SubmitOne? { OneRequest(step.request); }
  }

  lemma OneRequest(r: Request)
    requires r.Valid()
    ensures FreshOfAll([r]) == Fresh(r) && Ids([r]) == {r.id}
  {
    assert r in [r] && [r][..0] == [] && FreshOfAll([r]) == [] + Fresh(r);
  }

  lemma SubmissionWaits(s: Service, step: Step)
    requires Inv(s) && Services.Enabled(s, step) && (step.SubmitOne? || step.SubmitAll?)
    ensures forall r <- Submitted(step) :: r.Valid()
    ensures WaitingIn(Services.Next(s, step).m.pools) == WaitingIn(s.m.pools) + multiset(FreshOfAll(Submitted(step)))
    ensures Services.Next(s, step).workers == s.workers
  {
    FreshIdsCanEnqueue(s, step.model, Submitted(step));
    match step
    case SubmitOne(model, r) =>
      OneRequest(r);
      EnqueueAccounted(s.m, model, r);
    case SubmitAll(model, rs) => EnqueueAllAccounted(s.m, model, rs, |s.workers|);
  }

  lemma {:induction false} FreshComesFrom(rs: seq<Request>, x: Sentence)
    requires (forall r <- rs :: r.Valid()) && x in FreshOfAll(rs)
    ensures exists r :: r in rs && r.id == x.request && x.index < |r.segments|
  {
    var n := |rs| - 1;
    assert rs == rs[..n] + [rs[n]];
    if x in FreshOfAll(rs[..n]) {
      FreshComesFrom(rs[..n], x);
    } else {
      FreshShape(rs[n], |rs[n].segments|);
      assert rs[n] in rs;
    }
  }

  lemma {:induction false} FreshIsIn(rs: seq<Request>, r: Request, i: nat)
    requires (forall q <- rs :: q.Valid()) && r in rs && r.Valid() && i < |r.segments| && !r.prefilled[i]
    ensures Sentence(r.segments[i], r.id, i) in FreshOfAll(rs)
  {
    var n := |rs| - 1;
    assert rs == rs[..n] + [rs[n]];
    if r == rs[n] {
      FreshShape(r, |r.segments|);
    } else {
      FreshIsIn(rs[..n], r, i);
    }
  }

  lemma SubmitKeeps<H>(world: World<H>, e: Event<H>)
    requires Sound(world) && Enabled(world, e) && e.Submit?
    ensures Sound(Next(world, e))
  {
    assert UnfoldSound(0, world);
    var s := world.s;
    InvKept(s, e.step);
    NewRequests(world, e);
    NewSentences(world, e);
    NewDue(world, e);
    SoundNext(Next(world, e));
  }

  lemma {:induction false} NewRequests<H>(world: World<H>, e: Event<H>)
    requires RequestsSound(world) && Inv(world.s) && Enabled(world, e) && e.Submit?
    ensures RequestsSound(Next(world, e))
    ensures forall r <- Submitted(e.step) ::
              r.id in Next(world, e).requests && Next(world, e).requests[r.id] == Requests.Built(e.hits[r.id])
  {
    var next := Next(world, e);
    SubmissionIds(world.s, e.step);
    forall id | id in next.requests ensures Requests.Inv(next.requests[id]) {
      if id in Ids(Submitted(e.step)) { Requests.BuiltInv(e.hits[id]); }
    }
    forall r | r in Submitted(e.step)
      ensures r.id in next.requests && next.requests[r.id] == Requests.Built(e.hits[r.id])
    {
      assert r.id in Ids(Submitted(e.step));
    }
  }

  lemma NewSentences<H>(world: World<H>, e: Event<H>)
    requires Inv(world.s) && RequestsSound(world) && SentencesKnown(world) && Enabled(world, e) && e.Submit?
    ensures SentencesKnown(Next(world, e))
  {
    SubmissionIds(world.s, e.step);
    NewRequests(world, e);
    forall x | x in Next(world, e).s.submitted ensures Known(Next(world, e), x) {
      if x in world.s.submitted {
        assert Known(world, x);
        OldSentence(world, e, x);
      } else {
        NewSentence(Next(world, e), Submitted(e.step), e.hits, x);
      }
    }
  }

  lemma NewSentence<H>(next: World<H>, rs: seq<Request>, hits: map<nat, seq<Option<H>>>, x: Sentence)
    requires (forall r <- rs :: r.Valid()) && x in FreshOfAll(rs)
    requires forall r <- rs ::
               Hits(r, hits) && r.id in next.requests && next.requests[r.id] == Requests.Built(hits[r.id])
    ensures Known(next, x)
  {
    FreshComesFrom(rs, x);
  }

  lemma OldSentence<H>(world: World<H>, e: Event<H>, x: Sentence)
    requires world.requests.Keys == world.s.used && Enabled(world, e) && e.Submit?
    requires Known(world, x) && forall r <- Submitted(e.step) :: r.id !in world.s.used
    ensures Known(Next(world, e), x)
  {
    assert x.request !in Ids(Submitted(e.step));
  }

  lemma NewDue<H>(world: World<H>, e: Event<H>)
    requires Inv(world.s) && RequestsSound(world) && AllDue(world) && Enabled(world, e) && e.Submit?
    ensures AllDue(Next(world, e))
  {
    SubmissionIds(world.s, e.step);
    SubmissionWaits(world.s, e.step);
    NewRequests(world, e);
    forall id: nat, i: nat | id in Next(world, e).requests ensures DueIfUnfinished(Next(world, e), id, i) {
      if id in world.requests {
        OldDue(world, e, id, i);
      } else {
        var r :| r in Submitted(e.step) && r.id == id;
        NewlyDue(Next(world, e), Submitted(e.step), e.hits, r, i);
      }
    }
  }

  lemma OldDue<H>(world: World<H>, e: Event<H>, id: nat, i: nat)
    requires world.requests.Keys == world.s.used && Enabled(world, e) && e.Submit? && id in world.requests
    requires Next(world, e).s.workers == world.s.workers
    requires WaitingIn(world.s.m.pools) <= WaitingIn(Next(world, e).s.m.pools)
    requires DueIfUnfinished(world, id, i) && forall r <- Submitted(e.step) :: r.id !in world.s.used
    ensures id in Next(world, e).requests && DueIfUnfinished(Next(world, e), id, i)
  {
    assert id !in Ids(Submitted(e.step));
    StaysDue(world.s, Next(world, e).s, id, i);
  }

  lemma NewlyDue<H>(next: World<H>, rs: seq<Request>, hits: map<nat, seq<Option<H>>>, r: Request, i: nat)
    requires (forall q <- rs :: q.Valid()) && r in rs && r.Valid() && Hits(r, hits)
    requires r.id in next.requests && next.requests[r.id] == Requests.Built(hits[r.id])
    requires multiset(FreshOfAll(rs)) <= WaitingIn(next.s.m.pools)
    ensures DueIfUnfinished(next, r.id, i)
  {
    if i < |next.requests[r.id].progress| && next.requests[r.id].progress[i] != Requests.Finished {
      FreshIsIn(rs, r, i);
      assert Sentence(r.segments[i], r.id, i) in multiset(FreshOfAll(rs));
      assert Sentence(r.segments[i], r.id, i) in WaitingIn(next.s.m.pools);
    }
  }

  lemma StaysDue(s: Service, s': Service, id: nat, i: nat)
    requires s'.workers == s.workers && WaitingIn(s.m.pools) <= WaitingIn(s'.m.pools)
    ensures Due(s, id, i) ==> Due(s', id, i)
  {
    if w: nat :| Carries(s, w, id, i) { assert Carries(s', w, id, i); }
  }

  lemma EventKeeps<H>(world: World<H>, e: Event<H>)
    requires Sound(world) && Enabled(world, e)
    ensures Sound(Next(world, e))
  {
    match e
    case Submit(_, _) => SubmitKeeps(world, e);
    case Serve(step) => ServeKeeps(world, step);
    case Work(_, _, _) => WorkKeeps(world, e);
  }

  lemma {:induction false} RunSound<H>(world: World<H>, events: seq<Event<H>>)
    requires Sound(world) && Legal(world, events)
    ensures Sound(Run(world, events))
    decreases events
  {
    if events != [] {
      EventKeeps(world, events[0]);
      RunSound(Next(world, events[0]), events[1..]);
    }
  }

  /** In every run of the service, with the workers' calls interleaved in any way, the response builder of each
      submitted request fires at most once and only with every history set; when nothing waits and no worker is busy, it
      has. */
  lemma BuildersFireOnce<H>(world: World<H>, events: seq<Event<H>>, id: nat)
    requires Start(world) && Legal(world, events) && id in Run(world, events).s.used
    ensures var e := Run(world, events);
            && id in e.requests && e.requests[id].fired <= 1
            && (e.requests[id].fired == 1 ==>
                  && |e.requests[id].delivered| == |e.requests[id].progress|
                  && forall i :: 0 <= i < |e.requests[id].delivered| ==> e.requests[id].delivered[i].Some?)
            && (e.s.m.enqueued == 0 && (forall w :: 0 <= w < |e.s.workers| ==> !e.s.workers[w].phase.Busy?) ==>
                  e.requests[id].fired == 1)
  {
    StartSound(world);
    RunSound(world, events);
    var e := Run(world, events);
    assert UnfoldSound(0, e);
    Requests.FiredIsComplete(e.requests[id]);
    if e.s.m.enqueued == 0 && forall w :: 0 <= w < |e.s.workers| ==> !e.s.workers[w].phase.Busy? {
      forall i | 0 <= i < |e.requests[id].progress| ensures e.requests[id].progress[i] == Requests.Finished {
        assert DueIfUnfinished(e, id, i);
      }
      Requests.AllFinished(e.requests[id].progress);
    }
  }
}
