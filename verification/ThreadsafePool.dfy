/** The aggregate queue over the models' pools, and the monitor around it. Each method of the monitor is one
    critical section, proved against the transition of `Monitors` it stands for. */
module ThreadsafePools {
  import opened Batches
  import opened BatchingPools
  import opened Monitors

  ghost function View(p: BatchingPool): Pool
    reads p
  {
    Pool(p.miniBatchWords, p.Waiting(), p.maxSentencesPerBatch)
  }

  class AggregateBatchingPool {
    /** The models' own pools; a model is handled by its position here. */
    const models: seq<BatchingPool>
    /** The unordered set of models that may have sentences. */
    var aggregateQueue: set<nat>
    /** What the models' pools hold. */
    ghost var pools: seq<Pool>

    ghost predicate Valid()
      reads this, models
    {
      && (forall i, j :: 0 <= i < j < |models| ==> models[i] != models[j])
      && |pools| == |models|
      && (forall i :: 0 <= i < |models| ==> models[i].Valid() && pools[i] == View(models[i]))
      && (forall i <- aggregateQueue :: i < |models|)
    }

    constructor (models: seq<BatchingPool>)
      requires forall i, j :: 0 <= i < j < |models| ==> models[i] != models[j]
      requires forall i :: 0 <= i < |models| ==> models[i].Valid()
      ensures Valid() && this.models == models && aggregateQueue == {}
    {
      this.models := models;
      pools := seq(|models|, i requires 0 <= i < |models| reads models => View(models[i]));
      aggregateQueue := {};
    }

    method EnqueueRequest(model: nat, request: Request) returns (sentencesEnqueued: nat)
      requires Valid() && NewTo(pools, model, [request])
      modifies this, models
      ensures Valid() && request.Valid()
      ensures pools == old(pools)[model := old(pools)[model].WithRequest(request)]
      ensures aggregateQueue == old(aggregateQueue) + {model}
      ensures sentencesEnqueued == |Fresh(request)|
    {
      assert request in [request];
      sentencesEnqueued := models[model].EnqueueRequest(request);
      pools := pools[model := pools[model].WithRequest(request)];
      aggregateQueue := aggregateQueue + {model};
    }

    method EnqueueRequests(model: nat, requests: seq<Request>, numWorkers: nat) returns (sentencesEnqueued: nat)
      requires Valid() && NewTo(pools, model, requests)
      modifies this, models
      ensures Valid()
      ensures pools == old(pools)[model := old(pools)[model].WithRequests(requests, numWorkers)]
      ensures aggregateQueue == if |FreshOfAll(requests)| > 0 then old(aggregateQueue) + {model}
              else old(aggregateQueue)
      ensures sentencesEnqueued == |FreshOfAll(requests)|
    {
      sentencesEnqueued := models[model].EnqueueRequests(requests, numWorkers);
      pools := pools[model := pools[model].WithRequests(requests, numWorkers)];
      if sentencesEnqueued > 0 {
        aggregateQueue := aggregateQueue + {model};
      }
    }

    /** One model's own draw. */
    method Ask(candidate: nat) returns (batch: seq<Sentence>)
      requires Valid() && candidate < |models|
      modifies this`pools, models
      ensures Valid()
      ensures batch == old(pools)[candidate].Batch() && pools == old(pools)[candidate := old(pools)[candidate].Rest()]
      ensures batch == [] ==> pools == old(pools)
    {
      batch := models[candidate].GenerateBatch();
      pools := pools[candidate := pools[candidate].Rest()];
      assert batch == [] ==> pools[candidate] == old(pools)[candidate];
    }

    /** Asks queued models, in whatever order the set yields them, until one has a batch; drained ones leave the
        queue. An empty batch means the whole queue was drained. */
    method GenerateBatch() returns (model: nat, batch: seq<Sentence>)
      requires Valid()
      modifies this, models
      ensures Valid() && Searched(old(pools), old(aggregateQueue), pools, aggregateQueue, model, batch)
    {
      model, batch := 0, [];
      QueueHasPools();
      ghost var before, queue := pools, aggregateQueue;
      ghost var gone: set<nat> := {};
      while aggregateQueue != {}
        invariant Valid() && pools == before && batch == []
        invariant queue == gone + aggregateQueue && gone !! aggregateQueue && Drained(before, gone)
        decreases aggregateQueue
      {
        var candidate :| candidate in aggregateQueue;
        batch := Ask(candidate);
        if |batch| > 0 {
          model := candidate;
          Found(before, queue, gone, aggregateQueue, pools, model, batch);
          return;
        }
        DrainedMore(before, gone, candidate);
        gone := gone + {candidate};
        aggregateQueue := aggregateQueue - {candidate};
      }
      NoneFound(before, queue, gone, model);
    }

    /** Whatever is queued has a pool, and that pool a cap that lets something through. */
    lemma QueueHasPools()
      requires Valid()
      ensures Capped(pools, aggregateQueue)
    {
      forall i | i in aggregateQueue ensures i < |pools| && pools[i].cap.Valid() {
        assert models[i].Valid() && pools[i] == View(models[i]);
      }
    }

    method Clear()
      requires Valid()
      modifies this`aggregateQueue
      ensures Valid() && aggregateQueue == {}
    {
      aggregateQueue := {};
    }
  }

  class ThreadsafeBatchingPool {
    const backend: AggregateBatchingPool
    var enqueued: nat
    var stopped: bool
    var consumers: nat
    var maintenanceEpoch: nat
    var maintenanceAcked: nat
    /** Everything the mutex guards, as one value. */
    ghost var state: Monitor

    /** The fields are those of `state`. That they also account for each other, `Accounted(state)`, is kept by
        every transition below; `Monitors` proves it transition by transition. */
    ghost predicate Valid()
      reads this, backend, backend.models
    {
      && backend.Valid()
      && state == Monitor(backend.pools, backend.aggregateQueue, enqueued, stopped, consumers, maintenanceEpoch,
                          maintenanceAcked)
    }

    constructor (backend: AggregateBatchingPool)
      requires backend.Valid() && backend.aggregateQueue == {}
      requires forall i :: 0 <= i < |backend.models| ==> backend.models[i].Waiting() == []
      ensures Valid() && Accounted(state) && this.backend == backend
      ensures state == Monitor(backend.pools, {}, 0, false, 0, 0, 0)
    {
      this.backend := backend;
      enqueued, stopped, consumers := 0, false, 0;
      maintenanceEpoch, maintenanceAcked := 0, 0;
      state := Monitor(backend.pools, {}, 0, false, 0, 0, 0);
      new;
      NothingWaits(backend.pools);
    }

    method SetConsumerCount(n: nat)
      requires Valid()
      modifies this
      ensures Valid() && state == old(state).(consumers := n)
    {
      consumers := n;
      state := state.(consumers := n);
    }

    method EnqueueRequest(model: nat, request: Request)
      requires Valid() && CanEnqueue(state, model, [request])
      modifies this, backend, backend.models
      ensures request.Valid() && Valid() && state == Enqueue(old(state), model, request)
    {
      var n := backend.EnqueueRequest(model, request);
      enqueued := enqueued + n;
      state := Enqueue(state, model, request);
    }

    method EnqueueRequests(model: nat, requests: seq<Request>, numWorkers: nat)
      requires Valid() && CanEnqueue(state, model, requests)
      modifies this, backend, backend.models
      ensures Valid() && state == EnqueueAll(old(state), model, requests, numWorkers)
    {
      EnqueueAllIs(state, model, requests, numWorkers);
      ghost var next := EnqueueAll(state, model, requests, numWorkers);
      var n := backend.EnqueueRequests(model, requests, numWorkers);
      enqueued := enqueued + n;
      state := next;
    }

    /** The consumer's critical section once its wait is over: a maintenance notice, a batch, or the end. */
    method GenerateBatch(seenMaintenanceEpoch: nat)
      returns (seen: nat, maintenanceDue: bool, model: nat, batch: seq<Sentence>, ghost skipped: set<nat>)
      requires Valid() && Accounted(state)
      requires enqueued > 0 || stopped || maintenanceEpoch != seenMaintenanceEpoch
      modifies this, backend, backend.models
      ensures Valid() && seen == old(maintenanceEpoch)
      ensures maintenanceDue <==> old(maintenanceEpoch) != seenMaintenanceEpoch
      ensures maintenanceDue ==> batch == [] && state == old(state)
      ensures !maintenanceDue && old(enqueued) > 0 ==> Drawn(old(state), state, model, batch, skipped)
      ensures !maintenanceDue && old(enqueued) == 0 ==> batch == [] && state == Clear(old(state))
    {
      seen := maintenanceEpoch;
      model, batch, skipped := 0, [], {};
      if maintenanceEpoch != seenMaintenanceEpoch {
        maintenanceDue := true;
        return;
      }
      maintenanceDue := false;
      model, batch, skipped := TakeBatch();
    }

    /** The draw itself; with nothing left pending the queue's references are dropped. */
    method TakeBatch() returns (model: nat, batch: seq<Sentence>, ghost skipped: set<nat>)
      requires Valid() && Accounted(state)
      modifies this`state, this`enqueued, backend, backend.models
      ensures Valid()
      ensures old(enqueued) > 0 ==> Drawn(old(state), state, model, batch, skipped)
      ensures old(enqueued) == 0 ==> batch == [] && state == Clear(old(state))
    {
      ghost var m := state;
      model, batch := backend.GenerateBatch();
      skipped := m.queue - backend.aggregateQueue;
      ghost var m' := AfterDraw(m, model, batch, skipped, backend.pools, backend.aggregateQueue);
      Settle(|batch|, m, m');
    }

    /** What is left of the draw's critical section once the aggregate pool has answered. */
    method Settle(taken: nat, ghost m: Monitor, ghost m': Monitor)
      requires backend.Valid() && taken <= enqueued
      requires m == Monitor(m.pools, m.queue, enqueued, stopped, consumers, maintenanceEpoch, maintenanceAcked)
      requires m' == m.(pools := backend.pools, queue := if enqueued == taken then {} else backend.aggregateQueue,
                        enqueued := enqueued - taken)
      modifies this`state, this`enqueued, backend`aggregateQueue
      ensures Valid() && state == m'
    {
      enqueued := enqueued - taken;
      if enqueued == 0 {
        backend.Clear();
      }
      state := m';
    }

    /** The producer's half of a maintenance round up to its wait for the acknowledgements; without consumers or after
        shutdown there is none. */
    method StartMaintenance() returns (started: bool)
      requires Valid()
      modifies this, backend`aggregateQueue
      ensures Valid() && (started <==> consumers > 0 && !stopped)
      ensures state == if started then BeginMaintenance(old(state)) else old(state)
    {
      if consumers == 0 || stopped {
        return false;
      }
      if enqueued == 0 {
        backend.Clear();
      }
      maintenanceEpoch := maintenanceEpoch + 1;
      maintenanceAcked := 0;
      state := BeginMaintenance(state);
      started := true;
    }

    method AckMaintenance()
      requires Valid()
      modifies this
      ensures Valid() && state == old(state).(acked := old(state).acked + 1)
    {
      maintenanceAcked := maintenanceAcked + 1;
      state := state.(acked := state.acked + 1);
    }

    method Shutdown()
      requires Valid()
      modifies this
      ensures Valid() && state == old(state).(shutdown := true)
    {
      stopped := true;
      state := state.(shutdown := true);
    }
  }

  /** The models that have left the queue had nothing to draw. */
  ghost predicate Drained(pools: seq<Pool>, gone: set<nat>) {
    forall i <- gone :: i < |pools| && pools[i].cap.Valid() && pools[i].Batch() == []
  }

  lemma DrainedMore(pools: seq<Pool>, gone: set<nat>, candidate: nat)
    requires Drained(pools, gone) && candidate < |pools| && pools[candidate].cap.Valid()
    requires pools[candidate].Batch() == []
    ensures Drained(pools, gone + {candidate})
  {}

  lemma Found(pools: seq<Pool>, queue: set<nat>, gone: set<nat>, left: set<nat>, pools': seq<Pool>, model: nat,
              batch: seq<Sentence>)
    requires queue == gone + left && gone !! left && Drained(pools, gone) && Capped(pools, queue)
    requires model in left && model < |pools| && pools[model].cap.Valid() && batch != []
    requires batch == pools[model].Batch() && pools' == pools[model := pools[model].Rest()]
    ensures Searched(pools, queue, pools', left, model, batch)
  {
    assert queue - left == gone;
  }

  lemma NoneFound(pools: seq<Pool>, queue: set<nat>, gone: set<nat>, model: nat)
    requires queue == gone && Drained(pools, gone) && Capped(pools, queue)
    ensures Searched(pools, queue, pools, {}, model, [])
  {
    assert queue - {} == gone;
  }

  ghost predicate Capped(pools: seq<Pool>, queue: set<nat>) {
    forall i <- queue :: i < |pools| && pools[i].cap.Valid()
  }

  /** What the aggregate pool's draw did: it dropped drained models from the queue and either took a batch from one
      it kept, or drained the queue and changed no pool. */
  ghost predicate Searched(pools: seq<Pool>, queue: set<nat>, pools': seq<Pool>, queue': set<nat>, model: nat,
                           batch: seq<Sentence>) {
    && queue' <= queue
    && (forall i <- queue :: i < |pools| && pools[i].cap.Valid())
    && (forall i <- queue - queue' :: pools[i].Batch() == [])
    && (batch == [] ==> queue' == {} && pools' == pools)
    && (batch != [] ==>
        model in queue' && batch == pools[model].Batch() && pools' == pools[model := pools[model].Rest()])
  }

  /** The monitor after a draw, from what the aggregate pool reports. */
  ghost function AfterDraw(m: Monitor, model: nat, batch: seq<Sentence>, skipped: set<nat>, pools: seq<Pool>,
                           left: set<nat>)
    : (m': Monitor)
    requires Accounted(m) && Searched(m.pools, m.queue, pools, left, model, batch) && skipped == m.queue - left
    ensures Accounted(m') && |batch| <= m.enqueued
    ensures m' == m.(pools := pools, queue := if m.enqueued == |batch| then {} else left,
                     enqueued := m.enqueued - |batch|)
    ensures m.enqueued > 0 ==> Drawn(m, m', model, batch, skipped)
    ensures m.enqueued == 0 ==> batch == [] && m' == Clear(m)
  {
    if m.enqueued > 0 then
      WorkFound(m, skipped, left, model, batch);
      DrawAccounted(m, model, skipped);
      Draw(m, model, skipped)
    else
      NothingFound(m, model, batch);
      ClearAccountedIff(m);
      Clear(m)
  }

  /** When sentences are enqueued the aggregate pool's draw was not empty-handed. */
  lemma WorkFound(m: Monitor, skipped: set<nat>, left: set<nat>, model: nat, batch: seq<Sentence>)
    requires Accounted(m) && m.enqueued > 0 && left <= m.queue && skipped == m.queue - left
    requires forall i <- skipped :: m.pools[i].Batch() == []
    requires batch == [] ==> left == {}
    requires batch != [] ==> model in left && batch == m.pools[model].Batch()
    ensures CanDraw(m, model, skipped) && batch == m.pools[model].Batch() && m.queue - skipped == left
  {
    DrawFindsWork(m);
    assert left == {} ==> skipped == m.queue;
    BatchOfValid(m.pools[model]);
    WaitingContains(m.pools, model);
    SubsetSize(multiset(m.pools[model].waiting), WaitingIn(m.pools));
  }

  lemma NothingFound(m: Monitor, model: nat, batch: seq<Sentence>)
    requires Accounted(m) && m.enqueued == 0
    requires batch != [] ==> model in m.queue && batch == m.pools[model].Batch()
    ensures batch == []
  {
    if batch != [] {
      BatchOfValid(m.pools[model]);
      WaitingContains(m.pools, model);
      SubsetSize(multiset(m.pools[model].waiting), WaitingIn(m.pools));
    }
  }
}
