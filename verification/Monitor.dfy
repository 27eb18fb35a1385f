/** The state behind the batching monitor's mutex, and what each critical section does to it. */
module Monitors {
  import opened Batches
  import opened BatchBounds
  import opened BatchingPools

  /** One model's pool: its word budget, its waiting line, the cap in force. */
  datatype Pool = Pool(words: nat, waiting: seq<Sentence>, cap: Cap) {
    ghost predicate Valid() {
      Sorted(waiting) && AllFit(waiting, words) && cap.Valid() && (waiting == [] ==> cap == Unbounded)
    }

    /** The batch the next draw takes. */
    function Batch(): seq<Sentence>
      requires cap.Valid()
    {
      TakeIsGreedy(waiting, words, cap);
      waiting[..Take(waiting, words, cap)]
    }

    /** What the next draw leaves. */
    function Rest(): Pool
      requires cap.Valid()
    {
      TakeIsGreedy(waiting, words, cap);
      var rest := waiting[Take(waiting, words, cap)..];
      Pool(words, rest, if rest == [] then Unbounded else cap)
    }

    function WithRequest(r: Request): Pool
      requires r.Valid()
    {
      this.(waiting := InsertAll(waiting, Fresh(r)))
    }

    function WithRequests(rs: seq<Request>, numWorkers: nat): Pool
      requires forall r <- rs :: r.Valid()
    {
      var line := InsertAll(waiting, FreshOfAll(rs));
      Pool(words, line, CapAfter(line, words, cap, |FreshOfAll(rs)|, numWorkers))
    }
  }

  /** Models are numbered. `queue` is the aggregate queue, `enqueued` the monitor's own sentence count. */
  datatype Monitor = Monitor(pools: seq<Pool>, queue: set<nat>, enqueued: nat, shutdown: bool,
                             consumers: nat, epoch: nat, acked: nat)

  /** All sentences waiting in any pool. */
  ghost function WaitingIn(pools: seq<Pool>): multiset<Sentence> {
    if pools == [] then multiset{} else multiset(pools[0].waiting) + WaitingIn(pools[1..])
  }

  /** The monitor counts what the pools hold, and the aggregate queue can reach all of it. */
  ghost predicate Accounted(m: Monitor) {
    Queued(m.pools, m.queue) && m.enqueued == |WaitingIn(m.pools)|
  }

  /** The pools are in order, and those where something waits are in the queue. */
  ghost predicate Queued(pools: seq<Pool>, queue: set<nat>) {
    && (forall i :: 0 <= i < |pools| ==> pools[i].Valid())
    && (forall i :: 0 <= i < |pools| && pools[i].waiting != [] ==> i in queue)
    && (forall i <- queue :: i < |pools|)
  }

  /** Request ids are new to the pool and to each other. */
  ghost predicate NewTo(pools: seq<Pool>, model: nat, rs: seq<Request>) {
    && model < |pools| && DistinctIds(rs)
    && forall r <- rs :: r.Valid() && NoneOf(pools[model].waiting, r.id)
  }

  ghost predicate CanEnqueue(m: Monitor, model: nat, rs: seq<Request>) {
    && !m.shutdown && NewTo(m.pools, model, rs)
    && forall r <- rs :: forall l <- r.segments :: l <= m.pools[model].words
  }

  function Enqueue(m: Monitor, model: nat, r: Request): Monitor
    requires model < |m.pools| && r.Valid()
  {
    m.(pools := m.pools[model := m.pools[model].WithRequest(r)],
       queue := m.queue + {model},
       enqueued := m.enqueued + |Fresh(r)|)
  }

  function EnqueueAll(m: Monitor, model: nat, rs: seq<Request>, numWorkers: nat): Monitor
    requires model < |m.pools| && forall r <- rs :: r.Valid()
  {
    m.(pools := m.pools[model := m.pools[model].WithRequests(rs, numWorkers)],
       queue := if |FreshOfAll(rs)| > 0 then m.queue + {model} else m.queue,
       enqueued := m.enqueued + |FreshOfAll(rs)|)
  }

  /** The parts of the monitor behind a bulk enqueue. */
  lemma EnqueueAllIs(m: Monitor, model: nat, rs: seq<Request>, numWorkers: nat)
    requires model < |m.pools| && forall r <- rs :: r.Valid()
    ensures var m', n := EnqueueAll(m, model, rs, numWorkers), |FreshOfAll(rs)|;
            && m'.pools == m.pools[model := m.pools[model].WithRequests(rs, numWorkers)]
            && m'.queue == (if n > 0 then m.queue + {model} else m.queue) && m'.enqueued == m.enqueued + n
            && m' == Monitor(m'.pools, m'.queue, m'.enqueued, m.shutdown, m.consumers, m.epoch, m.acked)
  {}

  /** A draw visits queued models in any order, dropping those it finds drained (`skipped`), until one has a batch. */
  ghost predicate CanDraw(m: Monitor, model: nat, skipped: set<nat>) {
    && skipped <= m.queue && model in m.queue - skipped
    && (forall i <- m.queue :: i < |m.pools| && m.pools[i].cap.Valid())
    && (forall i <- skipped :: m.pools[i].Batch() == [])
    && m.pools[model].Batch() != []
    && |m.pools[model].Batch()| <= m.enqueued
  }

  ghost function Draw(m: Monitor, model: nat, skipped: set<nat>): Monitor
    requires CanDraw(m, model, skipped)
  {
    var left: nat := m.enqueued - |m.pools[model].Batch()|;
    m.(pools := m.pools[model := m.pools[model].Rest()],
       queue := if left == 0 then {} else m.queue - skipped,
       enqueued := left)
  }

  /** `m'` follows from `m` by drawing `batch` from `model`. */
  ghost predicate Drawn(m: Monitor, m': Monitor, model: nat, batch: seq<Sentence>, skipped: set<nat>) {
    CanDraw(m, model, skipped) && batch == m.pools[model].Batch() && m' == Draw(m, model, skipped)
  }

  function BeginMaintenance(m: Monitor): Monitor {
    m.(queue := if m.enqueued == 0 then {} else m.queue, epoch := m.epoch + 1, acked := 0)
  }

  /** The monitor's `clear`: the queue goes, the models' own pools stay. */
  function Clear(m: Monitor): Monitor { m.(queue := {}, enqueued := 0) }

  // ---- Sums over the pools ----

  lemma {:induction false} WaitingUpdate(pools: seq<Pool>, i: nat, p: Pool)
    requires i < |pools|
    ensures WaitingIn(pools[i := p]) + multiset(pools[i].waiting) == WaitingIn(pools) + multiset(p.waiting)
  {
    if i == 0 {
      assert pools[0 := p][1..] == pools[1..];
    } else {
      assert pools[i := p][1..] == pools[1..][i - 1 := p];
      WaitingUpdate(pools[1..], i - 1, p);
      assert pools[i := p][0] == pools[0] && pools[1..][i - 1] == pools[i];
      AddSame(multiset(pools[0].waiting), WaitingIn(pools[1..][i - 1 := p]), multiset(pools[i].waiting),
              WaitingIn(pools[1..]), multiset(p.waiting));
    }
  }

  lemma AddSame(a: multiset<Sentence>, r: multiset<Sentence>, o: multiset<Sentence>, r': multiset<Sentence>,
                n: multiset<Sentence>)
    requires r + o == r' + n
    ensures (a + r) + o == (a + r') + n
  {
    assert (a + r) + o == a + (r + o);
  }

  lemma {:induction false} WaitingContains(pools: seq<Pool>, i: nat)
    requires i < |pools|
    ensures multiset(pools[i].waiting) <= WaitingIn(pools)
  {
    if i > 0 { WaitingContains(pools[1..], i - 1); }
  }

  lemma {:induction false} WaitingSomewhere(pools: seq<Pool>)
    requires |WaitingIn(pools)| > 0
    ensures exists i :: 0 <= i < |pools| && pools[i].waiting != []
  {
    if pools != [] && pools[0].waiting == [] {
      WaitingSomewhere(pools[1..]);
      var i :| 0 <= i < |pools[1..]| && pools[1..][i].waiting != [];
      assert pools[i + 1].waiting != [];
    }
  }

  lemma {:induction false} NothingWaits(pools: seq<Pool>)
    requires forall i :: 0 <= i < |pools| ==> pools[i].waiting == []
    ensures WaitingIn(pools) == multiset{}
  {
    if pools != [] { NothingWaits(pools[1..]); }
  }

  // ---- Insertion as multisets ----

  ghost predicate Distinct(xs: seq<Sentence>) {
    forall i, j :: 0 <= i < j < |xs| ==> xs[i] != xs[j]
  }

  lemma {:induction false} InsertMultiset(s: seq<Sentence>, x: Sentence)
    requires x !in s
    ensures multiset(Insert(s, x)) == multiset(s) + multiset{x}
  {
    if s != [] && !Before(x, s[0]) {
      InsertMultiset(s[1..], x);
      assert s == [s[0]] + s[1..];
    }
  }

  lemma {:induction false} InsertAllMultiset(s: seq<Sentence>, xs: seq<Sentence>)
    requires Distinct(xs) && forall x <- xs :: x !in s
    ensures multiset(InsertAll(s, xs)) == multiset(s) + multiset(xs)
    decreases xs
  {
    if xs != [] {
      InsertMultiset(s, xs[0]);
      forall x | x in xs[1..] ensures x !in Insert(s, xs[0]) {
        var j :| 0 <= j < |xs[1..]| && xs[1..][j] == x;
        assert xs[j + 1] == x && x != xs[0];
        assert x in xs && x !in multiset(s) + multiset{xs[0]};
      }
      InsertAllMultiset(Insert(s, xs[0]), xs[1..]);
      assert xs == [xs[0]] + xs[1..];
    }
  }

  lemma {:induction false} FreshDistinct(r: Request, n: nat)
    requires r.Valid() && n <= |r.segments|
    ensures Distinct(FreshUpTo(r, n))
  {
    if n > 0 {
      FreshDistinct(r, n - 1);
      FreshShape(r, n - 1);
    }
  }

  lemma {:induction false} FreshOfAllDistinct(rs: seq<Request>)
    requires DistinctIds(rs) && forall r <- rs :: r.Valid()
    ensures Distinct(FreshOfAll(rs))
    ensures forall x <- FreshOfAll(rs) :: exists r <- rs ::
            x.request == r.id && x.index < |r.segments| && x.length == r.segments[x.index]
  {
    if rs != [] {
      var n := |rs| - 1;
      var init, last := FreshOfAll(rs[..n]), Fresh(rs[n]);
      FreshOfAllDistinct(rs[..n]);
      FreshDistinct(rs[n], |rs[n].segments|);
      FreshShape(rs[n], |rs[n].segments|);
      forall x | x in init ensures x !in last {
        var r :| r in rs[..n] && x.request == r.id;
        var i :| 0 <= i < n && rs[..n][i] == r;
        assert rs[i].id != rs[n].id;
      }
      assert rs[n] in rs;
    }
  }

  // ---- The accounting survives every critical section ----

  lemma AppendKeepsLine(p: Pool, xs: seq<Sentence>)
    requires p.Valid() && Distinct(xs) && forall x <- xs :: x !in p.waiting && x.length <= p.words
    ensures Sorted(InsertAll(p.waiting, xs)) && AllFit(InsertAll(p.waiting, xs), p.words)
    ensures multiset(InsertAll(p.waiting, xs)) == multiset(p.waiting) + multiset(xs)
    ensures xs == [] ==> InsertAll(p.waiting, xs) == p.waiting
  {
    InsertAllElements(p.waiting, xs);
    InsertAllMultiset(p.waiting, xs);
    var line := InsertAll(p.waiting, xs);
    forall i | 0 <= i < |line| ensures line[i].length <= p.words {
      assert line[i] in multiset(p.waiting) + multiset(xs);
    }
  }

  /** Replacing one pool by one that holds `xs` more. */
  lemma PoolGrows(m: Monitor, model: nat, p: Pool, xs: seq<Sentence>, queue: set<nat>)
    requires Accounted(m) && model < |m.pools| && p.Valid()
    requires multiset(p.waiting) == multiset(m.pools[model].waiting) + multiset(xs)
    requires queue == m.queue + {model} || (queue == m.queue && xs == [])
    ensures WaitingIn(m.pools[model := p]) == WaitingIn(m.pools) + multiset(xs)
    ensures Accounted(m.(pools := m.pools[model := p], queue := queue, enqueued := m.enqueued + |xs|))
  {
    WaitingGrows(m.pools, model, p, xs);
    SizesAdd(WaitingIn(m.pools), xs);
    if xs == [] { NothingNew(p, m.pools[model]); }
    QueueGrows(m.pools, m.queue, model, p, queue);
  }

  lemma QueueGrows(pools: seq<Pool>, queue: set<nat>, model: nat, p: Pool, queue': set<nat>)
    requires Queued(pools, queue) && model < |pools| && p.Valid()
    requires queue' == queue + {model} || (queue' == queue && (p.waiting != [] ==> pools[model].waiting != []))
    ensures Queued(pools[model := p], queue')
  {}

  lemma WaitingGrows(pools: seq<Pool>, model: nat, p: Pool, xs: seq<Sentence>)
    requires model < |pools| && multiset(p.waiting) == multiset(pools[model].waiting) + multiset(xs)
    ensures WaitingIn(pools[model := p]) == WaitingIn(pools) + multiset(xs)
  {
    WaitingUpdate(pools, model, p);
    MoveOver(WaitingIn(pools[model := p]), multiset(pools[model].waiting), WaitingIn(pools), multiset(xs));
  }

  lemma SizesAdd(a: multiset<Sentence>, xs: seq<Sentence>)
    ensures |a + multiset(xs)| == |a| + |xs|
  {}

  lemma NothingNew(p: Pool, q: Pool)
    requires multiset(p.waiting) == multiset(q.waiting) + multiset([])
    ensures p.waiting != [] ==> q.waiting != []
  {
    if p.waiting != [] { assert p.waiting[0] in multiset(p.waiting); }
  }

  lemma MoveOver(a: multiset<Sentence>, b: multiset<Sentence>, c: multiset<Sentence>, d: multiset<Sentence>)
    requires a + b == c + (b + d)
    ensures a == c + d
  {
    CancelMultiset(a, b, c + d);
  }

  lemma CancelMultiset(a: multiset<Sentence>, b: multiset<Sentence>, c: multiset<Sentence>)
    requires a + b == c + b
    ensures a == c
  {
    assert a == (a + b) - b;
  }

  lemma EnqueueAccounted(m: Monitor, model: nat, r: Request)
    requires Accounted(m) && CanEnqueue(m, model, [r])
    ensures r.Valid() && NoneOf(m.pools[model].waiting, r.id) && Accounted(Enqueue(m, model, r))
    ensures WaitingIn(Enqueue(m, model, r).pools) == WaitingIn(m.pools) + multiset(Fresh(r))
  {
    assert r in [r];
    var p := m.pools[model];
    FreshDistinct(r, |r.segments|);
    FreshShape(r, |r.segments|);
    forall x | x in Fresh(r) ensures x !in p.waiting && x.length <= p.words {
      assert r.segments[x.index] in r.segments;
    }
    AppendKeepsLine(p, Fresh(r));
    var q := p.WithRequest(r);
    assert q.waiting == [] ==> p.waiting == [] by {
      if p.waiting != [] { assert p.waiting[0] in multiset(q.waiting); }
    }
    PoolGrows(m, model, q, Fresh(r), m.queue + {model});
  }

  lemma EnqueueAllAccounted(m: Monitor, model: nat, rs: seq<Request>, numWorkers: nat)
    requires Accounted(m) && CanEnqueue(m, model, rs)
    ensures Accounted(EnqueueAll(m, model, rs, numWorkers))
    ensures WaitingIn(EnqueueAll(m, model, rs, numWorkers).pools) == WaitingIn(m.pools) + multiset(FreshOfAll(rs))
  {
    var p := m.pools[model];
    var xs := FreshOfAll(rs);
    FreshOfAllDistinct(rs);
    forall x | x in xs ensures x !in p.waiting && x.length <= p.words {
      var r :| r in rs && x.request == r.id && x.index < |r.segments| && x.length == r.segments[x.index];
      assert r.segments[x.index] in r.segments;
    }
    BulkKeepsPool(p, rs, numWorkers);
    PoolGrows(m, model, p.WithRequests(rs, numWorkers), xs, if |xs| > 0 then m.queue + {model} else m.queue);
  }

  lemma BulkKeepsPool(p: Pool, rs: seq<Request>, numWorkers: nat)
    requires p.Valid() && forall r <- rs :: r.Valid()
    requires Distinct(FreshOfAll(rs)) && forall x <- FreshOfAll(rs) :: x !in p.waiting && x.length <= p.words
    ensures p.WithRequests(rs, numWorkers).Valid()
    ensures multiset(p.WithRequests(rs, numWorkers).waiting) == multiset(p.waiting) + multiset(FreshOfAll(rs))
  {
    var xs := FreshOfAll(rs);
    AppendKeepsLine(p, xs);
    if |xs| > 0 {
      CeilDivPositive(|xs|, if numWorkers > 1 then numWorkers else 1);
      assert xs[0] in multiset(p.WithRequests(rs, numWorkers).waiting);
    }
  }

  lemma BatchOfValid(p: Pool)
    requires p.Valid()
    ensures p.waiting == p.Batch() + p.Rest().waiting && p.Rest().Valid()
    ensures p.Batch() == [] <==> p.waiting == []
  {
    TakeIsGreedy(p.waiting, p.words, p.cap);
    SortedSuffix(p.waiting, |p.Batch()|);
  }

  lemma {:induction false} DrawAccounted(m: Monitor, model: nat, skipped: set<nat>)
    requires Accounted(m) && CanDraw(m, model, skipped)
    ensures Accounted(Draw(m, model, skipped))
    ensures WaitingIn(m.pools) == WaitingIn(Draw(m, model, skipped).pools) + multiset(m.pools[model].Batch())
  {
    var p := m.pools[model];
    var m' := Draw(m, model, skipped);
    BatchOfValid(p);
    WaitingUpdate(m.pools, model, p.Rest());
    assert multiset(p.waiting) == multiset(p.Batch()) + multiset(p.Rest().waiting);
    CancelMultiset(WaitingIn(m'.pools) + multiset(p.Batch()), multiset(p.Rest().waiting), WaitingIn(m.pools));
    assert |WaitingIn(m.pools)| == |WaitingIn(m'.pools)| + |p.Batch()|;
    forall i | 0 <= i < |m'.pools| && m'.pools[i].waiting != [] ensures i in m'.queue {
      EveryoneQueued(m, model, skipped, i);
      WaitingContains(m'.pools, i);
      assert m'.pools[i].waiting[0] in WaitingIn(m'.pools);
    }
  }

  lemma EveryoneQueued(m: Monitor, model: nat, skipped: set<nat>, i: nat)
    requires Accounted(m) && CanDraw(m, model, skipped)
    requires i < |m.pools| && Draw(m, model, skipped).pools[i].waiting != []
    ensures i in m.queue - skipped
  {
    BatchOfValid(m.pools[i]);
  }

  /** With anything enqueued some queued model has a batch, whichever drained models the search meets first:
      a draw that finds work never comes back empty-handed. */
  lemma DrawFindsWork(m: Monitor)
    requires Accounted(m) && m.enqueued > 0
    ensures exists model :: CanDraw(m, model, {})
    ensures forall i <- m.queue :: m.pools[i].Batch() == [] ==> m.pools[i].waiting == []
  {
    WaitingSomewhere(m.pools);
    var model :| 0 <= model < |m.pools| && m.pools[model].waiting != [];
    BatchOfValid(m.pools[model]);
    WaitingContains(m.pools, model);
    assert multiset(m.pools[model].waiting) <= WaitingIn(m.pools);
    SubsetSize(multiset(m.pools[model].waiting), WaitingIn(m.pools));
    assert CanDraw(m, model, {});
    forall i | i in m.queue && m.pools[i].Batch() == [] ensures m.pools[i].waiting == [] {
      BatchOfValid(m.pools[i]);
    }
  }

  lemma SubsetSize(a: multiset<Sentence>, b: multiset<Sentence>)
    requires a <= b
    ensures |a| <= |b|
  {
    assert b == a + (b - a);
  }

  /** Dropping the queue with nothing enqueued strands nothing. */
  lemma MaintenanceAccounted(m: Monitor)
    requires Accounted(m)
    ensures Accounted(BeginMaintenance(m))
  {
    forall i | 0 <= i < |m.pools| && m.pools[i].waiting != [] ensures m.enqueued > 0 {
      WaitingContains(m.pools, i);
      assert m.pools[i].waiting[0] in WaitingIn(m.pools);
    }
  }

  /** `clear` keeps the accounting exactly when nothing is pending. */
  lemma ClearAccountedIff(m: Monitor)
    requires Accounted(m)
    ensures Accounted(Clear(m)) <==> m.enqueued == 0
  {
    if m.enqueued == 0 {
      MaintenanceAccounted(m);
      assert BeginMaintenance(m).pools == Clear(m).pools;
    }
  }
}
