/** What the batches of a submission depend on, and what the cap makes of them. */
module Submissions {
  import opened Basics
  import opened Batches
  import opened BatchBounds
  import opened BatchingPools
  import opened Monitors
  import opened ThreadsafePools
  import opened Services
  import opened Schedules

  lemma {:induction false} DistinctSize(xs: seq<Sentence>)
    requires Distinct(xs)
    ensures |xs| == |Elements(xs)|
  {
    if xs != [] {
      DistinctSize(xs[1..]);
      assert xs == [xs[0]] + xs[1..];
      ElementsCons(xs[0], xs[1..]);
      assert xs[0] !in Elements(xs[1..]);
    }
  }

  // ---- The order of the requests in a submission does not matter ----

  lemma {:induction false} InFreshOfAll(rs: seq<Request>, x: Sentence)
    requires forall r <- rs :: r.Valid()
    ensures x in FreshOfAll(rs) <==> exists r :: r in rs && r.Valid() && x in Fresh(r)
  {
    if rs != [] {
      var n := |rs| - 1;
      InFreshOfAll(rs[..n], x);
      assert rs == rs[..n] + [rs[n]];
    }
  }

  lemma SameRequests(rs: seq<Request>, rs': seq<Request>)
    requires multiset(rs) == multiset(rs') && forall r <- rs :: r.Valid()
    ensures (forall r :: r in rs <==> r in rs') && (forall r <- rs' :: r.Valid())
    ensures Elements(FreshOfAll(rs)) == Elements(FreshOfAll(rs'))
  {
    forall r ensures r in rs <==> r in rs' {
      assert r in rs <==> r in multiset(rs);
      assert r in rs' <==> r in multiset(rs');
    }
    forall x ensures x in Elements(FreshOfAll(rs)) <==> x in Elements(FreshOfAll(rs')) {
      InFreshOfAll(rs, x);
      InFreshOfAll(rs', x);
    }
  }

  lemma {:induction false} OnceEach(rs: seq<Request>, r: Request)
    requires DistinctIds(rs)
    ensures multiset(rs)[r] <= 1
  {
    if rs != [] {
      assert rs == [rs[0]] + rs[1..];
      OnceEach(rs[1..], r);
      if r == rs[0] {
        forall i | 0 <= i < |rs[1..]| ensures rs[1..][i] != r { assert rs[i + 1].id != rs[0].id; }
      }
    }
  }

  lemma TwiceIn(rs: seq<Request>, i: nat, j: nat)
    requires i < j < |rs|
    ensures rs[i] == rs[j] ==> multiset(rs)[rs[i]] >= 2
  {
    assert rs == rs[..j] + [rs[j]] + rs[j + 1..];
    assert rs[i] == rs[..j][i] && rs[i] in multiset(rs[..j]);
  }

  lemma DistinctInAnyOrder(rs: seq<Request>, rs': seq<Request>)
    requires multiset(rs) == multiset(rs') && DistinctIds(rs)
    ensures DistinctIds(rs')
  {
    forall i, j | 0 <= i < j < |rs'| ensures rs'[i].id != rs'[j].id {
      var a, b := rs'[i], rs'[j];
      OnceEach(rs, a);
      TwiceIn(rs', i, j);
      assert a in multiset(rs') && b in multiset(rs');
      var k :| 0 <= k < |rs| && rs[k] == a;
      var l :| 0 <= l < |rs| && rs[l] == b;
      assert k < l || l < k;
    }
  }

  /** The same requests in another order leave the same pool behind. */
  lemma RequestOrderIrrelevant(p: Pool, rs: seq<Request>, rs': seq<Request>, numWorkers: nat)
    requires p.Valid() && DistinctIds(rs) && multiset(rs) == multiset(rs')
    requires forall r <- rs :: r.Valid()
    ensures (forall r <- rs' :: r.Valid()) && p.WithRequests(rs, numWorkers) == p.WithRequests(rs', numWorkers)
  {
    SameRequests(rs, rs');
    DistinctInAnyOrder(rs, rs');
    InsertionOrderIrrelevant(p.waiting, FreshOfAll(rs), FreshOfAll(rs'));
    FreshOfAllDistinct(rs);
    FreshOfAllDistinct(rs');
    DistinctSize(FreshOfAll(rs));
    DistinctSize(FreshOfAll(rs'));
  }

  // ---- Blocking and asynchronous translation draw the same batches ----

  /** Each request on its own, as the blocking service hands them in. */
  method EnqueueEach(pool: AggregateBatchingPool, model: nat, requests: seq<Request>)
    requires pool.Valid() && NewTo(pool.pools, model, requests) && Sorted(pool.pools[model].waiting)
    modifies pool, pool.models
    ensures pool.Valid()
    ensures var p := old(pool.pools)[model];
            pool.pools == old(pool.pools)[model := p.(waiting := InsertAll(p.waiting, FreshOfAll(requests)))]
    ensures pool.aggregateQueue == if requests == [] then old(pool.aggregateQueue)
            else old(pool.aggregateQueue) + {model}
  {
    EnteredNone(pool.pools, model, requests);
    for i := 0 to |requests|
      invariant pool.Valid() && Entered(old(pool.pools), model, requests, i, pool.pools)
      invariant pool.aggregateQueue == if i == 0 then old(pool.aggregateQueue) else old(pool.aggregateQueue) + {model}
    {
      EnterNext(old(pool.pools), model, requests, i, pool.pools);
      var n := pool.EnqueueRequest(model, requests[i]);
    }
    EnteredAll(old(pool.pools), model, requests, pool.pools);
  }

  predicate UnfoldEntered(k: nat, pools: seq<Pool>, model: nat, rs: seq<Request>, n: nat, now: seq<Pool>) { true }

  /** The first `n` requests have been put into the pool of `model`, the others are new to it. Unfolds only where
      `UnfoldEntered` is mentioned. */
  ghost predicate Entered(pools: seq<Pool>, model: nat, rs: seq<Request>, n: nat, now: seq<Pool>)
    requires model < |pools| && n <= |rs| && forall r <- rs :: r.Valid()
  {
    forall k: nat {:trigger UnfoldEntered(k, pools, model, rs, n, now)} ::
      UnfoldEntered(k, pools, model, rs, n, now) ==>
      && now == pools[model := pools[model].(waiting := InsertAll(pools[model].waiting, FreshOfAll(rs[..n])))]
      && forall j :: n <= j < |rs| ==> NoneOf(now[model].waiting, rs[j].id)
  }

  lemma EnteredNone(pools: seq<Pool>, model: nat, rs: seq<Request>)
    requires NewTo(pools, model, rs)
    ensures Entered(pools, model, rs, 0, pools)
  {
    assert pools == pools[model := pools[model].(waiting := InsertAll(pools[model].waiting, FreshOfAll(rs[..0])))];
    forall j | 0 <= j < |rs| ensures NoneOf(pools[model].waiting, rs[j].id) { assert rs[j] in rs; }
  }

  lemma EnterNext(pools: seq<Pool>, model: nat, rs: seq<Request>, n: nat, now: seq<Pool>)
    requires NewTo(pools, model, rs) && Sorted(pools[model].waiting) && n < |rs| && Entered(pools, model, rs, n, now)
    ensures NewTo(now, model, [rs[n]])
    ensures Entered(pools, model, rs, n + 1, now[model := now[model].WithRequest(rs[n])])
  {
    assert UnfoldEntered(0, pools, model, rs, n, now);
    StillNoneOf(pools[model].waiting, FreshOfAll(rs[..n]), rs, n);
    InsertAllAppend(pools[model].waiting, FreshOfAll(rs[..n]), Fresh(rs[n]));
    assert rs[..n + 1][..n] == rs[..n];
  }

  lemma EnteredAll(pools: seq<Pool>, model: nat, rs: seq<Request>, now: seq<Pool>)
    requires NewTo(pools, model, rs) && Entered(pools, model, rs, |rs|, now)
    ensures now == pools[model := pools[model].(waiting := InsertAll(pools[model].waiting, FreshOfAll(rs)))]
  {
    assert UnfoldEntered(0, pools, model, rs, |rs|, now);
    assert rs[..|rs|] == rs;
  }

  /** The blocking service: every request is enqueued on its own, then the caller draws until nothing is left. */
  method BlockingBatches(pool: AggregateBatchingPool, model: nat, requests: seq<Request>)
    returns (batches: seq<seq<Sentence>>)
    requires pool.Valid() && NewTo(pool.pools, model, requests)
    requires forall i :: 0 <= i < |pool.pools| ==> pool.pools[i].waiting == [] && pool.pools[i].cap == Unbounded
    requires forall r <- requests :: forall l <- r.segments :: l <= pool.pools[model].words
    modifies pool, pool.models
    ensures batches == Draws(InsertAll([], FreshOfAll(requests)), old(pool.pools)[model].words, Unbounded)
    ensures pool.Valid() && forall i :: 0 <= i < |pool.pools| ==> pool.pools[i].waiting == []
  {
    LineFits(requests, pool.pools[model].words);
    EnqueueEach(pool, model, requests);
    ghost var all := DrawsOf(pool.pools[model]);
    batches := [];
    while true
      invariant pool.Valid() && Draining(pool.pools, pool.aggregateQueue, model, batches, all)
      decreases |pool.pools[model].waiting|
    {
      ghost var pools, queue := pool.pools, pool.aggregateQueue;
      var m, batch := pool.GenerateBatch();
      BlockingDraw(pools, queue, pool.pools, pool.aggregateQueue, m, batch, model, batches, all);
      if batch == [] {
        break;
      }
      batches := batches + [batch];
    }
  }

  /** `model` is the only one with sentences, the queue reaches it, and its draws are what `batches` lacks of `all`. */
  ghost predicate Draining(pools: seq<Pool>, queue: set<nat>, model: nat, batches: seq<seq<Sentence>>,
                           all: seq<seq<Sentence>>) {
    && OnlyModel(pools, model) && (forall i :: 0 <= i < |pools| ==> pools[i].Valid())
    && (pools[model].waiting != [] ==> model in queue)
    && batches + DrawsOf(pools[model]) == all
  }

  lemma BlockingDraw(pools: seq<Pool>, queue: set<nat>, pools': seq<Pool>, queue': set<nat>, m: nat,
                     batch: seq<Sentence>, model: nat, batches: seq<seq<Sentence>>, all: seq<seq<Sentence>>)
    requires Searched(pools, queue, pools', queue', m, batch) && Draining(pools, queue, model, batches, all)
    ensures batch == [] ==>
              pools' == pools && batches == all && forall i :: 0 <= i < |pools| ==> pools[i].waiting == []
    ensures batch != [] ==>
              && Draining(pools', queue', model, batches + [batch], all)
              && |pools'[model].waiting| < |pools[model].waiting|
  {
    var p := pools[model];
    BatchOfValid(p);
    if batch == [] {
      assert p.waiting == [];
      assert DrawsOf(p) == [];
    } else {
      BatchOfValid(pools[m]);
      assert m == model;
      DrawUnfolds(p);
      assert batches + ([batch] + DrawsOf(p.Rest())) == (batches + [batch]) + DrawsOf(p.Rest());
    }
  }

  lemma LineFits(rs: seq<Request>, words: nat)
    requires DistinctIds(rs) && forall r <- rs :: r.Valid() && forall l <- r.segments :: l <= words
    ensures Sorted(InsertAll([], FreshOfAll(rs))) && AllFit(InsertAll([], FreshOfAll(rs)), words)
    ensures |InsertAll([], FreshOfAll(rs))| == |FreshOfAll(rs)|
  {
    FreshOfAllDistinct(rs);
    forall x | x in FreshOfAll(rs) ensures x.length <= words {
      var r :| r in rs && x.request == r.id && x.index < |r.segments| && x.length == r.segments[x.index];
      assert r.segments[x.index] in r.segments;
    }
    AppendKeepsLine(Pool(words, [], Unbounded), FreshOfAll(rs));
    assert |multiset(InsertAll([], FreshOfAll(rs)))| == |multiset([]) + multiset(FreshOfAll(rs))|;
  }

  // ---- Only the order of the request ids matters ----

  function Renamed(s: seq<Sentence>, f: nat -> nat): seq<Sentence> {
    seq(|s|, i requires 0 <= i < |s| => s[i].(request := f(s[i].request)))
  }

  function RenamedAll(ss: seq<seq<Sentence>>, f: nat -> nat): seq<seq<Sentence>> {
    seq(|ss|, i requires 0 <= i < |ss| => Renamed(ss[i], f))
  }

  ghost predicate OrderPreserving(f: nat -> nat) {
    forall i, j :: i < j ==> f(i) < f(j)
  }

  lemma {:induction false} TakeRenamed(s: seq<Sentence>, f: nat -> nat, words: nat, cap: Cap, k: nat)
    requires k <= |s|
    ensures TakeFrom(Renamed(s, f), words, cap, k) == TakeFrom(s, words, cap, k)
    decreases |s| - k
  {
    if Room(s, words, cap, k) { TakeRenamed(s, f, words, cap, k + 1); }
  }

  lemma {:induction false} InsertRenamed(s: seq<Sentence>, x: Sentence, f: nat -> nat)
    requires OrderPreserving(f)
    ensures Insert(Renamed(s, f), x.(request := f(x.request))) == Renamed(Insert(s, x), f)
  {
    if s != [] {
      assert f(x.request) < f(s[0].request) <==> x.request < s[0].request;
      assert Renamed(s, f)[1..] == Renamed(s[1..], f);
      InsertRenamed(s[1..], x, f);
    }
  }

  lemma {:induction false} InsertAllRenamed(s: seq<Sentence>, xs: seq<Sentence>, f: nat -> nat)
    requires OrderPreserving(f)
    ensures InsertAll(Renamed(s, f), Renamed(xs, f)) == Renamed(InsertAll(s, xs), f)
    decreases xs
  {
    if xs != [] {
      InsertRenamed(s, xs[0], f);
      assert Renamed(xs, f)[1..] == Renamed(xs[1..], f);
      InsertAllRenamed(Insert(s, xs[0]), xs[1..], f);
    }
  }

  /** The same texts under other request ids in the same order make the same batches. */
  lemma {:induction false} DrawsRenamed(s: seq<Sentence>, f: nat -> nat, words: nat, cap: Cap)
    requires cap.Valid() && AllFit(s, words)
    ensures Draws(Renamed(s, f), words, cap) == RenamedAll(Draws(s, words, cap), f)
    decreases |s|
  {
    TakeRenamed(s, f, words, cap, 0);
    TakeIsGreedy(s, words, cap);
    if s != [] {
      var k := Take(s, words, cap);
      assert Renamed(s, f)[k..] == Renamed(s[k..], f);
      assert Renamed(s, f)[..k] == Renamed(s[..k], f);
      DrawsRenamed(s[k..], f, words, cap);
    }
  }

  // ---- Blocking and asynchronous translation of the same texts ----

  /** The same requests under ids of another counter. */
  function WithIds(rs: seq<Request>, f: nat -> nat): (ws: seq<Request>)
    ensures |ws| == |rs|
  {
    if rs == [] then [] else WithIds(rs[..|rs| - 1], f) + [WithId(rs[|rs| - 1], f)]
  }

  function WithId(r: Request, f: nat -> nat): Request { r.(id := f(r.id)) }

  lemma RenamedAppend(a: seq<Sentence>, b: seq<Sentence>, f: nat -> nat)
    ensures Renamed(a + b, f) == Renamed(a, f) + Renamed(b, f)
  {}

  lemma {:induction false} FreshRenamed(r: Request, f: nat -> nat, n: nat)
    requires r.Valid() && n <= |r.segments|
    ensures FreshUpTo(WithId(r, f), n) == Renamed(FreshUpTo(r, n), f)
  {
    if n > 0 {
      FreshRenamed(r, f, n - 1);
      var x := Sentence(r.segments[n - 1], r.id, n - 1);
      assert Renamed([x], f) == [x.(request := f(r.id))];
      RenamedAppend(FreshUpTo(r, n - 1), if r.prefilled[n - 1] then [] else [x], f);
    }
  }

  lemma {:induction false} FreshOfAllRenamed(rs: seq<Request>, f: nat -> nat)
    requires forall r <- rs :: r.Valid()
    ensures forall r <- WithIds(rs, f) :: r.Valid()
    ensures FreshOfAll(WithIds(rs, f)) == Renamed(FreshOfAll(rs), f)
  {
    if rs != [] {
      var n := |rs| - 1;
      FreshOfAllRenamed(rs[..n], f);
      assert rs[n] in rs && WithIds(rs, f)[..n] == WithIds(rs[..n], f);
      FreshRenamed(rs[n], f, |rs[n].segments|);
      RenamedAppend(FreshOfAll(rs[..n]), Fresh(rs[n]), f);
    }
  }

  /** What the blocking service draws for some requests. */
  function BlockingDraws(rs: seq<Request>, words: nat): seq<seq<Sentence>>
    requires forall r <- rs :: r.Valid()
  {
    Draws(InsertAll([], FreshOfAll(rs)), words, Unbounded)
  }

  /** The same texts under ids of another counter make the same batches. */
  lemma SameTextsSameBatches(rs: seq<Request>, f: nat -> nat, words: nat)
    requires OrderPreserving(f) && DistinctIds(rs)
    requires forall r <- rs :: r.Valid() && forall l <- r.segments :: l <= words
    ensures forall r <- WithIds(rs, f) :: r.Valid()
    ensures BlockingDraws(WithIds(rs, f), words) == RenamedAll(BlockingDraws(rs, words), f)
  {
    FreshOfAllRenamed(rs, f);
    assert Renamed([], f) == [];
    InsertAllRenamed([], FreshOfAll(rs), f);
    LineFits(rs, words);
    DrawsRenamed(InsertAll([], FreshOfAll(rs)), f, words, Unbounded);
  }

  /** No cap is set exactly if nothing is new or enough batches form without one; so for one worker there never is
      one. */
  lemma NoCapIff(p: Pool, rs: seq<Request>, numWorkers: nat)
    requires p.Valid() && p.waiting == [] && DistinctIds(rs)
    requires forall r <- rs :: r.Valid() && forall l <- r.segments :: l <= p.words
    ensures p.WithRequests(rs, numWorkers).cap == Unbounded <==>
              FreshOfAll(rs) == [] || |BlockingDraws(rs, p.words)| >= numWorkers
    ensures numWorkers <= 1 ==> p.WithRequests(rs, numWorkers).cap == Unbounded
  {
    var line := InsertAll([], FreshOfAll(rs));
    LineFits(rs, p.words);
    CountIsDraws(line, p.words);
    if FreshOfAll(rs) != [] {
      InsertAllElements([], FreshOfAll(rs));
      assert FreshOfAll(rs)[0] in Elements(line);
      CountPositive(line, p.words, 0);
    }
  }

  /** What a submission does to a pool that may have work in it. If nothing is new, or a batch for every worker forms
      without one, the cap in force stays; otherwise it is the least one that leaves no new sentence over when every
      worker has a batch. */
  lemma CapOfSubmission(p: Pool, rs: seq<Request>, numWorkers: nat)
    requires p.Valid() && DistinctIds(rs)
    requires forall r <- rs :: r.Valid() && NoneOf(p.waiting, r.id) && forall l <- r.segments :: l <= p.words
    ensures var q, line := p.WithRequests(rs, numWorkers), InsertAll(p.waiting, FreshOfAll(rs));
            var added, w, free := |FreshOfAll(rs)|, Max(numWorkers, 1), |Draws(line, p.words, Unbounded)|;
            && q.waiting == line && |line| == |p.waiting| + added
            && (added == 0 || free >= w ==> q.cap == p.cap)
            && (added > 0 && free < w ==> q.cap.AtMost? && added <= q.cap.limit * w < added + w)
  {
    var line := InsertAll(p.waiting, FreshOfAll(rs));
    GrownLineFits(p, rs);
    CountIsDraws(line, p.words);
    CapAfterIs(line, p.words, p.cap, |FreshOfAll(rs)|, numWorkers);
  }

  lemma GrownLineFits(p: Pool, rs: seq<Request>)
    requires p.Valid() && DistinctIds(rs)
    requires forall r <- rs :: r.Valid() && NoneOf(p.waiting, r.id) && forall l <- r.segments :: l <= p.words
    ensures AllFit(InsertAll(p.waiting, FreshOfAll(rs)), p.words)
    ensures |InsertAll(p.waiting, FreshOfAll(rs))| == |p.waiting| + |FreshOfAll(rs)|
  {
    FreshOfAllDistinct(rs);
    forall x | x in FreshOfAll(rs) ensures x !in p.waiting && x.length <= p.words {
      var r :| r in rs && x.request == r.id && x.index < |r.segments| && x.length == r.segments[x.index];
      assert r.segments[x.index] in r.segments;
    }
    AppendKeepsLine(p, FreshOfAll(rs));
    assert |multiset(InsertAll(p.waiting, FreshOfAll(rs)))| == |multiset(p.waiting) + multiset(FreshOfAll(rs))|;
  }

  /** A submission that is all in the cache leaves the batches to come as they were, whatever waits and whatever cap is
      in force. */
  lemma CachedChangesNothing(p: Pool, rs: seq<Request>, numWorkers: nat)
    requires p.Valid() && (forall r <- rs :: r.Valid()) && FreshOfAll(rs) == []
    ensures p.WithRequests(rs, numWorkers) == p && DrawsOf(p.WithRequests(rs, numWorkers)) == DrawsOf(p)
  {
    CapAfterIs(p.waiting, p.words, p.cap, 0, numWorkers);
  }

  lemma {:induction false} CountPositive(s: seq<Sentence>, words: nat, inBatch: nat)
    requires s != [] || inBatch > 0
    ensures CountFrom(s, words, inBatch) >= 1
    decreases s
  {
    if s != [] && (inBatch + 1) * s[0].length <= words { CountPositive(s[1..], words, inBatch + 1); }
  }

  /** The asynchronous service is handed the blocking service's requests under ids of its own counter, at once and with
      nothing else pending. If no cap is set, then in every run in which all of it was drawn, whatever the schedule of
      workers and maintenance, it was drawn in the blocking service's batches and in their order. */
  lemma AsyncDrawsAsBlocking(s: Service, model: nat, rs: seq<Request>, f: nat -> nat, steps: seq<Step>)
    requires OrderPreserving(f) && DistinctIds(rs) && forall r <- rs :: r.Valid()
    requires Inv(s) && s.m.enqueued == 0 && Enabled(s, SubmitAll(model, WithIds(rs, f)))
    requires forall r <- rs :: forall l <- r.segments :: l <= s.m.pools[model].words
    requires FreshOfAll(rs) == [] || |BlockingDraws(rs, s.m.pools[model].words)| >= |s.workers|
    requires Legal(Next(s, SubmitAll(model, WithIds(rs, f))), steps)
    requires forall step <- steps :: !step.SubmitOne? && !step.SubmitAll?
    ensures var e := Run(Next(s, SubmitAll(model, WithIds(rs, f))), steps);
            e.m.enqueued == 0 ==>
              e.log == s.log + Jobs(model, RenamedAll(BlockingDraws(rs, s.m.pools[model].words), f))
  {
    var p, ids := s.m.pools[model], WithIds(rs, f);
    DrainedIsEmpty(s.m, model);
    BatchesAreDeterministic(s, model, ids, steps);
    SameTextsSameBatches(rs, f, p.words);
    FreshOfAllRenamed(rs, f);
    NoCapIff(p, ids, |s.workers|);
  }

  // ---- What the cap does for a submission ----

  /** If a submission to a drained pool sets a cap, that is `c = ceil(S / W)`, and the batches it makes are within the
      bounds: at least `ceil(S / c)`, at most `B + floor(S / c)`, fewer than `2 W`, and more than half the workers busy
      as soon as there are as many sentences as workers. */
  lemma SubmissionSpreads(p: Pool, rs: seq<Request>, numWorkers: nat)
    requires p.Valid() && p.waiting == [] && DistinctIds(rs)
    requires forall r <- rs :: r.Valid() && forall l <- r.segments :: l <= p.words
    requires p.WithRequests(rs, numWorkers).cap != Unbounded
    ensures numWorkers > 1 && FreshOfAll(rs) != []
    ensures var q, total, c := p.WithRequests(rs, numWorkers), |FreshOfAll(rs)|, CeilDiv(|FreshOfAll(rs)|, numWorkers);
            && q.cap == AtMost(c) && c >= 1
            && CeilDiv(total, c) <= |DrawsOf(q)| <= |BlockingDraws(rs, p.words)| + FloorDiv(total, c)
            && |DrawsOf(q)| < 2 * numWorkers && (total >= numWorkers ==> 2 * |DrawsOf(q)| > numWorkers)
  {
    var line := InsertAll([], FreshOfAll(rs));
    NoCapIff(p, rs, numWorkers);
    LineFits(rs, p.words);
    CountIsDraws(line, p.words);
    CapSpreadsSubmission(line, p.words, numWorkers, CeilDiv(|line|, numWorkers));
  }

  // ---- "At least W batches whenever S >= W" ----

  /** Requests with `total` sentences to translate, each of one word at least, since all end in an end of sentence. */
  ghost predicate Submits(rs: seq<Request>, total: nat, words: nat) {
    && DistinctIds(rs) && (forall r <- rs :: r.Valid() && forall l <- r.segments :: 1 <= l <= words)
    && |FreshOfAll(rs)| == total
  }

  /** Whatever is submitted to the drained pool, every worker can have a batch. */
  ghost predicate AlwaysEnough(total: nat, numWorkers: nat, words: nat) {
    forall rs: seq<Request> :: Submits(rs, total, words) ==>
      |DrawsOf(Pool(words, [], Unbounded).WithRequests(rs, numWorkers))| >= numWorkers
  }

  /** Exactly when the promise holds that a submission of `total` sentences makes a batch for every worker: no batch can
      hold more sentences than the cap, or than one-word sentences fit the budget. */
  lemma AlwaysEnoughIff(total: nat, numWorkers: nat, words: nat)
    requires total >= 1 && numWorkers >= 1 && words >= 1
    ensures AlwaysEnough(total, numWorkers, words) <==>
              (numWorkers - 1) * Min(CeilDiv(total, numWorkers), words) < total
  {
    var c := CeilDiv(total, numWorkers);
    CeilDivPositive(total, numWorkers);
    if (numWorkers - 1) * Min(c, words) < total {
      forall rs: seq<Request> | Submits(rs, total, words)
        ensures |DrawsOf(Pool(words, [], Unbounded).WithRequests(rs, numWorkers))| >= numWorkers
      {
        EnoughFor(rs, total, numWorkers, words, c);
      }
    } else {
      var rs := OneWordEach(total);
      OneWordSubmits(total, words);
      TooFewFor(rs, total, numWorkers, words, c);
    }
  }

  /** Room for one more means that fewer than `k` are there. */
  ghost predicate HoldsAtMost(words: nat, cap: Cap, k: nat) { forall j: nat :: cap.Allows(j) && j < words ==> j < k }

  lemma {:induction false} BatchesHold(s: seq<Sentence>, words: nat, cap: Cap, k: nat)
    requires AllFit(s, words) && cap.Valid() && HoldsAtMost(words, cap, k)
    requires forall i :: 0 <= i < |s| ==> s[i].length >= 1
    ensures |Draws(s, words, cap)| * k >= |s|
    decreases |s|
  {
    TakeIsGreedy(s, words, cap);
    if s != [] {
      var t := Take(s, words, cap);
      assert Room(s, words, cap, t - 1);
      MulMono(t, 1, s[t - 1].length);
      OneDraw(s, words, cap, t);
      BatchesHold(s[t..], words, cap, k);
      OneMore(|s|, t, k, |Draws(s[t..], words, cap)|);
    }
  }

  lemma OneMore(a: nat, t: nat, k: nat, n: nat)
    requires t <= a && t <= k && n * k >= a - t
    ensures (1 + n) * k >= a
  {
    assert (1 + n) * k == n * k + k;
  }

  lemma EnoughFor(rs: seq<Request>, total: nat, numWorkers: nat, words: nat, c: nat)
    requires Submits(rs, total, words) && total >= 1 && numWorkers >= 1 && words >= 1
    requires c == CeilDiv(total, numWorkers) >= 1
    requires (numWorkers - 1) * Min(c, words) < total
    ensures |DrawsOf(Pool(words, [], Unbounded).WithRequests(rs, numWorkers))| >= numWorkers
  {
    var p := Pool(words, [], Unbounded);
    var line := InsertAll([], FreshOfAll(rs));
    LineFits(rs, words);
    CountIsDraws(line, words);
    LineHasWords(rs, total, words);
    if numWorkers > 1 && p.WithRequests(rs, numWorkers).cap != Unbounded {
      BatchesHold(line, words, AtMost(c), Min(c, words));
      GuardFails(total, numWorkers, Min(c, words), |Draws(line, words, AtMost(c))|);
    } else {
      NoCapIff(p, rs, numWorkers);
    }
  }

  lemma GuardFails(a: nat, w: nat, k: nat, n: nat)
    requires w >= 1 && (w - 1) * k < a <= n * k
    ensures n >= w
  {
    if n < w { MulMono(k, n, w - 1); }
  }

  lemma LineHasWords(rs: seq<Request>, total: nat, words: nat)
    requires Submits(rs, total, words)
    ensures forall x <- InsertAll([], FreshOfAll(rs)) :: x.length >= 1
  {
    InsertAllElements([], FreshOfAll(rs));
    forall x | x in InsertAll([], FreshOfAll(rs)) ensures x.length >= 1 {
      assert x in Elements(InsertAll([], FreshOfAll(rs))) && x in FreshOfAll(rs);
      InFreshOfAll(rs, x);
      var r :| r in rs && r.Valid() && x in Fresh(r);
      FreshShape(r, |r.segments|);
      assert r.segments[x.index] in r.segments;
    }
  }

  /** One request of one-word sentences. */
  function OneWordEach(total: nat): seq<Request> {
    [Request(0, seq(total, _ => 1), seq(total, _ => false))]
  }

  lemma {:induction false} AllFresh(r: Request, n: nat)
    requires r.Valid() && n <= |r.segments| && forall i :: 0 <= i < |r.segments| ==> !r.prefilled[i]
    ensures |FreshUpTo(r, n)| == n
  {
    if n > 0 { AllFresh(r, n - 1); }
  }

  lemma OneWordSubmits(total: nat, words: nat)
    requires words >= 1
    ensures Submits(OneWordEach(total), total, words)
    ensures forall x <- InsertAll([], FreshOfAll(OneWordEach(total))) :: x.length == 1
  {
    var rs := OneWordEach(total);
    var r := rs[0];
    AllFresh(r, total);
    FreshShape(r, total);
    assert rs[..0] == [] && FreshOfAll(rs) == [] + Fresh(r);
    InsertAllElements([], FreshOfAll(rs));
    forall x | x in InsertAll([], FreshOfAll(rs)) ensures x.length == 1 {
      assert x in Elements(InsertAll([], FreshOfAll(rs))) && x in FreshOfAll(rs);
    }
  }

  lemma {:induction false} OneWordBatches(s: seq<Sentence>, words: nat, cap: Cap, k: nat)
    requires cap.Valid() && words >= 1 && k >= 1 && forall j: nat :: j < k ==> cap.Allows(j) && j < words
    requires forall i :: 0 <= i < |s| ==> s[i].length == 1
    ensures |Draws(s, words, cap)| * k < |s| + k
    decreases |s|
  {
    TakeIsGreedy(s, words, cap);
    var t := Take(s, words, cap);
    if s != [] {
      assert Room(s, words, cap, t) <==> t < |s| && cap.Allows(t) && t < words;
      OneDraw(s, words, cap, t);
      OneWordBatches(s[t..], words, cap, k);
      OneFewer(|s|, t, k, |Draws(s[t..], words, cap)|);
    }
  }

  lemma OneFewer(a: nat, t: nat, k: nat, n: nat)
    requires 0 < t <= a && (t == a || t >= k) && n * k < a - t + k && k >= 1
    ensures (1 + n) * k < a + k
  {
    assert (1 + n) * k == n * k + k;
    if t == a && n >= 1 { MulMono(k, 1, n); }
  }

  lemma TooFewFor(rs: seq<Request>, total: nat, numWorkers: nat, words: nat, c: nat)
    requires Submits(rs, total, words) && total >= 1 && numWorkers >= 1 && words >= 1
    requires c == CeilDiv(total, numWorkers) >= 1
    requires forall x <- InsertAll([], FreshOfAll(rs)) :: x.length == 1
    requires (numWorkers - 1) * Min(c, words) >= total
    ensures |DrawsOf(Pool(words, [], Unbounded).WithRequests(rs, numWorkers))| < numWorkers
  {
    var p := Pool(words, [], Unbounded);
    var line := InsertAll([], FreshOfAll(rs));
    LineFits(rs, words);
    OneWordBatches(line, words, Unbounded, words);
    MulMono(numWorkers - 1, Min(c, words), words);
    GuardHolds(total, numWorkers, words, |Draws(line, words, Unbounded)|);
    NoCapIff(p, rs, numWorkers);
    OneWordBatches(line, words, AtMost(c), Min(c, words));
    GuardHolds(total, numWorkers, Min(c, words), |Draws(line, words, AtMost(c))|);
  }

  lemma GuardHolds(a: nat, w: nat, k: nat, n: nat)
    requires w >= 1 && k >= 1 && n * k < a + k && a <= (w - 1) * k
    ensures n < w
  {
    assert (w - 1) * k + k == w * k;
    if n >= w { MulMono(k, w, n); }
  }
}
