/** A request while its sentences come back from several workers, and the collector that gathers its responses. */
module Requests {
  import opened Basics

  /** How far the worker that translated a segment has got: nothing yet, history stored, counter decremented to zero
      and so about to build the response, finished. */
  datatype Progress = Untouched | Stored | Firing | Finished

  /** A request's shared state. `delivered` is what the response builder was called with, `fired` how often. */
  datatype State<H> = State(histories: seq<Option<H>>, counter: int, progress: seq<Progress>, fired: nat,
                            delivered: seq<Option<H>>)

  /** Segments whose worker has yet to decrement the counter. */
  function Outstanding(progress: seq<Progress>): nat {
    if progress == [] then 0
    else (if progress[0] == Untouched || progress[0] == Stored then 1 else 0) + Outstanding(progress[1..])
  }

  function FiringNow(progress: seq<Progress>): nat {
    if progress == [] then 0 else (if progress[0] == Firing then 1 else 0) + FiringNow(progress[1..])
  }

  /** Number of segments not found in the cache. */
  function Missing<H>(hits: seq<Option<H>>): nat {
    if hits == [] then 0 else (if hits[0].None? then 1 else 0) + Missing(hits[1..])
  }

  lemma {:induction false} MissingIs<H>(hits: seq<Option<H>>)
    ensures Missing(hits) == multiset(hits)[None]
  {
    if hits != [] {
      MissingIs(hits[1..]);
      assert hits == [hits[0]] + hits[1..];
    }
  }

  lemma {:induction false} NoneMissing<H>(hits: seq<Option<H>>)
    ensures Missing(hits) == 0 <==> forall i :: 0 <= i < |hits| ==> hits[i].Some?
  {
    if hits != [] {
      NoneMissing(hits[1..]);
      forall i | 0 < i < |hits| ensures hits[i] == hits[1..][i - 1] {}
      if Missing(hits) != 0 && hits[0].Some? {
        var i :| 0 <= i < |hits[1..]| && hits[1..][i].None?;
        assert hits[i + 1].None?;
      }
    }
  }

  function Start<H>(hits: seq<Option<H>>): seq<Progress> {
    seq(|hits|, i requires 0 <= i < |hits| => if hits[i].Some? then Finished else Untouched)
  }

  /** A request just built: with nothing to translate its response builder has already run. */
  function Built<H>(hits: seq<Option<H>>): State<H> {
    if Missing(hits) == 0 then State(hits, 0, Start(hits), 1, hits)
    else State(hits, Missing(hits), Start(hits), 0, [])
  }

  /** The worker-side steps of `processHistory`; only the decrement is atomic, so they interleave freely. */
  datatype Step<H> = Store(i: nat, history: H) | Count(i: nat) | Fire(i: nat)

  predicate Enabled<H>(s: State<H>, step: Step<H>) {
    step.i < |s.progress| && |s.histories| == |s.progress| &&
    match step
    case Store(i, _) => s.progress[i] == Untouched
    case Count(i) => s.progress[i] == Stored
    case Fire(i) => s.progress[i] == Firing
  }

  function Next<H>(s: State<H>, step: Step<H>): State<H>
    requires Enabled(s, step)
  {
    match step
    case Store(i, h) => s.(histories := s.histories[i := Some(h)], progress := s.progress[i := Stored])
    case Count(i) =>
      s.(counter := s.counter - 1, progress := s.progress[i := if s.counter - 1 == 0 then Firing else Finished])
    case Fire(i) => s.(fired := s.fired + 1, delivered := s.histories, progress := s.progress[i := Finished])
  }

  ghost predicate Legal<H>(s: State<H>, steps: seq<Step<H>>)
    decreases steps
  {
    steps == [] || (Enabled(s, steps[0]) && Legal(Next(s, steps[0]), steps[1..]))
  }

  ghost function Run<H>(s: State<H>, steps: seq<Step<H>>): State<H>
    requires Legal(s, steps)
    decreases steps
  {
    if steps == [] then s else Run(Next(s, steps[0]), steps[1..])
  }

  ghost predicate Inv<H>(s: State<H>) {
    && |s.histories| == |s.progress|
    && s.counter == Outstanding(s.progress)
    && s.fired + FiringNow(s.progress) == (if s.counter == 0 then 1 else 0)
    && (forall i :: 0 <= i < |s.progress| && s.progress[i] != Untouched ==> s.histories[i].Some?)
    && (s.fired == 1 ==> s.delivered == s.histories)
  }

  lemma {:induction false} CountsUpdate(p: seq<Progress>, i: nat, x: Progress)
    requires i < |p|
    ensures Outstanding(p[i := x]) + (if p[i] == Untouched || p[i] == Stored then 1 else 0)
         == Outstanding(p) + (if x == Untouched || x == Stored then 1 else 0)
    ensures FiringNow(p[i := x]) + (if p[i] == Firing then 1 else 0) == FiringNow(p) + (if x == Firing then 1 else 0)
  {
    if i == 0 {
      assert p[0 := x][1..] == p[1..];
    } else {
      assert p[i := x][1..] == p[1..][i - 1 := x];
      CountsUpdate(p[1..], i - 1, x);
    }
  }

  lemma {:induction false} NoneOutstanding(p: seq<Progress>, i: nat)
    requires Outstanding(p) == 0 && i < |p|
    ensures p[i] == Firing || p[i] == Finished
  {
    if i > 0 { NoneOutstanding(p[1..], i - 1); }
  }

  lemma {:induction false} StartCounts<H>(hits: seq<Option<H>>)
    ensures Outstanding(Start(hits)) == Missing(hits) && FiringNow(Start(hits)) == 0
  {
    if hits != [] {
      assert Start(hits)[1..] == Start(hits[1..]);
      StartCounts(hits[1..]);
    }
  }

  lemma {:induction false} AllFinished(p: seq<Progress>)
    requires forall i :: 0 <= i < |p| ==> p[i] == Finished
    ensures Outstanding(p) == 0 && FiringNow(p) == 0
  {
    if p != [] { AllFinished(p[1..]); }
  }

  lemma BuiltInv<H>(hits: seq<Option<H>>)
    ensures Inv(Built(hits))
  {
    StartCounts(hits);
  }

  lemma StepInv<H>(s: State<H>, step: Step<H>)
    requires Inv(s) && Enabled(s, step)
    ensures Inv(Next(s, step))
  {
    CountsUpdate(s.progress, step.i, Next(s, step).progress[step.i]);
    if s.fired == 1 && !step.Fire? { NoneOutstanding(s.progress, step.i); }
  }

  lemma {:induction false} RunInv<H>(s: State<H>, steps: seq<Step<H>>)
    requires Inv(s) && Legal(s, steps)
    ensures Inv(Run(s, steps))
    decreases steps
  {
    if steps != [] {
      StepInv(s, steps[0]);
      RunInv(Next(s, steps[0]), steps[1..]);
    }
  }

  /** The response builder runs at most once, only with every history set, and it has run once all segments are
      finished, however the workers' steps interleave and whatever the cache had. */
  lemma BuilderRunsExactlyOnce<H>(hits: seq<Option<H>>, steps: seq<Step<H>>)
    requires Legal(Built(hits), steps)
    ensures var e := Run(Built(hits), steps);
            && e.fired <= 1
            && (e.fired == 1 ==> |e.delivered| == |hits| && forall i :: 0 <= i < |hits| ==> e.delivered[i].Some?)
            && ((forall i :: 0 <= i < |e.progress| ==> e.progress[i] == Finished) ==> e.fired == 1)
  {
    BuiltInv(hits);
    RunInv(Built(hits), steps);
    var e := Run(Built(hits), steps);
    SameSize(Built(hits), steps);
    FiredIsComplete(e);
    if forall i :: 0 <= i < |e.progress| ==> e.progress[i] == Finished { AllFinished(e.progress); }
  }

  /** Whoever fired did so once, with every history set. */
  lemma FiredIsComplete<H>(s: State<H>)
    requires Inv(s)
    ensures s.fired <= 1
    ensures s.fired == 1 ==>
              |s.delivered| == |s.progress| && forall i :: 0 <= i < |s.delivered| ==> s.delivered[i].Some?
  {
    if s.fired == 1 {
      forall i | 0 <= i < |s.delivered| ensures s.delivered[i].Some? { NoneOutstanding(s.progress, i); }
    }
  }

  lemma {:induction false} SameSize<H>(s: State<H>, steps: seq<Step<H>>)
    requires Legal(s, steps)
    ensures |Run(s, steps).progress| == |s.progress|
    decreases steps
  {
    if steps != [] { SameSize(Next(s, steps[0]), steps[1..]); }
  }

  /** What is delivered is what was stored: a history put in is still there in every later state, and in the
      response. */
  lemma {:induction false} StoredHistoryIsDelivered<H>(s: State<H>, i: nat, h: H, steps: seq<Step<H>>)
    requires Inv(s) && Enabled(s, Store(i, h)) && Legal(Next(s, Store(i, h)), steps)
    ensures var e := Run(Next(s, Store(i, h)), steps);
            && |e.histories| == |s.histories| && e.histories[i] == Some(h)
            && (e.fired == 1 ==> |e.delivered| == |s.histories| && e.delivered[i] == Some(h))
  {
    StepInv(s, Store(i, h));
    StaysStored(Next(s, Store(i, h)), i, steps);
  }

  /** Whatever is delivered for a segment is what the cache had for it or, if it had nothing, what a worker stored. */
  lemma DeliveredComesFrom<H>(hits: seq<Option<H>>, steps: seq<Step<H>>, i: nat)
    requires Legal(Built(hits), steps) && i < |hits| && Run(Built(hits), steps).fired == 1
    ensures var e := Run(Built(hits), steps);
            && |e.delivered| == |hits|
            && (hits[i].Some? ==> e.delivered[i] == hits[i])
            && (hits[i].None? ==> exists h :: Store(i, h) in steps && e.delivered[i] == Some(h))
  {
    BuilderRunsExactlyOnce(hits, steps);
    BuiltInv(hits);
    RunInv(Built(hits), steps);
    if hits[i].Some? {
      StaysStored(Built(hits), i, steps);
    } else {
      UnlessStored(Built(hits), i, steps);
    }
  }

  lemma {:induction false} UnlessStored<H>(s: State<H>, i: nat, steps: seq<Step<H>>)
    requires Inv(s) && Legal(s, steps) && i < |s.histories|
    ensures |Run(s, steps).histories| == |s.histories|
    ensures Run(s, steps).histories[i] == s.histories[i]
            || exists h :: Store(i, h) in steps && Run(s, steps).histories[i] == Some(h)
    decreases steps
  {
    if steps != [] {
      StepInv(s, steps[0]);
      UnlessStored(Next(s, steps[0]), i, steps[1..]);
      assert forall step <- steps[1..] :: step in steps;
      if steps[0].Store? && steps[0].i == i && Run(s, steps).histories[i] == Some(steps[0].history) {
        assert steps[0] == Store(i, steps[0].history);
      }
    }
  }

  lemma {:induction false} StaysStored<H>(s: State<H>, i: nat, steps: seq<Step<H>>)
    requires Inv(s) && i < |s.progress| && s.progress[i] != Untouched && Legal(s, steps)
    ensures Inv(Run(s, steps)) && |Run(s, steps).histories| == |s.histories|
    ensures Run(s, steps).histories[i] == s.histories[i]
    decreases steps
  {
    if steps != [] {
      StepInv(s, steps[0]);
      StaysStored(Next(s, steps[0]), i, steps[1..]);
    }
  }

  /** The request object with its fields, for one worker at a time. */
  predicate UnfoldCopied<H>(k: nat, hits: seq<Option<H>>, idx: nat, histories: seq<Option<H>>, counter: int) { true }

  /** The first `idx` hits have been taken over, and the misses from there on are still counted. Unfolds only where
      `UnfoldCopied` is mentioned. */
  ghost predicate Copied<H>(hits: seq<Option<H>>, idx: nat, histories: seq<Option<H>>, counter: int) {
    forall k: nat {:trigger UnfoldCopied(k, hits, idx, histories, counter)} ::
      UnfoldCopied(k, hits, idx, histories, counter) ==>
      && idx <= |hits| == |histories| && (forall i :: 0 <= i < idx ==> histories[i] == hits[i])
      && (forall i :: idx <= i < |hits| ==> histories[i] == None)
      && counter == Missing(hits) + (|hits| - idx) - Missing(hits[idx..])
  }

  lemma CopiedNone<H>(hits: seq<Option<H>>, histories: seq<Option<H>>)
    requires |histories| == |hits| && forall i :: 0 <= i < |hits| ==> histories[i] == None
    ensures Copied(hits, 0, histories, |hits|)
  {
    assert hits[0..] == hits;
  }

  lemma CopiedOne<H>(hits: seq<Option<H>>, idx: nat, histories: seq<Option<H>>, counter: int)
    requires idx < |hits| == |histories| && Copied(hits, idx, histories, counter)
    ensures hits[idx].Some? ==> Copied(hits, idx + 1, histories[idx := hits[idx]], counter - 1)
    ensures hits[idx].None? ==> Copied(hits, idx + 1, histories, counter)
  {
    assert UnfoldCopied(0, hits, idx, histories, counter);
    assert hits[idx..][1..] == hits[idx + 1..];
  }

  lemma CopiedAll<H>(hits: seq<Option<H>>, histories: seq<Option<H>>, counter: int)
    requires Copied(hits, |hits|, histories, counter)
    ensures histories == hits && counter == Missing(hits)
  {
    assert UnfoldCopied(0, hits, |hits|, histories, counter);
  }

  class Request<H> {
    var histories: seq<Option<H>>
    var counter: int
    ghost var state: State<H>

    ghost predicate Valid()
      reads this
    {
      Inv(state) && histories == state.histories && counter == state.counter && FiringNow(state.progress) == 0
    }

    /** `hits` is what the cache returned for each segment. */
    constructor (hits: seq<Option<H>>)
      ensures Valid() && state == Built(hits) && histories == hits
      ensures counter == multiset(hits)[None]
      ensures if forall i :: 0 <= i < |hits| ==> hits[i].Some? then state.fired == 1 && state.delivered == hits
              else state.fired == 0
    {
      histories := seq(|hits|, _ => None);
      counter := |hits|;
      state := Built(hits);
      new;
      BuiltInv(hits);
      StartCounts(hits);
      CopiedNone(hits, histories);
      for idx := 0 to |hits|
        invariant |histories| == |hits| && state == Built(hits) && Copied(hits, idx, histories, counter)
      {
        CopiedOne(hits, idx, histories, counter);
        if hits[idx].Some? {
          histories := histories[idx := hits[idx]];
          counter := counter - 1;
        }
      }
      CopiedAll(hits, histories, counter);
      MissingIs(hits);
      NoneMissing(hits);
    }

    method ProcessHistory(index: nat, history: H) returns (last: bool)
      requires Valid() && index < |state.progress| && state.progress[index] == Untouched
      modifies this
      ensures Valid() && (last <==> Outstanding(old(state).progress) == 1)
      ensures var counted := Next(Next(old(state), Store(index, history)), Count(index));
              state == if last then Next(counted, Fire(index)) else counted
    {
      CountsUpdate(state.progress, index, Stored);
      StepInv(state, Store(index, history));
      histories := histories[index := Some(history)];
      state := Next(state, Store(index, history));
      CountsUpdate(state.progress, index, Next(state, Count(index)).progress[index]);
      StepInv(state, Count(index));
      counter := counter - 1;
      last := counter == 0;
      state := Next(state, Count(index));
      if last {
        CountsUpdate(state.progress, index, Finished);
        StepInv(state, Fire(index));
        state := Next(state, Fire(index));
      }
    }
  }

  /** Gathers one response per index; the waiter may go on once none is pending. */
  class ResponseCollector<R> {
    var responses: seq<Option<R>>
    var pending: nat

    ghost predicate Valid()
      reads this
    {
      pending == Missing(responses)
    }

    constructor (size: nat)
      ensures Valid() && |responses| == size && forall i :: 0 <= i < size ==> responses[i] == None
    {
      responses := seq(size, _ => None);
      pending := size;
      new;
      AllMissing(responses);
    }

    /** The callback of slot `index`, called once. */
    method Deliver(index: nat, response: R) returns (done: bool)
      requires Valid() && index < |responses| && responses[index] == None
      modifies this
      ensures Valid() && responses == old(responses)[index := Some(response)] && pending == old(pending) - 1
      ensures done <==> forall i :: 0 <= i < |responses| ==> responses[i].Some?
    {
      MissingUpdate(responses, index, response);
      responses := responses[index := Some(response)];
      pending := pending - 1;
      done := pending == 0;
      MissingZero(responses);
    }

    method Wait() returns (all: seq<Option<R>>)
      requires Valid() && pending == 0
      ensures all == responses && forall i :: 0 <= i < |all| ==> all[i].Some?
    {
      MissingZero(responses);
      all := responses;
    }
  }

  lemma {:induction false} AllMissing<R>(rs: seq<Option<R>>)
    requires forall i :: 0 <= i < |rs| ==> rs[i] == None
    ensures Missing(rs) == |rs|
  {
    if rs != [] { AllMissing(rs[1..]); }
  }

  lemma {:induction false} MissingUpdate<R>(rs: seq<Option<R>>, i: nat, r: R)
    requires i < |rs| && rs[i] == None
    ensures Missing(rs[i := Some(r)]) == Missing(rs) - 1
  {
    if i == 0 {
      assert rs[0 := Some(r)][1..] == rs[1..];
    } else {
      assert rs[i := Some(r)][1..] == rs[1..][i - 1 := Some(r)];
      MissingUpdate(rs[1..], i - 1, r);
    }
  }

  lemma {:induction false} MissingZero<R>(rs: seq<Option<R>>)
    ensures Missing(rs) == 0 <==> forall i :: 0 <= i < |rs| ==> rs[i].Some?
  {
    if rs != [] {
      MissingZero(rs[1..]);
      assert rs == [rs[0]] + rs[1..];
    }
  }
}
