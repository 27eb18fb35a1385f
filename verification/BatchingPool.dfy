/** The pool of one translation model: sentences bucketed by length, drawn greedily. */
module BatchingPools {
  import opened Basics
  import opened Batches
  import opened BatchBounds

  /** A request as the pool sees it: its sequence id, the token count of each segment, and whether the segment's
      translation was already found when the request was built. */
  datatype Request = Request(id: nat, segments: seq<nat>, prefilled: seq<bool>) {
    predicate Valid() { |prefilled| == |segments| }
  }

  /** The sentences among the first `n` segments that still need translation. */
  function FreshUpTo(r: Request, n: nat): seq<Sentence>
    requires r.Valid() && n <= |r.segments|
  {
    if n == 0 then []
    else FreshUpTo(r, n - 1) + (if r.prefilled[n - 1] then [] else [Sentence(r.segments[n - 1], r.id, n - 1)])
  }

  function Fresh(r: Request): seq<Sentence>
    requires r.Valid()
  {
    FreshUpTo(r, |r.segments|)
  }

  function FreshOfAll(rs: seq<Request>): seq<Sentence>
    requires forall r <- rs :: r.Valid()
  {
    if rs == [] then [] else FreshOfAll(rs[..|rs| - 1]) + Fresh(rs[|rs| - 1])
  }

  ghost predicate DistinctIds(rs: seq<Request>) {
    forall i, j :: 0 <= i < j < |rs| ==> rs[i].id != rs[j].id
  }

  ghost predicate NoneOf(s: seq<Sentence>, id: nat) {
    forall x <- s :: x.request != id
  }

  lemma {:induction false} FreshShape(r: Request, n: nat)
    requires r.Valid() && n <= |r.segments|
    ensures forall x <- FreshUpTo(r, n) :: x.request == r.id && x.index < n && x.length == r.segments[x.index]
    ensures forall i :: 0 <= i < n ==> (!r.prefilled[i] <==> Sentence(r.segments[i], r.id, i) in FreshUpTo(r, n))
  {
    if n > 0 { FreshShape(r, n - 1); }
  }

  // ---- Buckets ----

  ghost predicate Bucketed(b: seq<Sentence>, length: nat) {
    Sorted(b) && OfLength(b, length)
  }

  ghost predicate OfLength(b: seq<Sentence>, length: nat) { forall x <- b :: x.length == length }

  ghost predicate Buckets(bs: seq<seq<Sentence>>, first: nat) {
    forall l :: 0 <= l < |bs| ==> Bucketed(bs[l], first + l)
  }

  lemma {:induction false} FlattenSorted(bs: seq<seq<Sentence>>, first: nat)
    requires Buckets(bs, first)
    ensures Sorted(Join(bs))
    ensures forall x <- Join(bs) :: exists l :: 0 <= l < |bs| && x in bs[l]
    ensures forall x <- Join(bs) :: first <= x.length
    ensures forall l :: 0 <= l < |bs| ==> forall x <- bs[l] :: x in Join(bs)
    decreases |bs|
  {
    if bs != [] {
      var rest := bs[1..];
      assert forall l :: 0 <= l < |rest| ==> rest[l] == bs[l + 1] && Bucketed(bs[l + 1], first + (l + 1));
      FlattenSorted(rest, first + 1);
      JoinFirst(bs);
      forall x | x in Join(rest) ensures exists l :: 0 <= l < |bs| && x in bs[l] {
        var l :| 0 <= l < |rest| && x in rest[l];
        assert x in bs[l + 1];
      }
      forall l, x | 0 <= l < |bs| && x in bs[l] ensures x in Join(bs) {
        if l > 0 { assert x in rest[l - 1]; }
      }
    }
  }

  ghost predicate EmptyBelow(bs: seq<seq<Sentence>>, l: nat) {
    l <= |bs| && forall i :: 0 <= i < l ==> bs[i] == []
  }

  ghost predicate EmptyAbove(bs: seq<seq<Sentence>>, l: nat) {
    forall i :: l < i < |bs| ==> bs[i] == []
  }

  /** The first waiting sentence is the first of the lowest non-empty bucket, and erasing it there drops it. */
  lemma {:induction false} FlattenFirst(bs: seq<seq<Sentence>>, l: nat)
    requires l < |bs| && bs[l] != [] && EmptyBelow(bs, l)
    ensures Join(bs) != [] && Join(bs)[0] == bs[l][0]
    ensures Join(bs[l := bs[l][1..]]) == Join(bs)[1..]
    decreases l
  {
    var cs := bs[l := bs[l][1..]];
    JoinFirst(bs);
    JoinFirst(cs);
    if l == 0 {
      assert cs[1..] == bs[1..];
    } else {
      FlattenFirst(bs[1..], l - 1);
      assert cs[1..] == bs[1..][l - 1 := bs[1..][l - 1][1..]];
    }
  }

  lemma {:induction false} FlattenEmpty(bs: seq<seq<Sentence>>)
    requires forall l :: 0 <= l < |bs| ==> bs[l] == []
    ensures Join(bs) == []
  {
    if bs != [] { FlattenEmpty(bs[..|bs| - 1]); }
  }

  lemma FlattenGrow(bs: seq<seq<Sentence>>, es: seq<seq<Sentence>>)
    requires forall l :: 0 <= l < |es| ==> es[l] == []
    ensures Join(bs + es) == Join(bs)
  {
    JoinAppend(bs, es);
    FlattenEmpty(es);
  }

  /** Inserting into the bucket of its length inserts the sentence into the whole order. */
  lemma {:induction false} FlattenInsert(bs: seq<seq<Sentence>>, x: Sentence)
    requires Buckets(bs, 0) && x.length < |bs|
    ensures var cs := bs[x.length := Insert(bs[x.length], x)];
            Buckets(cs, 0) && Join(cs) == Insert(Join(bs), x)
  {
    var cs := bs[x.length := Insert(bs[x.length], x)];
    assert Bucketed(bs[x.length], 0 + x.length);
    InsertElements(bs[x.length], x);
    forall y: Sentence | y in cs[x.length] ensures y.length == x.length {
      assert y in Elements(cs[x.length]);
    }
    assert forall l :: 0 <= l < |cs| && l != x.length ==> cs[l] == bs[l] && Bucketed(bs[l], 0 + l);
    FlattenSorted(bs, 0);
    FlattenSorted(cs, 0);
    InsertElements(Join(bs), x);
    forall y: Sentence ensures y in Elements(Join(cs)) <==> y in Elements(Join(bs)) + {x} {
      assert y in cs[x.length] <==> y in Elements(cs[x.length]);
      assert y in bs[x.length] <==> y in Elements(bs[x.length]);
      if y in Join(cs) {
        var l :| 0 <= l < |cs| && y in cs[l];
        if l != x.length { assert y in bs[l]; }
      }
      if y in Join(bs) {
        var l :| 0 <= l < |bs| && y in bs[l];
        if l != x.length { assert y in cs[l]; }
      }
    }
    SortedUnique(Join(cs), Insert(Join(bs), x));
  }

  class BatchingPool {
    const miniBatchWords: nat
    var bucket: seq<seq<Sentence>>
    var maxActiveBucketLength: nat
    var pending: nat
    var maxSentencesPerBatch: Cap

    ghost predicate Shape()
      reads this
    {
      && maxActiveBucketLength < |bucket|
      && Buckets(bucket, 0)
      && EmptyAbove(bucket, maxActiveBucketLength)
      && maxSentencesPerBatch.Valid()
    }

    /** A cap describes one submission: a drained pool has none. */
    ghost predicate Valid()
      reads this
    {
      && Shape()
      && pending == |Waiting()|
      && (pending == 0 ==> maxSentencesPerBatch == Unbounded)
    }

    /** The pending sentences in the order they will be drawn. */
    ghost function Waiting(): seq<Sentence>
      reads this`bucket
    {
      Join(bucket)
    }

    constructor (miniBatchWords: nat, maxLengthBreak: nat, pivotSlack: nat)
      requires maxLengthBreak + pivotSlack <= miniBatchWords
      ensures Valid() && Waiting() == [] && this.miniBatchWords == miniBatchWords
      ensures |bucket| == maxLengthBreak + pivotSlack + 1 && maxSentencesPerBatch == Unbounded
    {
      this.miniBatchWords := miniBatchWords;
      bucket := seq(maxLengthBreak + pivotSlack + 1, _ => []);
      maxActiveBucketLength := 0;
      pending := 0;
      maxSentencesPerBatch := Unbounded;
      new;
      FlattenEmpty(bucket);
    }

    /** Takes the greedy prefix of the waiting sentences out of the buckets. */
    method FillBatch() returns (batch: seq<Sentence>)
      requires Shape()
      modifies this`bucket
      ensures Shape()
      ensures var k := Take(old(Waiting()), miniBatchWords, maxSentencesPerBatch);
              k <= |old(Waiting())| && batch == old(Waiting())[..k] && Waiting() == old(Waiting())[k..]
    {
      ghost var s := Waiting();
      batch := [];
      var length := 0;
      FillingStarts(bucket, miniBatchWords, maxSentencesPerBatch);
      while length <= maxActiveBucketLength
        invariant length <= maxActiveBucketLength + 1
        invariant Shape() && EmptyBelow(bucket, length)
        invariant Filling(s, batch, bucket, miniBatchWords, maxSentencesPerBatch)
        invariant maxSentencesPerBatch.Allows(|batch|)
      {
        while bucket[length] != []
          invariant Shape() && EmptyBelow(bucket, length)
          invariant Filling(s, batch, bucket, miniBatchWords, maxSentencesPerBatch)
          invariant maxSentencesPerBatch.Allows(|batch|)
          decreases |bucket[length]|
        {
          var sentence := bucket[length][0];
          NextInLine(s, batch, bucket, length, maxActiveBucketLength, miniBatchWords, maxSentencesPerBatch);
          var paddedBatchSize := (|batch| + 1) * length;
          if paddedBatchSize <= miniBatchWords {
            batch := batch + [sentence];
            bucket := bucket[length := bucket[length][1..]];
            if !maxSentencesPerBatch.Allows(|batch|) {
              Filled(s, batch, bucket, miniBatchWords, maxSentencesPerBatch);
              return;
            }
          } else {
            Filled(s, batch, bucket, miniBatchWords, maxSentencesPerBatch);
            return;
          }
        }
        length := length + 1;
      }
      NobodyLeft(s, batch, bucket, miniBatchWords, maxSentencesPerBatch);
      Filled(s, batch, bucket, miniBatchWords, maxSentencesPerBatch);
    }

    /** Draws one batch; a drained pool forgets its cap. */
    method GenerateBatch() returns (batch: seq<Sentence>)
      requires Valid()
      modifies this`bucket, this`pending, this`maxSentencesPerBatch
      ensures Valid()
      ensures var k := Take(old(Waiting()), miniBatchWords, old(maxSentencesPerBatch));
              k <= |old(Waiting())| && batch == old(Waiting())[..k] && Waiting() == old(Waiting())[k..]
      ensures maxSentencesPerBatch == if Waiting() == [] then Unbounded else old(maxSentencesPerBatch)
    {
      batch := FillBatch();
      pending := pending - |batch|;
      if pending == 0 {
        maxSentencesPerBatch := Unbounded;
      }
    }

    /** Puts one sentence into the bucket of its length, growing the bucket vector if it must. */
    method Insert1(sentence: Sentence)
      requires Shape()
      modifies this`bucket, this`maxActiveBucketLength
      ensures Shape() && Waiting() == Insert(old(Waiting()), sentence)
      ensures |bucket| == Max(old(|bucket|), sentence.length + 1)
    {
      var bucketId := sentence.length;
      if bucketId >= |bucket| {
        var grown := seq(bucketId + 1 - |bucket|, _ => []);
        FlattenGrow(bucket, grown);
        bucket := bucket + grown;
        assert Buckets(bucket, 0) by {
          assert forall l :: 0 <= l < |old(bucket)| ==> Bucketed(old(bucket)[l], 0 + l);
        }
      }
      FlattenInsert(bucket, sentence);
      bucket := bucket[bucketId := Insert(bucket[bucketId], sentence)];
      maxActiveBucketLength := if bucketId > maxActiveBucketLength then bucketId else maxActiveBucketLength;
    }

    /** Buckets every fresh sentence of the request. The cap is left alone. */
    method EnqueueRequest(request: Request) returns (toBeFreshlyTranslated: nat)
      requires Valid() && request.Valid() && NoneOf(Waiting(), request.id)
      modifies this`bucket, this`pending, this`maxActiveBucketLength
      ensures Valid()
      ensures Waiting() == InsertAll(old(Waiting()), Fresh(request))
      ensures toBeFreshlyTranslated == |Fresh(request)| && pending == old(pending) + toBeFreshlyTranslated
    {
      ghost var s := Waiting();
      FlattenSorted(bucket, 0);
      toBeFreshlyTranslated := 0;
      for i := 0 to |request.segments|
        invariant Shape() && Sorted(Waiting())
        invariant Waiting() == InsertAll(s, FreshUpTo(request, i))
        invariant toBeFreshlyTranslated == |FreshUpTo(request, i)|
        invariant |Waiting()| == |s| + toBeFreshlyTranslated && pending == old(pending)
      {
        NextFresh(s, request, i);
        if !request.prefilled[i] {
          var sentence := Sentence(request.segments[i], request.id, i);
          Insert1(sentence);
          toBeFreshlyTranslated := toBeFreshlyTranslated + 1;
        }
      }
      pending := pending + toBeFreshlyTranslated;
    }

    /** Walks through one bucket; `above` is what waits behind it. */
    method CountBucket(length: nat, batches: nat, sentencesInBatch: nat, ghost above: seq<Sentence>)
      returns (batches': nat, sentencesInBatch': nat)
      requires length < |bucket| && OfLength(bucket[length], length)
      ensures CountedOn(bucket[length], above, miniBatchWords, batches, sentencesInBatch, batches', sentencesInBatch')
    {
      batches', sentencesInBatch' := batches, sentencesInBatch;
      ghost var all := bucket[length];
      ghost var total := batches + CountFrom(all + above, miniBatchWords, sentencesInBatch);
      assert all[0..] == all;
      var i := 0;
      while i < |bucket[length]|
        invariant i <= |all|
        invariant total == batches' + CountFrom(all[i..] + above, miniBatchWords, sentencesInBatch')
      {
        assert (all[i..] + above)[1..] == all[i + 1..] + above;
        CountStep(all[i..] + above, miniBatchWords, sentencesInBatch', length);
        if (sentencesInBatch' + 1) * length > miniBatchWords {
          batches' := batches' + 1;
          sentencesInBatch' := 0;
        }
        sentencesInBatch' := sentencesInBatch' + 1;
        i := i + 1;
      }
      assert all[i..] + above == above;
    }

    /** Walks through all buckets. */
    method CountBuckets() returns (batches: nat)
      requires maxActiveBucketLength < |bucket| && EmptyAbove(bucket, maxActiveBucketLength) && ByLength(bucket)
      ensures batches == CountFrom(Waiting(), miniBatchWords, 0)
    {
      batches := 0;
      var sentencesInBatch := 0;
      var length := 0;
      NothingCounted(bucket, miniBatchWords);
      while length <= maxActiveBucketLength && length < |bucket|
        invariant length <= maxActiveBucketLength + 1 <= |bucket|
        invariant Counted(bucket, miniBatchWords, length, batches, sentencesInBatch)
      {
        assert OfLength(bucket[length], length);
        var more, left := CountBucket(length, batches, sentencesInBatch, Join(bucket[length + 1..]));
        NextBucket(bucket, miniBatchWords, length, batches, sentencesInBatch, more, left);
        batches, sentencesInBatch, length := more, left, length + 1;
      }
      LastBucket(bucket, miniBatchWords, length, batches, sentencesInBatch);
      if sentencesInBatch > 0 {
        batches := batches + 1;
      }
    }

    /** The dry run of the fill over the whole pool. */
    method CountBatches() returns (batches: nat)
      requires Shape()
      ensures batches == CountFrom(Waiting(), miniBatchWords, 0)
      ensures AllFit(Waiting(), miniBatchWords) ==> batches == |Draws(Waiting(), miniBatchWords, Unbounded)|
    {
      BucketsByLength(bucket);
      batches := CountBuckets();
      if AllFit(Waiting(), miniBatchWords) {
        CountIsDraws(Waiting(), miniBatchWords);
      }
    }

    /** A whole submission at once. The cap is set only when it would leave workers without a batch. */
    method EnqueueRequests(requests: seq<Request>, numWorkers: nat) returns (toBeFreshlyTranslated: nat)
      requires Valid() && DistinctIds(requests)
      requires forall r <- requests :: r.Valid() && NoneOf(Waiting(), r.id)
      modifies this`bucket, this`pending, this`maxActiveBucketLength, this`maxSentencesPerBatch
      ensures Valid()
      ensures Waiting() == InsertAll(old(Waiting()), FreshOfAll(requests))
      ensures toBeFreshlyTranslated == |FreshOfAll(requests)| && pending == old(pending) + toBeFreshlyTranslated
      ensures maxSentencesPerBatch
           == CapAfter(Waiting(), miniBatchWords, old(maxSentencesPerBatch), toBeFreshlyTranslated, numWorkers)
    {
      ghost var s := Waiting();
      FlattenSorted(bucket, 0);
      toBeFreshlyTranslated := 0;
      ghost var done := [];
      for i := 0 to |requests|
        invariant Valid()
        invariant done == FreshOfAll(requests[..i]) && Waiting() == InsertAll(s, done)
        invariant toBeFreshlyTranslated == |done| && pending == old(pending) + |done|
        invariant forall j :: i <= j < |requests| ==> NoneOf(Waiting(), requests[j].id)
        invariant maxSentencesPerBatch == old(maxSentencesPerBatch)
      {
        StillNoneOf(s, done, requests, i);
        InsertAllAppend(s, done, Fresh(requests[i]));
        var added := EnqueueRequest(requests[i]);
        toBeFreshlyTranslated := toBeFreshlyTranslated + added;
        assert requests[..i + 1][..i] == requests[..i];
        done := done + Fresh(requests[i]);
      }
      assert requests[..|requests|] == requests;
      CapBatches(toBeFreshlyTranslated, numWorkers);
    }

    /** Sets the cap if the `added` sentences just enqueued would leave workers without a batch. */
    method CapBatches(added: nat, numWorkers: nat)
      requires Valid() && added <= pending
      modifies this`maxSentencesPerBatch
      ensures Valid()
      ensures maxSentencesPerBatch == CapAfter(Waiting(), miniBatchWords, old(maxSentencesPerBatch), added, numWorkers)
      ensures added == 0 || CountFrom(Waiting(), miniBatchWords, 0) >= Max(numWorkers, 1) ==>
                maxSentencesPerBatch == old(maxSentencesPerBatch)
      ensures added > 0 && CountFrom(Waiting(), miniBatchWords, 0) < Max(numWorkers, 1) ==>
                && maxSentencesPerBatch.AtMost?
                && added <= maxSentencesPerBatch.limit * Max(numWorkers, 1) < added + Max(numWorkers, 1)
    {
      CapAfterIs(Waiting(), miniBatchWords, maxSentencesPerBatch, added, numWorkers);
      var workers := if numWorkers > 1 then numWorkers else 1;
      var count := CountBatches();
      if added > 0 && count < workers {
        CeilDivPositive(added, workers);
        maxSentencesPerBatch := AtMost(CeilDiv(added, workers));
      }
    }

    /** Forgets every pending sentence. */
    method Clear()
      requires Valid()
      modifies this`bucket, this`pending, this`maxSentencesPerBatch
      ensures Valid() && Waiting() == [] && maxSentencesPerBatch == Unbounded
    {
      for length := 0 to |bucket|
        invariant |bucket| == |old(bucket)| && EmptyBelow(bucket, length)
        invariant forall l :: length <= l < |bucket| ==> bucket[l] == old(bucket)[l]
      {
        bucket := bucket[length := []];
      }
      FlattenEmpty(bucket);
      pending := 0;
      maxSentencesPerBatch := Unbounded;
    }
  }

  predicate UnfoldCounted(k: nat, bs: seq<seq<Sentence>>, words: nat, l: nat, batches: nat, inBatch: nat) { true }

  /** With the buckets below `l` counted, the rest makes up the whole. Unfolds only where `UnfoldCounted` is
      mentioned. */
  ghost predicate Counted(bs: seq<seq<Sentence>>, words: nat, l: nat, batches: nat, inBatch: nat) {
    forall k: nat {:trigger UnfoldCounted(k, bs, words, l, batches, inBatch)} ::
      UnfoldCounted(k, bs, words, l, batches, inBatch) ==>
        l <= |bs| && CountFrom(Join(bs), words, 0) == batches + CountFrom(Join(bs[l..]), words, inBatch)
  }

  predicate UnfoldCountedOn(k: nat, s: seq<Sentence>, above: seq<Sentence>, words: nat, batches: nat, inBatch: nat,
                            more: nat, left: nat) { true }

  /** Counting goes on from one state to another over `s`, which stands before `above`. Unfolds only where
      `UnfoldCountedOn` is mentioned. */
  ghost predicate CountedOn(s: seq<Sentence>, above: seq<Sentence>, words: nat, batches: nat, inBatch: nat,
                            more: nat, left: nat) {
    forall k: nat {:trigger UnfoldCountedOn(k, s, above, words, batches, inBatch, more, left)} ::
      UnfoldCountedOn(k, s, above, words, batches, inBatch, more, left) ==>
        more + CountFrom(above, words, left) == batches + CountFrom(s + above, words, inBatch)
  }

  ghost predicate ByLength(bs: seq<seq<Sentence>>) { forall l :: 0 <= l < |bs| ==> OfLength(bs[l], l) }

  lemma BucketsByLength(bs: seq<seq<Sentence>>)
    requires Buckets(bs, 0)
    ensures ByLength(bs)
  {
    forall l | 0 <= l < |bs| ensures OfLength(bs[l], l) {
      assert Bucketed(bs[l], 0 + l);
    }
  }

  lemma NothingCounted(bs: seq<seq<Sentence>>, words: nat)
    ensures Counted(bs, words, 0, 0, 0)
  {
    assert bs[0..] == bs;
  }

  lemma NextBucket(bs: seq<seq<Sentence>>, words: nat, l: nat, batches: nat, inBatch: nat, more: nat, left: nat)
    requires l < |bs| && Counted(bs, words, l, batches, inBatch)
    requires CountedOn(bs[l], Join(bs[l + 1..]), words, batches, inBatch, more, left)
    ensures Counted(bs, words, l + 1, more, left)
  {
    assert UnfoldCountedOn(0, bs[l], Join(bs[l + 1..]), words, batches, inBatch, more, left);
    assert UnfoldCounted(0, bs, words, l, batches, inBatch);
    JoinFirst(bs[l..]);
    assert bs[l..][1..] == bs[l + 1..];
  }

  lemma LastBucket(bs: seq<seq<Sentence>>, words: nat, l: nat, batches: nat, inBatch: nat)
    requires 0 < l <= |bs| && Counted(bs, words, l, batches, inBatch) && EmptyAbove(bs, l - 1)
    ensures CountFrom(Join(bs), words, 0) == batches + if inBatch > 0 then 1 else 0
  {
    assert UnfoldCounted(0, bs, words, l, batches, inBatch);
    FlattenEmpty(bs[l..]);
  }

  /** What one more segment of a request adds to its fresh sentences and to a line that already has those. */
  lemma NextFresh(s: seq<Sentence>, r: Request, i: nat)
    requires Sorted(s) && r.Valid() && i < |r.segments| && NoneOf(s, r.id)
    ensures Sorted(InsertAll(s, FreshUpTo(r, i + 1)))
    ensures if r.prefilled[i] then FreshUpTo(r, i + 1) == FreshUpTo(r, i)
            else
              var line, x := InsertAll(s, FreshUpTo(r, i)), Sentence(r.segments[i], r.id, i);
              && InsertAll(s, FreshUpTo(r, i + 1)) == Insert(line, x) && |Insert(line, x)| == |line| + 1
              && |FreshUpTo(r, i + 1)| == |FreshUpTo(r, i)| + 1
  {
    var done, x := FreshUpTo(r, i), Sentence(r.segments[i], r.id, i);
    InsertAllElements(s, done);
    if r.prefilled[i] {
      assert FreshUpTo(r, i + 1) == done;
    } else {
      NotYetWaiting(s, r, i);
      InsertElements(InsertAll(s, done), x);
      InsertAllAppend(s, done, [x]);
    }
  }

  lemma CountStep(s: seq<Sentence>, words: nat, inBatch: nat, length: nat)
    requires s != [] && s[0].length == length
    ensures CountFrom(s, words, inBatch)
         == if (inBatch + 1) * length > words then 1 + CountFrom(s[1..], words, 1)
           else CountFrom(s[1..], words, inBatch + 1)
  {}

  /** The cap a bulk submission of `added` sentences leaves behind when `waiting` is what then waits. */
  function CapAfter(waiting: seq<Sentence>, words: nat, cap: Cap, added: nat, numWorkers: nat): Cap {
    var workers := if numWorkers > 1 then numWorkers else 1;
    if added > 0 && CountFrom(waiting, words, 0) < workers then AtMost(CeilDiv(added, workers)) else cap
  }

  /** A submission leaves the cap alone unless something is new and too few batches would form; then it is the least one
      that leaves no sentence over when every worker has a batch. */
  lemma CapAfterIs(waiting: seq<Sentence>, words: nat, cap: Cap, added: nat, numWorkers: nat)
    ensures var c, w := CapAfter(waiting, words, cap, added, numWorkers), Max(numWorkers, 1);
            && (added == 0 || CountFrom(waiting, words, 0) >= w ==> c == cap)
            && (added > 0 && CountFrom(waiting, words, 0) < w ==> c.AtMost? && added <= c.limit * w < added + w)
  {
    var w := Max(numWorkers, 1);
    CeilDivIs(added, w, CeilDiv(added, w));
  }

  /** `batch` is what the fill has taken from `s` so far and the buckets hold what it left. Unfolds only where
      `UnfoldFilling` is mentioned. */
  ghost predicate Filling(s: seq<Sentence>, batch: seq<Sentence>, bs: seq<seq<Sentence>>, words: nat, cap: Cap) {
    forall k: nat {:trigger UnfoldFilling(k, s, batch, bs, words, cap)} ::
      UnfoldFilling(k, s, batch, bs, words, cap) ==>
      && |batch| <= |s| && batch == s[..|batch|] && Join(bs) == s[|batch|..]
      && forall j :: 0 <= j < |batch| ==> Room(s, words, cap, j)
  }

  predicate UnfoldFilling(k: nat, s: seq<Sentence>, batch: seq<Sentence>, bs: seq<seq<Sentence>>, words: nat,
                          cap: Cap) { true }

  lemma FillingStarts(bs: seq<seq<Sentence>>, words: nat, cap: Cap)
    ensures Filling(Join(bs), [], bs, words, cap)
  {}

  lemma Filled(s: seq<Sentence>, batch: seq<Sentence>, bs: seq<seq<Sentence>>, words: nat, cap: Cap)
    requires Filling(s, batch, bs, words, cap)
    ensures |batch| <= |s| && batch == s[..|batch|] && Join(bs) == s[|batch|..]
  {
    assert UnfoldFilling(0, s, batch, bs, words, cap);
  }

  /** What one turn of the fill's inner loop may rely on, whether it takes the sentence or ends the batch. */
  lemma NextInLine(s: seq<Sentence>, batch: seq<Sentence>, bs: seq<seq<Sentence>>, l: nat, top: nat, words: nat,
                   cap: Cap)
    requires Filling(s, batch, bs, words, cap) && cap.Allows(|batch|)
    requires Buckets(bs, 0) && l <= top < |bs| && bs[l] != [] && EmptyBelow(bs, l) && EmptyAbove(bs, top)
    ensures if (|batch| + 1) * l <= words then
              var cs := bs[l := bs[l][1..]];
              && Buckets(cs, 0) && EmptyBelow(cs, l) && EmptyAbove(cs, top)
              && Filling(s, batch + [bs[l][0]], cs, words, cap)
              && (!cap.Allows(|batch| + 1) ==> |batch| + 1 == Take(s, words, cap))
            else
              |batch| == Take(s, words, cap)
  {
    assert UnfoldFilling(0, s, batch, bs, words, cap);
    TakeIsGreedy(s, words, cap);
    FlattenFirst(bs, l);
    assert Bucketed(bs[l], 0 + l);
    assert s[|batch|] == bs[l][0];
    if (|batch| + 1) * l <= words {
      assert Room(s, words, cap, |batch|);
      var cs := bs[l := bs[l][1..]];
      SortedSuffix(bs[l], 1);
      assert forall i :: 0 <= i < |bs| && i != l ==> cs[i] == bs[i] && Bucketed(bs[i], 0 + i);
      if !cap.Allows(|batch| + 1) { assert GreedyCut(s, words, cap, |batch| + 1); }
    } else {
      assert GreedyCut(s, words, cap, |batch|);
    }
  }

  lemma NobodyLeft(s: seq<Sentence>, batch: seq<Sentence>, bs: seq<seq<Sentence>>, words: nat, cap: Cap)
    requires Filling(s, batch, bs, words, cap) && cap.Valid() && EmptyBelow(bs, |bs|)
    ensures |batch| == Take(s, words, cap)
  {
    assert UnfoldFilling(0, s, batch, bs, words, cap);
    FlattenEmpty(bs);
    TakeIsGreedy(s, words, cap);
    assert GreedyCut(s, words, cap, |batch|);
  }

  lemma StillNoneOf(s: seq<Sentence>, xs: seq<Sentence>, requests: seq<Request>, i: nat)
    requires Sorted(s) && i < |requests| && DistinctIds(requests)
    requires forall r <- requests :: r.Valid()
    requires forall j :: i <= j < |requests| ==> NoneOf(InsertAll(s, xs), requests[j].id)
    ensures forall j :: i < j < |requests| ==> NoneOf(InsertAll(s, xs + Fresh(requests[i])), requests[j].id)
  {
    var r := requests[i];
    var t := InsertAll(s, xs);
    InsertAllElements(s, xs);
    InsertAllAppend(s, xs, Fresh(r));
    InsertAllElements(t, Fresh(r));
    FreshShape(r, |r.segments|);
    forall j, x | i < j < |requests| && x in InsertAll(t, Fresh(r)) ensures x.request != requests[j].id {
      assert x in Elements(InsertAll(t, Fresh(r)));
      assert x in Elements(t) || x in Elements(Fresh(r));
    }
  }

  lemma NotYetWaiting(s: seq<Sentence>, r: Request, n: nat)
    requires Sorted(s) && r.Valid() && n < |r.segments| && NoneOf(s, r.id)
    ensures Sentence(r.segments[n], r.id, n) !in InsertAll(s, FreshUpTo(r, n))
  {
    FreshShape(r, n);
    InsertAllElements(s, FreshUpTo(r, n));
    var x := Sentence(r.segments[n], r.id, n);
    var t := InsertAll(s, FreshUpTo(r, n));
    assert x !in Elements(s) && x !in Elements(FreshUpTo(r, n));
    assert x !in Elements(t);
  }
}
