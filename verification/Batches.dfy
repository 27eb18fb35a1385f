/** The sentences waiting for translation, in the order the batcher visits them, and the batches a greedy
    fill draws from them. Everything here is about values; `BatchingPools` ties the pool's buckets to it. */
module Batches {
  import opened Basics

  /** One sentence of one request. `request` is the request's sequence id, `index` the segment's position in it. */
  datatype Sentence = Sentence(length: nat, request: nat, index: nat)

  /** Ceiling on the sentences of one batch. `Unbounded` stands for the largest `size_t`. */
  datatype Cap = Unbounded | AtMost(limit: nat) {
    predicate Allows(n: nat) { Unbounded? || n < limit }
    predicate Valid() { Allows(0) }
  }

  /** Shorter sentences first, then older requests, then earlier segments. */
  predicate Before(a: Sentence, b: Sentence) {
    a.length < b.length ||
    (a.length == b.length && (a.request < b.request || (a.request == b.request && a.index < b.index)))
  }

  ghost predicate Sorted(s: seq<Sentence>) {
    forall i, j :: 0 <= i < j < |s| ==> Before(s[i], s[j])
  }

  ghost predicate AllFit(s: seq<Sentence>, words: nat) {
    forall i :: 0 <= i < |s| ==> s[i].length <= words
  }

  ghost function Elements<T>(s: seq<T>): set<T> { set x | x in s }

  /** Where an ordered set puts a new element; an element already present is not added again. */
  function Insert(s: seq<Sentence>, x: Sentence): seq<Sentence> {
    if s == [] || Before(x, s[0]) then [x] + s
    else if x == s[0] then s
    else [s[0]] + Insert(s[1..], x)
  }

  function InsertAll(s: seq<Sentence>, xs: seq<Sentence>): seq<Sentence>
    decreases xs
  {
    if xs == [] then s else InsertAll(Insert(s, xs[0]), xs[1..])
  }

  /** Whether a batch that already holds the first `k` sentences takes one more: there is one, the cap is not
      reached, and the batch stays within the word budget once all are padded to the newcomer's length. */
  predicate Room(s: seq<Sentence>, words: nat, cap: Cap, k: nat) {
    k < |s| && cap.Allows(k) && (k + 1) * s[k].length <= words
  }

  function TakeFrom(s: seq<Sentence>, words: nat, cap: Cap, k: nat): nat
    decreases |s| - k
  {
    if Room(s, words, cap, k) then TakeFrom(s, words, cap, k + 1) else k
  }

  /** How many sentences the greedy fill puts into the next batch. */
  function Take(s: seq<Sentence>, words: nat, cap: Cap): nat { TakeFrom(s, words, cap, 0) }

  /** What the fill promises: the longest prefix every member of which found room. */
  ghost predicate GreedyCut(s: seq<Sentence>, words: nat, cap: Cap, k: nat) {
    && k <= |s|
    && (forall j :: 0 <= j < k ==> Room(s, words, cap, j))
    && !Room(s, words, cap, k)
  }

  lemma {:induction false} TakeFromIsGreedy(s: seq<Sentence>, words: nat, cap: Cap, k: nat)
    requires k <= |s|
    requires forall j :: 0 <= j < k ==> Room(s, words, cap, j)
    ensures GreedyCut(s, words, cap, TakeFrom(s, words, cap, k))
    decreases |s| - k
  {
    if Room(s, words, cap, k) {
      TakeFromIsGreedy(s, words, cap, k + 1);
    }
  }

  /** `Take` is the one length that satisfies `GreedyCut`, and it makes progress when the first sentence fits. */
  lemma TakeIsGreedy(s: seq<Sentence>, words: nat, cap: Cap)
    requires cap.Valid()
    ensures GreedyCut(s, words, cap, Take(s, words, cap))
    ensures forall k: nat :: GreedyCut(s, words, cap, k) ==> k == Take(s, words, cap)
    ensures s != [] && s[0].length <= words ==> Take(s, words, cap) >= 1
  {
    TakeFromIsGreedy(s, words, cap, 0);
    if s != [] && s[0].length <= words {
      assert Room(s, words, cap, 0);
    }
  }

  /** The padded size of a batch, its sentence count times the longest of its lengths, is within the budget. */
  lemma BatchFitsPadded(s: seq<Sentence>, words: nat, cap: Cap)
    requires cap.Valid() && Sorted(s)
    ensures forall j :: 0 <= j < Take(s, words, cap) <= |s| ==> Take(s, words, cap) * s[j].length <= words
  {
    TakeIsGreedy(s, words, cap);
    var t := Take(s, words, cap);
    forall j | 0 <= j < t ensures t * s[j].length <= words {
      assert Room(s, words, cap, t - 1);
      assert j < t - 1 ==> Before(s[j], s[t - 1]);
      MulMono(t, s[j].length, s[t - 1].length);
    }
  }

  lemma MulMono(a: nat, b: nat, c: nat)
    requires b <= c
    ensures a * b <= a * c
  {}

  /** The batches drawn one after the other until nothing waits. */
  function Draws(s: seq<Sentence>, words: nat, cap: Cap): seq<seq<Sentence>> {
    var k := Take(s, words, cap);
    if 0 < k <= |s| then [s[..k]] + Draws(s[k..], words, cap) else []
  }

  lemma SortedSuffix(s: seq<Sentence>, k: nat)
    requires Sorted(s) && k <= |s|
    ensures Sorted(s[k..])
  {}

  /** Nothing is lost, duplicated or reordered on the way into batches. */
  lemma {:induction false} DrawsConserve(s: seq<Sentence>, words: nat, cap: Cap)
    requires cap.Valid() && AllFit(s, words)
    ensures Join(Draws(s, words, cap)) == s
    decreases |s|
  {
    TakeIsGreedy(s, words, cap);
    if s != [] {
      var k := Take(s, words, cap);
      DrawsConserve(s[k..], words, cap);
      assert s == s[..k] + s[k..];
      assert Draws(s, words, cap)[1..] == Draws(s[k..], words, cap);
      JoinFirst(Draws(s, words, cap));
    }
  }

  // ---- Ordered insertion depends on what is inserted, not on when ----

  lemma ElementsCons<T>(a: T, s: seq<T>)
    ensures Elements([a] + s) == {a} + Elements(s)
  {}

  lemma {:induction false} InsertElements(s: seq<Sentence>, x: Sentence)
    requires Sorted(s)
    ensures Sorted(Insert(s, x)) && Elements(Insert(s, x)) == Elements(s) + {x}
    ensures |Insert(s, x)| == |s| + (if x in s then 0 else 1)
  {
    if s == [] || x == s[0] {
    } else if Before(x, s[0]) {
      forall j | 0 <= j < |s| ensures Before(x, s[j]) {
        assert j > 0 ==> Before(s[0], s[j]);
      }
    } else {
      SortedSuffix(s, 1);
      InsertElements(s[1..], x);
      assert s == [s[0]] + s[1..];
      SortedCons(s, Insert(s[1..], x), x);
      ElementsCons(s[0], Insert(s[1..], x));
      ElementsCons(s[0], s[1..]);
    }
  }

  /** What comes after the first sentence of a line still does when one that does too is put in. */
  lemma SortedCons(s: seq<Sentence>, t: seq<Sentence>, x: Sentence)
    requires s != [] && Sorted(s) && Sorted(t) && Before(s[0], x) && Elements(t) == Elements(s[1..]) + {x}
    ensures Sorted([s[0]] + t)
  {
    forall j | 0 <= j < |t| ensures Before(s[0], t[j]) {
      assert t[j] in Elements(t);
      if t[j] != x {
        var i :| 0 <= i < |s[1..]| && s[1..][i] == t[j];
        assert Before(s[0], s[i + 1]);
      }
    }
  }

  lemma {:induction false} InsertAllElements(s: seq<Sentence>, xs: seq<Sentence>)
    requires Sorted(s)
    ensures Sorted(InsertAll(s, xs)) && Elements(InsertAll(s, xs)) == Elements(s) + Elements(xs)
    decreases xs
  {
    if xs != [] {
      InsertElements(s, xs[0]);
      InsertAllElements(Insert(s, xs[0]), xs[1..]);
      assert xs == [xs[0]] + xs[1..];
    }
  }

  lemma {:induction false} InsertAllAppend(s: seq<Sentence>, xs: seq<Sentence>, ys: seq<Sentence>)
    ensures InsertAll(s, xs + ys) == InsertAll(InsertAll(s, xs), ys)
    decreases xs
  {
    if xs == [] {
      assert xs + ys == ys;
    } else {
      assert (xs + ys)[1..] == xs[1..] + ys;
      InsertAllAppend(Insert(s, xs[0]), xs[1..], ys);
    }
  }

  /** A strictly ordered sequence is determined by its elements. */
  lemma {:induction false} SortedUnique(s: seq<Sentence>, t: seq<Sentence>)
    requires Sorted(s) && Sorted(t) && Elements(s) == Elements(t)
    ensures s == t
    decreases |s|
  {
    assert forall x :: x in s <==> x in Elements(s);
    assert forall x :: x in t <==> x in Elements(t);
    assert s != [] ==> s[0] in Elements(s);
    assert t != [] ==> t[0] in Elements(t);
    if s != [] && t != [] {
      assert s[0] in t && t[0] in s;
      assert s[0] == t[0];
      TailElements(s);
      TailElements(t);
      SortedUnique(s[1..], t[1..]);
    }
  }

  lemma TailElements(s: seq<Sentence>)
    requires Sorted(s) && s != []
    ensures Sorted(s[1..]) && Elements(s[1..]) == Elements(s) - {s[0]}
  {
    assert s == [s[0]] + s[1..];
    forall x | x in s[1..] ensures x != s[0] {
      var i :| 0 <= i < |s[1..]| && s[1..][i] == x;
      assert Before(s[0], s[i + 1]);
    }
  }

  /** Submitting the same sentences in another order leaves the same waiting line. */
  lemma InsertionOrderIrrelevant(s: seq<Sentence>, xs: seq<Sentence>, ys: seq<Sentence>)
    requires Sorted(s) && Elements(xs) == Elements(ys)
    ensures InsertAll(s, xs) == InsertAll(s, ys)
  {
    InsertAllElements(s, xs);
    InsertAllElements(s, ys);
    SortedUnique(InsertAll(s, xs), InsertAll(s, ys));
  }
}
