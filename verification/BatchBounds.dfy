/** How many batches a waiting line yields: the pool's dry run, and what capping a submission does to the count. */
module BatchBounds {
  import opened Batches

  /** The dry run's running count, with `inBatch` sentences in the batch being formed. */
  function CountFrom(s: seq<Sentence>, words: nat, inBatch: nat): nat
    decreases s
  {
    if s == [] then (if inBatch > 0 then 1 else 0)
    else if (inBatch + 1) * s[0].length > words then 1 + CountFrom(s[1..], words, 1)
    else CountFrom(s[1..], words, inBatch + 1)
  }

  /** The dry run of a batch in progress agrees with the fill that resumes after its first `k` sentences. */
  lemma {:induction false} CountFromMidBatch(s: seq<Sentence>, words: nat, k: nat)
    requires AllFit(s, words) && k <= |s|
    requires forall j :: 0 <= j < k ==> Room(s, words, Unbounded, j)
    ensures CountFrom(s[k..], words, k) == |Draws(s, words, Unbounded)|
    decreases |s|, |s| - k
  {
    TakeIsGreedy(s, words, Unbounded);
    if Room(s, words, Unbounded, k) {
      assert s[k..][1..] == s[k + 1..];
      CountFromMidBatch(s, words, k + 1);
    } else {
      assert GreedyCut(s, words, Unbounded, k);
      if k < |s| {
        var rest := s[k..];
        assert k > 0;
        assert Room(rest, words, Unbounded, 0);
        assert s[k..][1..] == rest[1..];
        CountFromMidBatch(rest, words, 1);
      } else {
        assert s[k..] == [];
      }
    }
  }

  /** The dry run predicts the number of uncapped draws that empty the pool. */
  lemma CountIsDraws(s: seq<Sentence>, words: nat)
    requires AllFit(s, words)
    ensures CountFrom(s, words, 0) == |Draws(s, words, Unbounded)|
  {
    assert s[0..] == s;
    CountFromMidBatch(s, words, 0);
  }

  // ---- Greedy stays ahead ----

  /** Starting the fill later never ends the batch earlier. */
  lemma TakeStaysAhead(s: seq<Sentence>, words: nat, d: nat)
    requires Sorted(s) && d <= |s|
    ensures d + Take(s[d..], words, Unbounded) >= Take(s, words, Unbounded)
  {
    TakeIsGreedy(s, words, Unbounded);
    TakeIsGreedy(s[d..], words, Unbounded);
    var t, u := Take(s, words, Unbounded), Take(s[d..], words, Unbounded);
    if d + u < t {
      assert Room(s, words, Unbounded, d + u);
      MulMono(s[d + u].length, u + 1, d + u + 1);
      assert Room(s[d..], words, Unbounded, u);
    }
  }

  /** A suffix of the waiting line never needs more uncapped batches than the whole line. */
  lemma {:induction false} SuffixNeedsNoMore(s: seq<Sentence>, words: nat, d: nat)
    requires Sorted(s) && AllFit(s, words) && d <= |s|
    ensures |Draws(s[d..], words, Unbounded)| <= |Draws(s, words, Unbounded)|
    decreases |s|
  {
    TakeIsGreedy(s, words, Unbounded);
    TakeIsGreedy(s[d..], words, Unbounded);
    if d < |s| {
      var t, u := Take(s, words, Unbounded), Take(s[d..], words, Unbounded);
      TakeStaysAhead(s, words, d);
      assert s[d..][u..] == s[t..][d + u - t..];
      SuffixNeedsNoMore(s[t..], words, d + u - t);
    }
  }

  // ---- Capped draws ----

  /** Every capped batch holds at most `c` sentences, so there are at least `ceil(S / c)` of them. */
  lemma {:induction false} CappedLowerBound(s: seq<Sentence>, words: nat, c: nat)
    requires AllFit(s, words) && c >= 1
    ensures |Draws(s, words, AtMost(c))| * c >= |s|
    decreases |s|
  {
    TakeIsGreedy(s, words, AtMost(c));
    if s != [] {
      var k := Take(s, words, AtMost(c));
      assert k <= c by { assert !Room(s, words, AtMost(c), c); }
      CappedLowerBound(s[k..], words, c);
      var n := |Draws(s[k..], words, AtMost(c))|;
      assert (1 + n) * c == c + n * c;
    }
  }

  /** A capped batch is either full or an uncapped batch, and greedy stays ahead: with room for `q` full batches
      at most, there are at most `B + q`. */
  lemma {:induction false} CappedUpperBound(s: seq<Sentence>, words: nat, c: nat, q: nat)
    requires Sorted(s) && AllFit(s, words) && c >= 1
    requires |s| < (q + 1) * c
    ensures |Draws(s, words, AtMost(c))| <= |Draws(s, words, Unbounded)| + q
    decreases |s|
  {
    TakeIsGreedy(s, words, AtMost(c));
    TakeIsGreedy(s, words, Unbounded);
    if s != [] {
      var k, t := Take(s, words, AtMost(c)), Take(s, words, Unbounded);
      assert k <= c by { assert !Room(s, words, AtMost(c), c); }
      if k == c {
        OneFullBatch(|s|, c, q);
        SuffixNeedsNoMore(s, words, k);
        CappedUpperBound(s[k..], words, c, q - 1);
      } else {
        assert forall j :: 0 <= j <= k ==> (Room(s, words, AtMost(c), j) <==> Room(s, words, Unbounded, j));
        assert GreedyCut(s, words, Unbounded, k);
        CappedUpperBound(s[k..], words, c, q);
      }
    }
  }

  lemma OneFullBatch(n: nat, c: nat, q: nat)
    requires c >= 1 && c <= n < (q + 1) * c
    ensures q >= 1 && n - c < (q - 1 + 1) * c
  {
    assert (q + 1) * c == q * c + c;
  }

  /** The smallest number of groups of `b` that hold `a`, as the pool computes it. */
  function CeilDiv(a: nat, b: nat): nat
    requires b >= 1
  {
    (a + b - 1) / b
  }

  lemma MulCancel(m: nat, n: nat, c: nat)
    requires m * c < (n + 1) * c
    ensures m <= n
  {
    if n < m { MulMono(c, n + 1, m); }
  }

  lemma CeilDivIs(a: nat, b: nat, n: nat)
    requires b >= 1
    ensures n == CeilDiv(a, b) <==> a <= n * b < a + b
  {
    var x := a + b - 1;
    var q := x / b;
    assert q * b <= x < (q + 1) * b by { DivBounds(x, b); }
    if a <= n * b < a + b {
      assert (n + 1) * b == n * b + b && (q + 1) * b == q * b + b;
      MulCancel(n, q, b);
      MulCancel(q, n, b);
    }
  }

  lemma CeilDivPositive(a: nat, b: nat)
    requires a >= 1 && b >= 1
    ensures CeilDiv(a, b) >= 1
  {
    CeilDivIs(a, b, CeilDiv(a, b));
  }

  lemma DivBounds(x: nat, b: nat)
    requires b >= 1
    ensures (x / b) * b <= x < (x / b + 1) * b
  {
    assert x == b * (x / b) + x % b;
    assert (x / b + 1) * b == (x / b) * b + b;
  }

  /** What the cap `c = ceil(S / W)` achieves for a submission of `S` sentences that would otherwise make fewer
      than `W` batches: at least `ceil(S / c)` and at most `B + floor(S / c)` batches, fewer than `2 W`, and more
      than half the workers busy as soon as there are as many sentences as workers. */
  lemma CapSpreadsSubmission(s: seq<Sentence>, words: nat, workers: nat, c: nat)
    requires Sorted(s) && AllFit(s, words) && s != [] && workers >= 1
    requires |Draws(s, words, Unbounded)| < workers
    requires c == CeilDiv(|s|, workers)
    ensures c >= 1
    ensures var n := |Draws(s, words, AtMost(c))|;
            && CeilDiv(|s|, c) <= n <= |Draws(s, words, Unbounded)| + FloorDiv(|s|, c)
            && n < 2 * workers
            && (|s| >= workers ==> 2 * n > workers)
  {
    CeilDivIs(|s|, workers, c);
    CeilDivPositive(|s|, workers);
    var floor := FloorDiv(|s|, c);
    DivBounds(|s|, c);
    CapSpreads(s, words, workers, c, floor);
    AtLeastCeil(|s|, c, |Draws(s, words, AtMost(c))|);
  }

  function FloorDiv(a: nat, b: nat): nat
    requires b >= 1
  {
    a / b
  }

  lemma CapSpreads(s: seq<Sentence>, words: nat, workers: nat, c: nat, floor: nat)
    requires Sorted(s) && AllFit(s, words) && c >= 1
    requires |Draws(s, words, Unbounded)| < workers
    requires |s| <= c * workers < |s| + workers
    requires floor * c <= |s| < (floor + 1) * c
    ensures var n := |Draws(s, words, AtMost(c))|;
            && |s| <= n * c
            && n <= |Draws(s, words, Unbounded)| + floor < 2 * workers
            && (|s| >= workers ==> 2 * n > workers)
  {
    CappedLowerBound(s, words, c);
    CappedUpperBound(s, words, c, floor);
    FloorAtMost(|s|, c, workers, floor);
    if |s| >= workers { MoreThanHalf(|s|, c, |Draws(s, words, AtMost(c))|, workers); }
  }

  lemma AtLeastCeil(a: nat, c: nat, n: nat)
    requires c >= 1 && n * c >= a
    ensures n >= CeilDiv(a, c)
  {
    var q := CeilDiv(a, c);
    CeilDivIs(a, c, q);
    assert (n + 1) * c == n * c + c;
    MulCancel(q, n, c);
  }

  lemma FloorAtMost(a: nat, c: nat, w: nat, f: nat)
    requires c >= 1 && f * c <= a <= c * w
    ensures f <= w
  {
    assert (w + 1) * c == c * w + c;
    MulCancel(f, w, c);
  }

  lemma MoreThanHalf(a: nat, c: nat, n: nat, w: nat)
    requires n * c >= a >= w && c * w < a + w
    ensures 2 * n > w
  {
    assert c * (2 * n) == 2 * (n * c);
    if 2 * n <= w {
      MulMono(c, 2 * n, w);
    }
  }

  // ---- "At least W batches whenever S >= W" ----

  /** The exact guard for it: `(W - 1) * c < S`. With it every submission of `S` sentences makes at least `W`
      capped batches; without it one whose padded size fits the budget makes fewer. */
  lemma EnoughBatches(s: seq<Sentence>, words: nat, workers: nat)
    requires Sorted(s) && AllFit(s, words) && s != [] && workers >= 1
    ensures var c := CeilDiv(|s|, workers);
            var n := |Draws(s, words, AtMost(c))|;
            && ((workers - 1) * c < |s| ==> n >= workers)
            && (|s| * s[|s| - 1].length <= words ==>
                n == CeilDiv(|s|, c) && (n >= workers <==> (workers - 1) * c < |s|))
  {
    var c := CeilDiv(|s|, workers);
    CeilDivIs(|s|, workers, c);
    CeilDivPositive(|s|, workers);
    CappedLowerBound(s, words, c);
    var n := |Draws(s, words, AtMost(c))|;
    GuardIsEnough(|s|, workers, c, n);
    if |s| * s[|s| - 1].length <= words {
      ShortSentences(s, words, c);
      CeilDivIs(|s|, c, n);
      GuardIsNeeded(|s|, workers, c, n);
    }
  }

  lemma GuardIsEnough(a: nat, w: nat, c: nat, n: nat)
    requires w >= 1 && a <= n * c
    ensures (w - 1) * c < a ==> n >= w
  {
    assert (n + 1) * c == n * c + c && w * c == (w - 1) * c + c;
    if (w - 1) * c < a { MulCancel(w, n, c); }
  }

  lemma GuardIsNeeded(a: nat, w: nat, c: nat, n: nat)
    requires w >= 1 && n * c < a + c
    ensures (w - 1) * c >= a ==> n < w
  {
    assert w * c == (w - 1) * c + c;
    if (w - 1) * c >= a { MulCancel(n, w - 1, c); }
  }

  lemma OneMoreBatch(a: nat, k: nat, c: nat, n: nat)
    requires k <= c && (k == c || (k == a > 0 && n == 0)) && k <= a && a - k <= n * c < a - k + c
    ensures a <= (1 + n) * c < a + c
  {
    assert (1 + n) * c == n * c + c;
  }

  lemma ShortRest(s: seq<Sentence>, words: nat, k: nat)
    requires s != [] && k < |s| && |s| * s[|s| - 1].length <= words
    ensures var t := s[k..]; t != [] && |t| * t[|t| - 1].length <= words
  {
    MulMono(s[|s| - 1].length, |s| - k, |s|);
  }

  lemma OneDraw(s: seq<Sentence>, words: nat, cap: Cap, k: nat)
    requires 0 < k <= |s| && Take(s, words, cap) == k
    ensures |Draws(s, words, cap)| == 1 + |Draws(s[k..], words, cap)|
  {}

  lemma NoDraws(words: nat, cap: Cap)
    ensures Draws([], words, cap) == []
  {}

  /** When even the whole line fits one batch, only the cap ends a batch: `N = ceil(S / c)`. */
  lemma {:induction false} ShortSentences(s: seq<Sentence>, words: nat, c: nat)
    requires Sorted(s) && c >= 1
    requires s != [] ==> |s| * s[|s| - 1].length <= words
    ensures |s| <= |Draws(s, words, AtMost(c))| * c < |s| + c
    decreases |s|
  {
    if s == [] {
      NoDraws(words, AtMost(c));
    } else {
      var k := if |s| <= c then |s| else c;
      ShortBatch(s, words, c, k);
      OneDraw(s, words, AtMost(c), k);
      if k < |s| {
        ShortRest(s, words, k);
        SortedSuffix(s, k);
        ShortSentences(s[k..], words, c);
      } else {
        assert s[k..] == [];
        NoDraws(words, AtMost(c));
      }
      OneMoreBatch(|s|, k, c, |Draws(s[k..], words, AtMost(c))|);
    }
  }

  lemma ShortBatch(s: seq<Sentence>, words: nat, c: nat, k: nat)
    requires Sorted(s) && s != [] && c >= 1
    requires |s| * s[|s| - 1].length <= words
    requires k == if |s| <= c then |s| else c
    ensures Take(s, words, AtMost(c)) == k
  {
    TakeIsGreedy(s, words, AtMost(c));
    forall j | 0 <= j < k ensures Room(s, words, AtMost(c), j) {
      assert j < |s| - 1 ==> Before(s[j], s[|s| - 1]);
      MulMono(|s|, s[j].length, s[|s| - 1].length);
      MulMono(s[j].length, j + 1, |s|);
    }
    assert GreedyCut(s, words, AtMost(c), k);
  }

  /** Five short sentences over four workers: the cap is two and only three batches form. */
  lemma FiveOverFour(words: nat)
    requires words >= 5
    ensures var s := seq(5, (i: nat) => Sentence(1, 0, i));
            |Draws(s, words, Unbounded)| < 4 && |Draws(s, words, AtMost(CeilDiv(5, 4)))| == 3
  {
    var s := seq(5, (i: nat) => Sentence(1, 0, i));
    assert Sorted(s);
    ShortSentences(s, words, CeilDiv(5, 4));
    ShortSentences(s, words, 5);
    forall j | 0 <= j < 5 ensures Room(s, words, Unbounded, j) {}
    TakeIsGreedy(s, words, Unbounded);
    assert GreedyCut(s, words, Unbounded, 5);
    assert s[5..] == [];
  }
}
