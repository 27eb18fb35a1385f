/** Choosing for each word of the translation a word of the source, and so the span it takes its tags from. */
module HtmlAlignment {
  import opened Basics
  import opened Markup
  import opened HtmlParsing
  import opened HtmlParser

  const SIZE_MAX: nat := 0xFFFF_FFFF_FFFF_FFFF

  /** A translated sentence: its words, how many words its source has, and for each word a score per source word. The
      last word on either side is the end of the sentence. */
  datatype Sentence = Sentence(words: seq<string>, sourceWords: nat, scores: seq<seq<real>>) {
    /** There is alignment information for every pair of words. */
    ghost predicate Aligned() {
      && |scores| == |words| && (words != [] ==> sourceWords > 0)
      && forall t :: 0 <= t < |words| ==> |scores[t]| == sourceWords
    }
  }

  /** Position of the first largest score. */
  function ArgMax(row: seq<real>): (m: nat)
    requires row != []
    ensures m < |row| && (forall j :: 0 <= j < |row| ==> row[j] <= row[m])
    ensures forall j :: 0 <= j < m ==> row[j] < row[m]
  {
    if |row| == 1 then 0
    else
      var last := |row| - 1;
      var m := ArgMax(row[..last]);
      assert forall j :: 0 <= j < last ==> row[..last][j] == row[j];
      if row[m] < row[last] then last else m
  }

  /** Whether word `t` continues the word before it. */
  predicate Joined(o: Options, words: seq<string>, t: nat)
    requires t < |words|
  {
    t > 0 && IsContinuation(o, words[t - 1], words[t])
  }

  predicate Extends(b: TagStack, a: TagStack) { a <= b }

  /** The source word for everything joined up to word `t`: the best one for `t` itself if it has more markup or no
      lower a score than the choice so far, otherwise the choice so far. */
  function Choice(o: Options, s: Sentence, stacks: seq<TagStack>, t: nat): (c: nat)
    requires s.Aligned() && |stacks| == s.sourceWords && t < |s.words|
    ensures c < s.sourceWords
  {
    var curr := ArgMax(s.scores[t]);
    if !Joined(o, s.words, t) then curr
    else
      var prev := Choice(o, s, stacks, t - 1);
      if Extends(stacks[curr], stacks[prev]) || s.scores[t][curr] >= s.scores[t - 1][prev] then curr else prev
  }

  /** Of the first `n` words each but the last one of a run of joined words has the source word of the next, and that
      last one has the choice for the run. */
  ghost predicate Settled(o: Options, s: Sentence, stacks: seq<TagStack>, n: nat, alignment: seq<nat>)
    requires s.Aligned() && |stacks| == s.sourceWords && n <= |alignment| && n <= |s.words|
  {
    forall i :: 0 <= i < n ==> SettledAt(o, s, stacks, n, alignment, i)
  }

  ghost predicate SettledAt(o: Options, s: Sentence, stacks: seq<TagStack>, n: nat, alignment: seq<nat>, i: nat)
    requires s.Aligned() && |stacks| == s.sourceWords && n <= |alignment| && i < n <= |s.words|
  {
    alignment[i] == if i + 1 < n && Joined(o, s.words, i + 1) then alignment[i + 1] else Choice(o, s, stacks, i)
  }

  /** Settled alignments name source words, agree on joined words, and name a best source word of one of them. */
  lemma {:induction false} RunsAgree(o: Options, s: Sentence, stacks: seq<TagStack>, n: nat, alignment: seq<nat>,
                                     i: nat, j: nat)
    requires s.Aligned() && |stacks| == s.sourceWords && n <= |alignment| && i <= j < n <= |s.words|
    requires Settled(o, s, stacks, n, alignment)
    requires forall k :: i < k <= j ==> Joined(o, s.words, k)
    ensures alignment[i] == alignment[j]
    decreases j - i
  {
    if i < j {
      assert SettledAt(o, s, stacks, n, alignment, i);
      RunsAgree(o, s, stacks, n, alignment, i + 1, j);
    }
  }

  lemma {:induction false} SettledInRange(o: Options, s: Sentence, stacks: seq<TagStack>, n: nat, alignment: seq<nat>,
                                          i: nat)
    requires s.Aligned() && |stacks| == s.sourceWords && n <= |alignment| && i < n <= |s.words|
    requires Settled(o, s, stacks, n, alignment)
    ensures alignment[i] < s.sourceWords
    decreases n - i
  {
    assert SettledAt(o, s, stacks, n, alignment, i);
    if i + 1 < n {
      SettledInRange(o, s, stacks, n, alignment, i + 1);
    }
  }

  /** A choice is the best source word of some word of the run it is for. */
  lemma {:induction false} ChoiceIsSomeBest(o: Options, s: Sentence, stacks: seq<TagStack>, t: nat) returns (k: nat)
    requires s.Aligned() && |stacks| == s.sourceWords && t < |s.words|
    ensures k <= t && Choice(o, s, stacks, t) == ArgMax(s.scores[k])
    ensures forall j :: k < j <= t ==> Joined(o, s.words, j)
  {
    k := t;
    if Joined(o, s.words, t) && Choice(o, s, stacks, t) != ArgMax(s.scores[t]) {
      k := ChoiceIsSomeBest(o, s, stacks, t - 1);
    }
  }

  /** Gives word `t` of the sentence, and all words it continues, their source word. */
  method SettleWord(o: Options, s: Sentence, stacks: seq<TagStack>, t: nat, best: seq<nat>)
    returns (alignment: seq<nat>)
    requires s.Aligned() && |stacks| == s.sourceWords && 1 <= t < |best| <= |s.words|
    requires Settled(o, s, stacks, t, best) && best[t] == ArgMax(s.scores[t])
    ensures |alignment| == |best| && alignment[t + 1..] == best[t + 1..]
    ensures Settled(o, s, stacks, t + 1, alignment)
  {
    alignment := best;
    assert SettledAt(o, s, stacks, t, best, t - 1);
    if Joined(o, s.words, t) {
      var curr, prev := alignment[t], alignment[t - 1];
      if Extends(stacks[curr], stacks[prev]) || s.scores[t][curr] >= s.scores[t - 1][prev] {
        var i := t;
        alignment := alignment[i := curr];
        while i > 0 && Joined(o, s.words, i)
          invariant 0 <= i <= t && |alignment| == |best|
          invariant forall k :: i <= k <= t ==> alignment[k] == curr
          invariant forall k :: i < k <= t ==> Joined(o, s.words, k)
          invariant forall k :: 0 <= k < |best| && (k < i || t < k) ==> alignment[k] == best[k]
        {
          i := i - 1;
          alignment := alignment[i := curr];
        }
        Resettled(o, s, stacks, t, best, alignment, i);
      } else {
        alignment := alignment[t := prev];
        Continued(o, s, stacks, t, best, alignment);
      }
    } else {
      Continued(o, s, stacks, t, best, alignment);
    }
  }

  lemma Resettled(o: Options, s: Sentence, stacks: seq<TagStack>, t: nat, best: seq<nat>, alignment: seq<nat>, i: nat)
    requires s.Aligned() && |stacks| == s.sourceWords && 1 <= t < |best| == |alignment| && |best| <= |s.words|
    requires Settled(o, s, stacks, t, best) && Choice(o, s, stacks, t) == ArgMax(s.scores[t])
    requires i < t && !Joined(o, s.words, i) && forall k :: i < k <= t ==> Joined(o, s.words, k)
    requires forall k :: i <= k <= t ==> alignment[k] == ArgMax(s.scores[t])
    requires forall k :: 0 <= k < i ==> alignment[k] == best[k]
    ensures Settled(o, s, stacks, t + 1, alignment)
  {
    var n := t + 1;
    forall k | 0 <= k < n ensures SettledAt(o, s, stacks, n, alignment, k) {
      if k < i {
        assert SettledAt(o, s, stacks, t, best, k);
      }
    }
  }

  lemma Continued(o: Options, s: Sentence, stacks: seq<TagStack>, t: nat, best: seq<nat>, alignment: seq<nat>)
    requires s.Aligned() && |stacks| == s.sourceWords && 1 <= t < |best| == |alignment| && |best| <= |s.words|
    requires Settled(o, s, stacks, t, best) && alignment[t] == Choice(o, s, stacks, t)
    requires forall k :: 0 <= k < t ==> alignment[k] == best[k]
    requires Joined(o, s.words, t) ==> alignment[t] == best[t - 1]
    ensures Settled(o, s, stacks, t + 1, alignment)
  {
    var n := t + 1;
    forall k | 0 <= k < n ensures SettledAt(o, s, stacks, n, alignment, k) {
      if k < t {
        assert SettledAt(o, s, stacks, t, best, k);
      }
    }
  }

  /** What is decided for a sentence: words joined to each other share one source word, and the ends go together. */
  ghost predicate HardAligned(o: Options, s: Sentence, stacks: seq<TagStack>, alignment: seq<nat>)
    requires s.Aligned() && |stacks| == s.sourceWords
  {
    var n := |s.words|;
    && |alignment| == (if n == 0 then 1 else n)
    && alignment[|alignment| - 1] == (if s.sourceWords == 0 then SIZE_MAX else s.sourceWords - 1)
    && Settled(o, s, stacks, |alignment| - 1, alignment)
  }

  // ---- Which word decides for a run ----

  /** Word `t` would rather have source word `c` than `b`, which the words before it have: `c` has the tags of `b` and
      perhaps more, or the score `t` has for `c` is no lower than the one the word before `t` has for `b`. */
  ghost predicate Prefers(s: Sentence, stacks: seq<TagStack>, t: nat, c: nat, b: nat)
    requires s.Aligned() && |stacks| == s.sourceWords && 1 <= t < |s.words| && b < s.sourceWords && c < s.sourceWords
  {
    (|stacks[b]| <= |stacks[c]| && stacks[c][..|stacks[b]|] == stacks[b]) || s.scores[t - 1][b] <= s.scores[t][c]
  }

  /** Joined words `first` to `last` take source word `c`: it is the best one of the last of them that prefers its own
      best one to what the words before it take. */
  ghost predicate Taken(s: Sentence, stacks: seq<TagStack>, first: nat, last: nat, c: nat)
    requires s.Aligned() && |stacks| == s.sourceWords && first <= last < |s.words|
    decreases last, 1
  {
    exists k :: first <= k <= last && TakenFrom(s, stacks, first, last, c, k)
  }

  ghost predicate TakenFrom(s: Sentence, stacks: seq<TagStack>, first: nat, last: nat, c: nat, k: nat)
    requires s.Aligned() && |stacks| == s.sourceWords && first <= k <= last < |s.words|
    decreases last, 0
  {
    && c == ArgMax(s.scores[k])
    && (forall j :: k < j <= last ==> !Prefers(s, stacks, j, ArgMax(s.scores[j]), c))
    && (k > first ==> exists b: nat ::
        b < s.sourceWords && Taken(s, stacks, first, k - 1, b) && Prefers(s, stacks, k, c, b))
  }

  /** There is only one such source word. */
  lemma {:induction false} TakenOnce(s: Sentence, stacks: seq<TagStack>, first: nat, last: nat, c: nat, d: nat)
    requires s.Aligned() && |stacks| == s.sourceWords && first <= last < |s.words|
    requires Taken(s, stacks, first, last, c) && Taken(s, stacks, first, last, d)
    ensures c == d
    decreases last, 1
  {
    var k: nat :| first <= k <= last && TakenFrom(s, stacks, first, last, c, k);
    var l: nat :| first <= l <= last && TakenFrom(s, stacks, first, last, d, l);
    if k < l {
      NoLater(s, stacks, first, last, c, k, d, l);
    } else if l < k {
      NoLater(s, stacks, first, last, d, l, c, k);
    }
  }

  lemma {:induction false} NoLater(s: Sentence, stacks: seq<TagStack>, first: nat, last: nat, c: nat, k: nat, d: nat,
                                   l: nat)
    requires s.Aligned() && |stacks| == s.sourceWords && first <= k < l <= last < |s.words|
    requires TakenFrom(s, stacks, first, last, c, k)
    ensures !TakenFrom(s, stacks, first, last, d, l)
    decreases last, 0
  {
    assert c < s.sourceWords && !Prefers(s, stacks, l, ArgMax(s.scores[l]), c);
    assert TakenFrom(s, stacks, first, l - 1, c, k);
    forall b: nat | b < s.sourceWords && Taken(s, stacks, first, l - 1, b)
      ensures !Prefers(s, stacks, l, ArgMax(s.scores[l]), b)
    {
      TakenOnce(s, stacks, first, l - 1, b, c);
    }
  }

  lemma {:induction false} FirstTaken(s: Sentence, stacks: seq<TagStack>, t: nat)
    requires s.Aligned() && |stacks| == s.sourceWords && t < |s.words|
    ensures Taken(s, stacks, t, t, ArgMax(s.scores[t]))
  {
    assert TakenFrom(s, stacks, t, t, ArgMax(s.scores[t]), t);
  }

  lemma {:induction false} ChoiceIsTaken(o: Options, s: Sentence, stacks: seq<TagStack>, first: nat, last: nat)
    requires s.Aligned() && |stacks| == s.sourceWords && first <= last < |s.words|
    requires !Joined(o, s.words, first) && forall k :: first < k <= last ==> Joined(o, s.words, k)
    ensures Taken(s, stacks, first, last, Choice(o, s, stacks, last))
    decreases last
  {
    if first == last {
      ChoiceFirst(o, s, stacks, first);
    } else {
      ChoiceIsTaken(o, s, stacks, first, last - 1);
      ChoiceStaysTaken(o, s, stacks, first, last);
    }
  }

  lemma {:induction false} ChoiceFirst(o: Options, s: Sentence, stacks: seq<TagStack>, t: nat)
    requires s.Aligned() && |stacks| == s.sourceWords && t < |s.words| && !Joined(o, s.words, t)
    ensures Taken(s, stacks, t, t, Choice(o, s, stacks, t))
  {
    FirstTaken(s, stacks, t);
  }

  lemma {:induction false} ChoiceStaysTaken(o: Options, s: Sentence, stacks: seq<TagStack>, first: nat, last: nat)
    requires s.Aligned() && |stacks| == s.sourceWords && first < last < |s.words| && Joined(o, s.words, last)
    requires Taken(s, stacks, first, last - 1, Choice(o, s, stacks, last - 1))
    ensures Taken(s, stacks, first, last, Choice(o, s, stacks, last))
  {
    TakenNext(s, stacks, first, last, Choice(o, s, stacks, last - 1));
    ChoiceNext(o, s, stacks, last);
  }

  lemma {:induction false} ChoiceNext(o: Options, s: Sentence, stacks: seq<TagStack>, t: nat)
    requires s.Aligned() && |stacks| == s.sourceWords && 1 <= t < |s.words| && Joined(o, s.words, t)
    ensures var c, b := ArgMax(s.scores[t]), Choice(o, s, stacks, t - 1);
            Choice(o, s, stacks, t) == if Prefers(s, stacks, t, c, b) then c else b
  {
    ExtendsIff(stacks[ArgMax(s.scores[t])], stacks[Choice(o, s, stacks, t - 1)]);
  }

  lemma {:induction false} TakenNext(s: Sentence, stacks: seq<TagStack>, first: nat, last: nat, b: nat)
    requires s.Aligned() && |stacks| == s.sourceWords && first < last < |s.words| && b < s.sourceWords
    requires Taken(s, stacks, first, last - 1, b)
    ensures var c := ArgMax(s.scores[last]);
            Taken(s, stacks, first, last, if Prefers(s, stacks, last, c, b) then c else b)
  {
    if Prefers(s, stacks, last, ArgMax(s.scores[last]), b) {
      assert TakenFrom(s, stacks, first, last, ArgMax(s.scores[last]), last);
    } else {
      var k: nat :| first <= k <= last - 1 && TakenFrom(s, stacks, first, last - 1, b, k);
      StillTaken(s, stacks, first, last, b, k);
    }
  }

  lemma {:induction false} StillTaken(s: Sentence, stacks: seq<TagStack>, first: nat, last: nat, b: nat, k: nat)
    requires s.Aligned() && |stacks| == s.sourceWords && first <= k < last < |s.words| && b < s.sourceWords
    requires TakenFrom(s, stacks, first, last - 1, b, k) && !Prefers(s, stacks, last, ArgMax(s.scores[last]), b)
    ensures TakenFrom(s, stacks, first, last, b, k)
  {
    forall j | k < j <= last ensures !Prefers(s, stacks, j, ArgMax(s.scores[j]), b) {
      if j < last { assert !Prefers(s, stacks, j, ArgMax(s.scores[j]), b); }
    }
  }

  lemma ExtendsIff(b: TagStack, a: TagStack)
    ensures Extends(b, a) <==> |a| <= |b| && b[..|a|] == a
  {}

  /** Words `first` to `last` are joined to each other and to no others of the first `n`. */
  predicate IsRun(o: Options, words: seq<string>, n: nat, first: nat, last: nat)
    requires n <= |words|
  {
    && first <= last < n && !Joined(o, words, first) && (last + 1 < n ==> !Joined(o, words, last + 1))
    && forall k :: first < k <= last ==> Joined(o, words, k)
  }

  /** Every run of joined words has one source word, that of the last word that prefers its own. */
  ghost predicate RunsTaken(o: Options, s: Sentence, stacks: seq<TagStack>, alignment: seq<nat>)
    requires s.Aligned() && |stacks| == s.sourceWords && |s.words| <= |alignment|
  {
    forall first: nat, last: nat :: s.words != [] && IsRun(o, s.words, |s.words| - 1, first, last) ==>
      RunTaken(s, stacks, alignment, first, last)
  }

  ghost predicate RunTaken(s: Sentence, stacks: seq<TagStack>, alignment: seq<nat>, first: nat, last: nat)
    requires s.Aligned() && |stacks| == s.sourceWords && |s.words| <= |alignment| && first <= last < |s.words|
  {
    && (forall i :: first <= i <= last ==> alignment[i] == alignment[last])
    && Taken(s, stacks, first, last, alignment[last])
  }

  lemma {:induction false} AlignedRunTaken(o: Options, s: Sentence, stacks: seq<TagStack>, alignment: seq<nat>,
                                           first: nat, last: nat)
    requires s.Aligned() && |stacks| == s.sourceWords && HardAligned(o, s, stacks, alignment) && s.words != []
    requires IsRun(o, s.words, |s.words| - 1, first, last)
    ensures RunTaken(s, stacks, alignment, first, last)
  {
    var n := |s.words| - 1;
    assert SettledAt(o, s, stacks, n, alignment, last);
    ChoiceIsTaken(o, s, stacks, first, last);
    forall i | first <= i <= last ensures alignment[i] == alignment[last] {
      RunsAgree(o, s, stacks, n, alignment, i, last);
    }
  }

  lemma {:induction false} AlignedRunsTaken(o: Options, s: Sentence, stacks: seq<TagStack>, alignment: seq<nat>)
    requires s.Aligned() && |stacks| == s.sourceWords && HardAligned(o, s, stacks, alignment)
    ensures RunsTaken(o, s, stacks, alignment)
  {
    forall first: nat, last: nat | s.words != [] && IsRun(o, s.words, |s.words| - 1, first, last)
      ensures RunTaken(s, stacks, alignment, first, last)
    {
      AlignedRunTaken(o, s, stacks, alignment, first, last);
    }
  }

  /** A word of two tokens takes the source word its second token is best at whenever that has the tags of the one its
      first token is best at, and perhaps more, whatever the scores. */
  lemma {:induction false} MoreTagsWin(o: Options, s: Sentence, stacks: seq<TagStack>, alignment: seq<nat>, t: nat)
    requires s.Aligned() && |stacks| == s.sourceWords && HardAligned(o, s, stacks, alignment)
    requires 1 <= t && s.words != [] && IsRun(o, s.words, |s.words| - 1, t - 1, t)
    requires var lesser, more := stacks[ArgMax(s.scores[t - 1])], stacks[ArgMax(s.scores[t])];
             |lesser| <= |more| && more[..|lesser|] == lesser
    ensures alignment[t - 1] == alignment[t] == ArgMax(s.scores[t])
  {
    AlignedRunTaken(o, s, stacks, alignment, t - 1, t);
    var p, c := ArgMax(s.scores[t - 1]), ArgMax(s.scores[t]);
    FirstTaken(s, stacks, t - 1);
    assert Prefers(s, stacks, t, c, p);
    assert TakenFrom(s, stacks, t - 1, t, c, t);
    assert Taken(s, stacks, t - 1, t, c);
    TakenOnce(s, stacks, t - 1, t, c, alignment[t]);
    assert alignment[t - 1] == alignment[t];
  }

  method HardAlign(o: Options, s: Sentence, stacks: seq<TagStack>) returns (alignment: seq<nat>)
    requires s.Aligned() && |stacks| == s.sourceWords
    ensures HardAligned(o, s, stacks, alignment)
    ensures forall t :: 0 <= t < |s.words| ==> alignment[t] < s.sourceWords
    ensures forall t :: 1 <= t < |s.words| - 1 && Joined(o, s.words, t) ==> alignment[t - 1] == alignment[t]
    ensures RunsTaken(o, s, stacks, alignment)
  {
    alignment := [];
    var t := 0;
    while t + 1 < |s.words|
      invariant |alignment| == t && (t == 0 || t < |s.words|)
      invariant forall i :: 0 <= i < t ==> alignment[i] == ArgMax(s.scores[i])
    {
      alignment := alignment + [ArgMax(s.scores[t])];
      t := t + 1;
    }
    var n := |alignment|;
    t := 1;
    while t + 1 < |s.words|
      invariant |alignment| == n && (n == 0 || 1 <= t <= n)
      invariant n > 0 ==> Settled(o, s, stacks, t, alignment)
      invariant forall i :: t <= i < n ==> alignment[i] == ArgMax(s.scores[i])
    {
      var settled := SettleWord(o, s, stacks, t, alignment);
      assert forall i :: t + 1 <= i < n ==> settled[i] == settled[t + 1..][i - t - 1] == alignment[i];
      alignment := settled;
      t := t + 1;
    }
    Ended(o, s, stacks, alignment, if s.sourceWords == 0 then SIZE_MAX else s.sourceWords - 1);
    alignment := alignment + [if s.sourceWords == 0 then SIZE_MAX else s.sourceWords - 1];
    AlignedRunsTaken(o, s, stacks, alignment);
  }

  lemma Ended(o: Options, s: Sentence, stacks: seq<TagStack>, alignment: seq<nat>, end: nat)
    requires s.Aligned() && |stacks| == s.sourceWords && |alignment| == (if s.words == [] then 0 else |s.words| - 1)
    requires Settled(o, s, stacks, |alignment|, alignment)
    requires end == (if s.sourceWords == 0 then SIZE_MAX else s.sourceWords - 1)
    ensures HardAligned(o, s, stacks, alignment + [end])
    ensures forall t :: 0 <= t < |s.words| ==> (alignment + [end])[t] < s.sourceWords
    ensures forall t :: 1 <= t < |s.words| - 1 && Joined(o, s.words, t) ==>
            (alignment + [end])[t - 1] == (alignment + [end])[t]
  {
    var n := |alignment|;
    forall i | 0 <= i < n
      ensures alignment[i] < s.sourceWords && SettledAt(o, s, stacks, n, alignment + [end], i)
    {
      assert SettledAt(o, s, stacks, n, alignment, i);
      SettledInRange(o, s, stacks, n, alignment, i);
    }
    forall t | 1 <= t < n && Joined(o, s.words, t) ensures alignment[t - 1] == alignment[t] {
      assert SettledAt(o, s, stacks, n, alignment, t - 1);
    }
  }

  // ---- All sentences ----

  /** Where the tokens of sentence `k` begin among the source's tokens: with the gap before it. */
  function SourceOffset(sentences: seq<Sentence>, k: nat): nat
    requires k <= |sentences|
  {
    if k == 0 then 0 else SourceOffset(sentences, k - 1) + sentences[k - 1].sourceWords + 1
  }

  function TargetOffset(sentences: seq<Sentence>, k: nat): nat
    requires k <= |sentences|
  {
    if k == 0 then 0 else TargetOffset(sentences, k - 1) + |sentences[k - 1].words| + 1
  }

  lemma {:induction false} OffsetsFit(sentences: seq<Sentence>, k: nat)
    requires k < |sentences|
    ensures SourceOffset(sentences, k) + sentences[k].sourceWords + 1 <= SourceOffset(sentences, |sentences|)
    ensures TargetOffset(sentences, k) + |sentences[k].words| + 1 <= TargetOffset(sentences, |sentences|)
    decreases |sentences| - k
  {
    if k + 1 < |sentences| { OffsetsFit(sentences, k + 1); }
  }

  ghost predicate Tokenised(spans: seq<Span>, sentences: seq<Sentence>, tokenSpans: seq<nat>) {
    && |tokenSpans| == SourceOffset(sentences, |sentences|) + 1
    && (forall i :: 0 <= i < |tokenSpans| ==> tokenSpans[i] < |spans|)
    && (forall k :: 0 <= k < |sentences| ==> sentences[k].Aligned())
  }

  /** The tags of `n` tokens from `offset` on. */
  function StacksAt(spans: seq<Span>, tokenSpans: seq<nat>, offset: nat, n: nat): (stacks: seq<TagStack>)
    requires offset + n <= |tokenSpans| && forall i :: 0 <= i < |tokenSpans| ==> tokenSpans[i] < |spans|
    ensures |stacks| == n && forall i :: 0 <= i < n ==> stacks[i] == spans[tokenSpans[offset + i]].tags
  {
    if n == 0 then [] else StacksAt(spans, tokenSpans, offset, n - 1) + [spans[tokenSpans[offset + n - 1]].tags]
  }

  /** The alignment of sentence `k` goes by the tags of its own source words. */
  ghost predicate SentenceAligned(o: Options, spans: seq<Span>, sentences: seq<Sentence>, tokenSpans: seq<nat>,
                                  alignment: seq<nat>, k: nat)
    requires k < |sentences| && Tokenised(spans, sentences, tokenSpans)
  {
    OffsetsFit(sentences, k);
    var s := sentences[k];
    var stacks := StacksAt(spans, tokenSpans, SourceOffset(sentences, k) + 1, s.sourceWords);
    && HardAligned(o, s, stacks, alignment) && RunsTaken(o, s, stacks, alignment)
    && forall t :: 0 <= t < |s.words| ==> alignment[t] < s.sourceWords
  }

  method HardAlignments(o: Options, spans: seq<Span>, sentences: seq<Sentence>, tokenSpans: seq<nat>)
    returns (alignments: seq<seq<nat>>)
    requires Tokenised(spans, sentences, tokenSpans)
    ensures |alignments| == |sentences|
    ensures forall k :: 0 <= k < |sentences| ==> SentenceAligned(o, spans, sentences, tokenSpans, alignments[k], k)
  {
    alignments := [];
    var offset := 0;
    for k := 0 to |sentences|
      invariant |alignments| == k && offset == SourceOffset(sentences, k)
      invariant forall j :: 0 <= j < k ==> SentenceAligned(o, spans, sentences, tokenSpans, alignments[j], j)
    {
      OffsetsFit(sentences, k);
      var alignment := HardAlign(o, sentences[k], StacksAt(spans, tokenSpans, offset + 1, sentences[k].sourceWords));
      alignments := alignments + [alignment];
      offset := offset + sentences[k].sourceWords + 1;
    }
  }

  // ---- Spans for the target's tokens ----

  ghost predicate WordsInRange(sentences: seq<Sentence>, alignments: seq<seq<nat>>) {
    && |alignments| == |sentences|
    && forall k :: 0 <= k < |sentences| ==> WordsInRangeAt(sentences[k], alignments[k])
  }

  ghost predicate WordsInRangeAt(s: Sentence, alignment: seq<nat>) {
    |s.words| <= |alignment| && forall t :: 0 <= t < |s.words| ==> alignment[t] < s.sourceWords
  }

  /** The tokens of a sentence take the spans of the gap before its source and of their source words. */
  ghost predicate Copied(s: Sentence, alignment: seq<nat>, tokenSpans: seq<nat>, source: nat, targetSpans: seq<nat>,
                         target: nat)
    requires WordsInRangeAt(s, alignment)
  {
    && source + s.sourceWords < |tokenSpans| && target + |s.words| < |targetSpans|
    && targetSpans[target] == tokenSpans[source]
    && forall t :: 0 <= t < |s.words| ==> targetSpans[target + 1 + t] == tokenSpans[source + 1 + alignment[t]]
  }

  ghost predicate AllCopied(sentences: seq<Sentence>, n: nat, alignments: seq<seq<nat>>, tokenSpans: seq<nat>,
                            targetSpans: seq<nat>)
    requires n <= |sentences| && WordsInRange(sentences, alignments)
  {
    forall k :: 0 <= k < n ==> SentenceCopied(sentences, alignments, tokenSpans, targetSpans, k)
  }

  ghost predicate SentenceCopied(sentences: seq<Sentence>, alignments: seq<seq<nat>>, tokenSpans: seq<nat>,
                                 targetSpans: seq<nat>, k: nat)
    requires WordsInRange(sentences, alignments) && k < |sentences|
  {
    assert WordsInRangeAt(sentences[k], alignments[k]);
    Copied(sentences[k], alignments[k], tokenSpans, SourceOffset(sentences, k), targetSpans, TargetOffset(sentences, k))
  }

  lemma SentenceStays(sentences: seq<Sentence>, alignments: seq<seq<nat>>, tokenSpans: seq<nat>, targetSpans: seq<nat>,
                      k: nat, more: seq<nat>)
    requires WordsInRange(sentences, alignments) && k < |sentences|
    requires SentenceCopied(sentences, alignments, tokenSpans, targetSpans, k)
    ensures SentenceCopied(sentences, alignments, tokenSpans, targetSpans + more, k)
  {
    assert WordsInRangeAt(sentences[k], alignments[k]);
    CopiedStays(sentences[k], alignments[k], tokenSpans, SourceOffset(sentences, k), targetSpans,
                TargetOffset(sentences, k), more);
  }

  lemma CopiedStays(s: Sentence, alignment: seq<nat>, tokenSpans: seq<nat>, source: nat, targetSpans: seq<nat>,
                    target: nat, more: seq<nat>)
    requires WordsInRangeAt(s, alignment) && Copied(s, alignment, tokenSpans, source, targetSpans, target)
    ensures Copied(s, alignment, tokenSpans, source, targetSpans + more, target)
  {
    assert forall i :: 0 <= i < |targetSpans| ==> (targetSpans + more)[i] == targetSpans[i];
  }

  method CopySentence(s: Sentence, alignment: seq<nat>, tokenSpans: seq<nat>, offset: nat) returns (spans: seq<nat>)
    requires WordsInRangeAt(s, alignment) && offset + s.sourceWords < |tokenSpans|
    ensures |spans| == |s.words| + 1 && Copied(s, alignment, tokenSpans, offset, spans, 0)
    ensures forall i :: 0 <= i < |spans| ==> spans[i] in tokenSpans
  {
    spans := [tokenSpans[offset]];
    for t := 0 to |s.words|
      invariant |spans| == t + 1 && spans[0] == tokenSpans[offset]
      invariant forall i :: 0 <= i < t ==> spans[0 + 1 + i] == tokenSpans[offset + 1 + alignment[i]]
      invariant forall i :: 0 <= i < |spans| ==> spans[i] in tokenSpans
    {
      spans := spans + [tokenSpans[offset + 1 + alignment[t]]];
    }
  }

  method CopyTagStack(sentences: seq<Sentence>, alignments: seq<seq<nat>>, tokenSpans: seq<nat>)
    returns (targetSpans: seq<nat>)
    requires WordsInRange(sentences, alignments) && |tokenSpans| == SourceOffset(sentences, |sentences|) + 1
    ensures |targetSpans| == TargetOffset(sentences, |sentences|) + 1
    ensures AllCopied(sentences, |sentences|, alignments, tokenSpans, targetSpans)
    ensures targetSpans[|targetSpans| - 1] == tokenSpans[|tokenSpans| - 1]
    ensures forall i :: 0 <= i < |targetSpans| ==> targetSpans[i] in tokenSpans
  {
    var offset := 0;
    targetSpans := [];
    for k := 0 to |sentences|
      invariant offset == SourceOffset(sentences, k) && |targetSpans| == TargetOffset(sentences, k)
      invariant AllCopied(sentences, k, alignments, tokenSpans, targetSpans)
      invariant forall i :: 0 <= i < |targetSpans| ==> targetSpans[i] in tokenSpans
    {
      OffsetsFit(sentences, k);
      assert WordsInRangeAt(sentences[k], alignments[k]);
      var more := CopySentence(sentences[k], alignments[k], tokenSpans, offset);
      CopiedNext(sentences, k, alignments, tokenSpans, targetSpans, more);
      targetSpans := targetSpans + more;
      offset := offset + sentences[k].sourceWords + 1;
    }
    forall k | 0 <= k < |sentences|
      ensures SentenceCopied(sentences, alignments, tokenSpans, targetSpans + [tokenSpans[offset]], k)
    {
      SentenceStays(sentences, alignments, tokenSpans, targetSpans, k, [tokenSpans[offset]]);
    }
    targetSpans := targetSpans + [tokenSpans[offset]];
  }

  lemma CopiedHere(s: Sentence, alignment: seq<nat>, tokenSpans: seq<nat>, source: nat, targetSpans: seq<nat>,
                   more: seq<nat>)
    requires WordsInRangeAt(s, alignment) && source + s.sourceWords < |tokenSpans|
    requires Copied(s, alignment, tokenSpans, source, more, 0)
    ensures Copied(s, alignment, tokenSpans, source, targetSpans + more, |targetSpans|)
  {
    var all, n := targetSpans + more, |targetSpans|;
    forall t | 0 <= t < |s.words| ensures all[n + 1 + t] == tokenSpans[source + 1 + alignment[t]] {
      assert more[0 + 1 + t] == tokenSpans[source + 1 + alignment[t]];
    }
  }

  lemma SentenceHere(sentences: seq<Sentence>, k: nat, alignments: seq<seq<nat>>, tokenSpans: seq<nat>,
                     targetSpans: seq<nat>, more: seq<nat>)
    requires WordsInRange(sentences, alignments) && k < |sentences| && |targetSpans| == TargetOffset(sentences, k)
    requires SourceOffset(sentences, k) + sentences[k].sourceWords < |tokenSpans|
    requires WordsInRangeAt(sentences[k], alignments[k])
    requires Copied(sentences[k], alignments[k], tokenSpans, SourceOffset(sentences, k), more, 0)
    ensures SentenceCopied(sentences, alignments, tokenSpans, targetSpans + more, k)
  {
    CopiedHere(sentences[k], alignments[k], tokenSpans, SourceOffset(sentences, k), targetSpans, more);
  }

  lemma {:induction false} CopiedNext(sentences: seq<Sentence>, k: nat, alignments: seq<seq<nat>>,
                                      tokenSpans: seq<nat>, targetSpans: seq<nat>, more: seq<nat>)
    requires WordsInRange(sentences, alignments) && k < |sentences| && |targetSpans| == TargetOffset(sentences, k)
    requires AllCopied(sentences, k, alignments, tokenSpans, targetSpans)
    requires SourceOffset(sentences, k) + sentences[k].sourceWords < |tokenSpans|
    requires WordsInRangeAt(sentences[k], alignments[k])
    requires Copied(sentences[k], alignments[k], tokenSpans, SourceOffset(sentences, k), more, 0)
    ensures AllCopied(sentences, k + 1, alignments, tokenSpans, targetSpans + more)
  {
    var m := k + 1;
    forall j | 0 <= j < m ensures SentenceCopied(sentences, alignments, tokenSpans, targetSpans + more, j) {
      if j < k {
        SentenceStays(sentences, alignments, tokenSpans, targetSpans, j, more);
      } else {
        SentenceHere(sentences, k, alignments, tokenSpans, targetSpans, more);
      }
    }
  }
}
