/** Tokens by name instead of by number: which sentence's gap or word each token is, and what target tokens take
    over. */
module TokenSlots {
  import opened Basics
  import opened Markup
  import opened HtmlParsing
  import opened HtmlParser
  import opened HtmlAlignment

  /** The gap before a sentence (behind the last one, for the number of sentences) or one of its words. */
  datatype Slot = Gap(sentence: nat) | Word(sentence: nat, word: nat)

  ghost function Words(k: nat, n: nat): (slots: seq<Slot>)
    ensures |slots| == n && forall w: nat :: w < n ==> slots[w] == Word(k, w)
  {
    if n == 0 then [] else Words(k, n - 1) + [Word(k, n - 1)]
  }

  /** The tokens of the first `n` sentences in text order, for as many words each as `counts` says. */
  ghost function Before(counts: seq<nat>, n: nat): seq<Slot>
    requires n <= |counts|
  {
    if n == 0 then [] else Before(counts, n - 1) + [Gap(n - 1)] + Words(n - 1, counts[n - 1])
  }

  ghost function Slots(counts: seq<nat>): seq<Slot> { Before(counts, |counts|) + [Gap(|counts|)] }

  ghost function SourceCounts(sentences: seq<Sentence>): (counts: seq<nat>)
    ensures |counts| == |sentences| && forall k :: 0 <= k < |sentences| ==> counts[k] == sentences[k].sourceWords
  {
    if sentences == [] then []
    else SourceCounts(sentences[..|sentences| - 1]) + [sentences[|sentences| - 1].sourceWords]
  }

  ghost function TargetCounts(sentences: seq<Sentence>): (counts: seq<nat>)
    ensures |counts| == |sentences| && forall k :: 0 <= k < |sentences| ==> counts[k] == |sentences[k].words|
  {
    if sentences == [] then []
    else TargetCounts(sentences[..|sentences| - 1]) + [|sentences[|sentences| - 1].words|]
  }

  ghost function SourceSlots(sentences: seq<Sentence>): seq<Slot> { Slots(SourceCounts(sentences)) }

  ghost function TargetSlots(sentences: seq<Sentence>): seq<Slot> { Slots(TargetCounts(sentences)) }

  lemma {:induction false} BeforeGrows(counts: seq<nat>, k: nat, n: nat)
    requires k <= n <= |counts|
    ensures Before(counts, k) <= Before(counts, n)
    decreases n
  {
    if k < n { BeforeGrows(counts, k, n - 1); }
  }

  /** A sentence's gap stands where the tokens of those before it end, and its words behind that. */
  lemma {:induction false} SlotsOfSentence(counts: seq<nat>, k: nat)
    requires k < |counts|
    ensures var slots, at := Slots(counts), |Before(counts, k)|;
            && at + counts[k] + 1 < |slots| && slots[at] == Gap(k)
            && forall w: nat :: w < counts[k] ==> slots[at + 1 + w] == Word(k, w)
  {
    BeforeGrows(counts, k + 1, |counts|);
    var some, all := Before(counts, k + 1), Before(counts, |counts|);
    assert some == Before(counts, k) + [Gap(k)] + Words(k, counts[k]);
    assert forall i :: 0 <= i < |some| ==> all[i] == some[i];
  }

  lemma {:induction false} OffsetsCount(sentences: seq<Sentence>, k: nat)
    requires k <= |sentences|
    ensures SourceOffset(sentences, k) == |Before(SourceCounts(sentences), k)|
    ensures TargetOffset(sentences, k) == |Before(TargetCounts(sentences), k)|
  {
    if k > 0 { OffsetsCount(sentences, k - 1); }
  }

  lemma {:induction false} SentencesBelow(counts: seq<nat>, n: nat, i: nat)
    requires n <= |counts| && i < |Before(counts, n)|
    ensures Before(counts, n)[i].sentence < n
    decreases n
  {
    if i < |Before(counts, n - 1)| { SentencesBelow(counts, n - 1, i); }
  }

  lemma {:induction false} NamedOnceBefore(counts: seq<nat>, n: nat, i: nat, j: nat)
    requires n <= |counts| && i < j < |Before(counts, n)|
    ensures Before(counts, n)[i] != Before(counts, n)[j]
    decreases n
  {
    var less, m := Before(counts, n - 1), |Before(counts, n - 1)|;
    if j < m {
      NamedOnceBefore(counts, n - 1, i, j);
    } else if i < m {
      SentencesBelow(counts, n - 1, i);
      assert Before(counts, n)[i] == less[i];
    }
  }

  /** No token is named twice. */
  lemma {:induction false} NamedOnce(counts: seq<nat>, i: nat, j: nat)
    requires i < j < |Slots(counts)|
    ensures Slots(counts)[i] != Slots(counts)[j]
  {
    SentencesBelow(counts, |counts|, i);
    if j < |Before(counts, |counts|)| { NamedOnceBefore(counts, |counts|, i, j); }
  }

  /** The target token `t` takes over what is there for the source token `s`. */
  ghost predicate TakesOver(sentences: seq<Sentence>, tokenSpans: seq<nat>, targetSpans: seq<nat>, t: Slot, s: Slot) {
    var sources, targets := SourceSlots(sentences), TargetSlots(sentences);
    && |tokenSpans| == |sources| && |targetSpans| == |targets|
    && exists i: nat, j: nat ::
         i < |targets| && j < |sources| && targets[i] == t && sources[j] == s && targetSpans[i] == tokenSpans[j]
  }

  ghost predicate WordTakesOver(sentences: seq<Sentence>, alignments: seq<seq<nat>>, tokenSpans: seq<nat>,
                                targetSpans: seq<nat>, k: nat, w: nat) {
    && k < |alignments| && w < |alignments[k]|
    && TakesOver(sentences, tokenSpans, targetSpans, Word(k, w), Word(k, alignments[k][w]))
  }

  /** Which tokens stand where in source and target, and what was copied. */
  ghost predicate Taken(sentences: seq<Sentence>, alignments: seq<seq<nat>>, tokenSpans: seq<nat>,
                        targetSpans: seq<nat>)
  {
    && WordsInRange(sentences, alignments) && |tokenSpans| == SourceOffset(sentences, |sentences|) + 1
    && |targetSpans| == TargetOffset(sentences, |sentences|) + 1
    && AllCopied(sentences, |sentences|, alignments, tokenSpans, targetSpans)
    && targetSpans[|targetSpans| - 1] == tokenSpans[|tokenSpans| - 1]
  }

  /** The gap before a sentence takes the span of the gap before its source, and the end of the text that of its
      source's. */
  lemma {:induction false} GapTakesOver(sentences: seq<Sentence>, alignments: seq<seq<nat>>, tokenSpans: seq<nat>,
                                        targetSpans: seq<nat>, k: nat)
    requires Taken(sentences, alignments, tokenSpans, targetSpans) && k <= |sentences|
    ensures TakesOver(sentences, tokenSpans, targetSpans, Gap(k), Gap(k))
  {
    var sources, targets := SourceCounts(sentences), TargetCounts(sentences);
    OffsetsCount(sentences, |sentences|);
    OffsetsCount(sentences, k);
    if k < |sentences| {
      SlotsOfSentence(sources, k);
      SlotsOfSentence(targets, k);
      assert SentenceCopied(sentences, alignments, tokenSpans, targetSpans, k);
    }
    var i, j := TargetOffset(sentences, k), SourceOffset(sentences, k);
    assert Slots(targets)[i] == Gap(k) && Slots(sources)[j] == Gap(k);
  }

  lemma {:induction false} WordCopied(sentences: seq<Sentence>, alignments: seq<seq<nat>>, tokenSpans: seq<nat>,
                                      targetSpans: seq<nat>, k: nat, w: nat)
    requires Taken(sentences, alignments, tokenSpans, targetSpans) && k < |sentences| && w < |sentences[k].words|
    ensures w < |alignments[k]| && alignments[k][w] < sentences[k].sourceWords
    ensures var i, j := TargetOffset(sentences, k) + 1 + w, SourceOffset(sentences, k) + 1 + alignments[k][w];
            i < |targetSpans| && j < |tokenSpans| && targetSpans[i] == tokenSpans[j]
  {
    assert SentenceCopied(sentences, alignments, tokenSpans, targetSpans, k);
    assert WordsInRangeAt(sentences[k], alignments[k]);
  }

  /** A word takes the span of the source word it is aligned to. */
  lemma {:induction false} EachWordTakesOver(sentences: seq<Sentence>, alignments: seq<seq<nat>>, tokenSpans: seq<nat>,
                                             targetSpans: seq<nat>, k: nat, w: nat)
    requires Taken(sentences, alignments, tokenSpans, targetSpans) && k < |sentences| && w < |sentences[k].words|
    ensures WordTakesOver(sentences, alignments, tokenSpans, targetSpans, k, w)
  {
    WordCopied(sentences, alignments, tokenSpans, targetSpans, k, w);
    var sources, targets := SourceCounts(sentences), TargetCounts(sentences);
    OffsetsCount(sentences, |sentences|);
    OffsetsCount(sentences, k);
    SlotsOfSentence(sources, k);
    SlotsOfSentence(targets, k);
    var i, j := TargetOffset(sentences, k) + 1 + w, SourceOffset(sentences, k) + 1 + alignments[k][w];
    assert Slots(targets)[i] == Word(k, w) && Slots(sources)[j] == Word(k, alignments[k][w]);
  }

  /** The tags a sentence is aligned by are those of its own source words. */
  lemma {:induction false} AlignedByOwnTags(spans: seq<Span>, sentences: seq<Sentence>, tokenSpans: seq<nat>, k: nat,
                                            w: nat)
    requires Tokenised(spans, sentences, tokenSpans) && k < |sentences| && w < sentences[k].sourceWords
    ensures SourceOffset(sentences, k) + sentences[k].sourceWords < |tokenSpans|
    ensures var stacks := StacksAt(spans, tokenSpans, SourceOffset(sentences, k) + 1, sentences[k].sourceWords);
            exists j: nat :: j < |SourceSlots(sentences)| && j < |tokenSpans| && SourceSlots(sentences)[j] == Word(k, w)
                && stacks[w] == spans[tokenSpans[j]].tags
  {
    OffsetsFit(sentences, k);
    OffsetsCount(sentences, k);
    SlotsOfSentence(SourceCounts(sentences), k);
    assert SourceSlots(sentences)[SourceOffset(sentences, k) + 1 + w] == Word(k, w);
  }
}
