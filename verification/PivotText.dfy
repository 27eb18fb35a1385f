/** The words that were recorded in the pivot text tile its sentences, as moving alignments through it asks for. */
module PivotText {
  import opened Basics
  import opened Annotation
  import opened TextProcessing
  import opened Pivot

  /** Where the first `n` words of sentence `i` stand. */
  ghost function WordRanges(a: Annotated, i: nat, n: nat): (rs: seq<ByteRange>)
    requires a.Valid() && i < a.NumSentences() && n <= |a.SentenceAt(i)|
    ensures |rs| == n && forall w :: 0 <= w < n ==> rs[w] == RangeOf(a.pieces, WordIndex(a, i, w))
  {
    if n == 0 then [] else WordRanges(a, i, n - 1) + [RangeOf(a.pieces, WordIndex(a, i, n - 1))]
  }

  ghost function AllWords(a: Annotated, i: nat): seq<ByteRange>
    requires a.Valid() && i < a.NumSentences()
  {
    WordRanges(a, i, |a.SentenceAt(i)|)
  }

  /** A sentence of which at most the last word, its end, is empty. */
  ghost predicate Worded(words: seq<string>) { words != [] && forall w :: 0 <= w < |words| - 1 ==> words[w] != "" }

  /** A word ends where the next one begins, or the last one where the sentence does. */
  lemma WordStands(a: Annotated, i: nat, w: nat)
    requires a.Valid() && i < a.NumSentences() && w < |a.SentenceAt(i)|
    ensures var rs := AllWords(a, i);
            && |rs| == |a.SentenceAt(i)| && rs[w].end == rs[w].begin + |a.SentenceAt(i)[w]|
            && rs[w].end == Start(rs, w + 1, SentenceRange(a, i).end)
  {
    GapIndex(a, i);
    GapIndex(a, i + 1);
    assert AllWords(a, i)[w] == RangeOf(a.pieces, WordIndex(a, i, w));
    if w + 1 < |a.SentenceAt(i)| {
      assert AllWords(a, i)[w + 1] == RangeOf(a.pieces, WordIndex(a, i, w + 1));
    }
  }

  lemma FirstWord(a: Annotated, i: nat)
    requires a.Valid() && i < a.NumSentences() && a.SentenceAt(i) != []
    ensures AllWords(a, i) != [] && AllWords(a, i)[0].begin == SentenceRange(a, i).begin
  {
    assert AllWords(a, i)[0] == RangeOf(a.pieces, WordIndex(a, i, 0));
  }

  /** The words tile the sentence; they end empty exactly if the last one is. */
  lemma WordsTile(a: Annotated, i: nat)
    requires a.Valid() && i < a.NumSentences() && Worded(a.SentenceAt(i))
    ensures Tiles(AllWords(a, i), SentenceRange(a, i).begin, SentenceRange(a, i).end)
    ensures EndsEmpty(AllWords(a, i)) <==> a.SentenceAt(i)[|a.SentenceAt(i)| - 1] == ""
  {
    FirstWord(a, i);
    var rs, to := AllWords(a, i), SentenceRange(a, i).end;
    WordStands(a, i, |rs| - 1);
    forall w | 0 <= w < |rs| - 1 ensures rs[w].begin < rs[w].end && rs[w].end == Start(rs, w + 1, to) {
      WordStands(a, i, w);
      assert a.SentenceAt(i)[w] != "";
    }
  }

  /** If the second model's source has the pivot sentence where the first model's target has it, and what it recorded
      there is matched by segments, then alignments of the right shape can be moved through it. */
  lemma ReadyToRemap(first: Annotated, second: Annotated, segments: seq<Segment>, eos: Word, i: nat, p: PivotSentence)
    requires first.Valid() && i < first.NumSentences() && Worded(first.SentenceAt(i))
    requires Matched(second, segments, eos) && i < |segments| && Worded(second.SentenceAt(i))
    requires SentenceRange(second, i) == SentenceRange(first, i)
    requires p.sourceSide == AllWords(first, i) && p.targetSide == AllWords(second, i)
    requires Shaped(p.sourceGivenPivots, |p.sourceSide|, p.sourceWords)
    requires Shaped(p.pivotGivenTargets, |p.pivotGivenTargets|, |p.targetSide|)
    ensures p.Valid()
  {
    assert MatchedAt(second, segments, eos, i);
    WordsTile(first, i);
    WordsTile(second, i);
  }
}
