/** Cutting the tokens of a text into segments for the model, and telling the annotation about them. */
module TextProcessing {
  import opened Basics
  import opened Annotation

  type Word = int
  type Segment = seq<Word>

  /** What the vocabulary makes of a piece of text: word ids and where they stand. */
  datatype Tokens = Tokens(segment: Segment, ranges: seq<ByteRange>)

  /** The tokenizer, as a function of the piece's place in the text. */
  type Tokenizer = ByteRange -> Tokens

  /** Words tile the piece they were found in. */
  ghost predicate Tokenizes(text: string, view: ByteRange, tokens: Tokens) {
    && view.begin <= view.end <= |text| && |tokens.segment| == |tokens.ranges| && Contiguous(text, tokens.ranges)
    && (tokens.ranges != [] ==> tokens.ranges[0].begin == view.begin && EndOf(tokens.ranges, 0) == view.end)
  }

  /** Pieces of the text, in order. */
  ghost predicate InOrder(text: string, views: seq<ByteRange>) {
    && (forall i :: 0 <= i < |views| ==> views[i].begin <= views[i].end <= |text|)
    && (forall i, j :: 0 <= i < j < |views| ==> views[i].end <= views[j].begin)
  }

  /** Segments without the end of sentence each of them was given. */
  function Stripped(segments: seq<Segment>): Segment {
    if segments == [] then []
    else
      var n := |segments| - 1;
      Stripped(segments[..n]) + (if segments[n] == [] then [] else segments[n][..|segments[n]| - 1])
  }

  function Output(tokenize: Tokenizer, views: seq<ByteRange>): Segment {
    if views == [] then [] else Output(tokenize, views[..|views| - 1]) + tokenize(views[|views| - 1]).segment
  }

  ghost predicate TokenizesEach(text: string, tokenize: Tokenizer, views: seq<ByteRange>) {
    forall i :: 0 <= i < |views| ==> Tokenizes(text, views[i], tokenize(views[i]))
  }

  /** The texts of the words that the tokenizer found, in order. */
  ghost function Spoken(text: string, tokenize: Tokenizer, views: seq<ByteRange>): seq<string>
    requires TokenizesEach(text, tokenize, views)
  {
    if views == [] then [] else
      Spoken(text, tokenize, views[..|views| - 1]) + SpokenIn(text, tokenize, views[|views| - 1])
  }

  ghost function SpokenIn(text: string, tokenize: Tokenizer, view: ByteRange): seq<string>
    requires Tokenizes(text, view, tokenize(view))
  {
    Slices(text, tokenize(view).ranges)
  }

  lemma StrippedMore(segments: seq<Segment>, segment: Segment, eos: Word)
    ensures Stripped(segments + [segment + [eos]]) == Stripped(segments) + segment
  {
    assert (segments + [segment + [eos]])[..|segments|] == segments;
    assert (segment + [eos])[..|segment|] == segment;
  }

  /** One segment per sentence, a token per word and the end of sentence. */
  ghost predicate Matched(a: Annotated, segments: seq<Segment>, eos: Word) {
    && a.Valid() && |segments| == a.NumSentences()
    && forall i :: 0 <= i < |segments| ==> MatchedAt(a, segments, eos, i)
  }

  ghost predicate MatchedAt(a: Annotated, segments: seq<Segment>, eos: Word, i: nat)
    requires a.Valid() && i < |segments| == a.NumSentences()
  {
    && segments[i] != [] && |segments[i]| == |a.SentenceAt(i)|
    && segments[i][|segments[i]| - 1] == eos && a.SentenceAt(i)[|segments[i]| - 1] == ""
  }

  ghost predicate NoLonger(segments: seq<Segment>, size: nat) {
    forall i :: 0 <= i < |segments| ==> |segments[i]| <= size
  }

  lemma MatchedRecorded(text: string, a: Annotated, b: nat, tokens: seq<ByteRange>, begin: nat, segments: seq<Segment>,
                        segment: Segment, eos: Word)
    requires Matched(a, segments, eos) && |tokens| == |segment| + 1
    requires Contiguous(text, tokens) && b <= begin <= |text| && begin == tokens[0].begin
    requires tokens[|segment|].begin == tokens[|segment|].end
    ensures Matched(Recorded(text, a, b, tokens, begin), segments + [segment + [eos]], eos)
  {
    RangesInText(text, tokens, begin);
    SlicesAt(text, tokens, |segment|);
    MatchedMore(a, text[b..begin], Slices(text, tokens), text[EndOf(tokens, begin)..], segments, segment, eos);
  }

  lemma MatchedMore(a: Annotated, before: string, tokens: seq<string>, after: string, segments: seq<Segment>,
                    segment: Segment, eos: Word)
    requires Matched(a, segments, eos) && |tokens| == |segment| + 1 && tokens[|segment|] == ""
    ensures Matched(a.Broken(before, tokens, after), segments + [segment + [eos]], eos)
  {
    var b, more := a.Broken(before, tokens, after), segments + [segment + [eos]];
    BrokenValid(a, before, tokens, after);
    forall i | 0 <= i < |more| ensures MatchedAt(b, more, eos, i) {
      if i < |segments| { assert MatchedAt(a, segments, eos, i); }
    }
  }

  /** The words of the first sentences, each sentence without its end. */
  ghost function WordsBefore(a: Annotated, n: nat): seq<string>
    requires a.Valid() && n <= a.NumSentences()
  {
    if n == 0 then [] else WordsBefore(a, n - 1) + WithoutEnd(a.SentenceAt(n - 1))
  }

  function WithoutEnd(sentence: seq<string>): seq<string> {
    if sentence == [] then [] else sentence[..|sentence| - 1]
  }

  /** The recorded sentences are made of these words, in this order. */
  ghost predicate Holds(a: Annotated, words: seq<string>) {
    forall k: nat {:trigger UnfoldHolds(k, a, words)} :: UnfoldHolds(k, a, words) ==> HoldsNow(a, words)
  }

  ghost predicate UnfoldHolds(k: nat, a: Annotated, words: seq<string>) { true }

  ghost predicate HoldsNow(a: Annotated, words: seq<string>) { a.Valid() && WordsBefore(a, a.NumSentences()) == words }

  lemma {:induction false} WordsKept(a: Annotated, b: Annotated, n: nat)
    requires a.Valid() && b.Valid() && n <= a.NumSentences() && n <= b.NumSentences()
    requires forall i {:trigger SameAt(a, b, i)} :: 0 <= i < n ==> SameAt(a, b, i)
    ensures WordsBefore(a, n) == WordsBefore(b, n)
  {
    if n > 0 {
      assert SameAt(a, b, n - 1);
      WordsKept(a, b, n - 1);
    }
  }

  ghost predicate SameAt(a: Annotated, b: Annotated, i: nat)
    requires a.Valid() && b.Valid() && i < a.NumSentences() && i < b.NumSentences()
  {
    b.SentenceAt(i) == a.SentenceAt(i)
  }

  lemma {:induction false} HoldsMore(a: Annotated, before: string, sentence: seq<string>, after: string,
                                     words: seq<string>)
    requires Holds(a, words) && a.Valid()
    ensures Holds(a.Broken(before, sentence, after), words + WithoutEnd(sentence))
  {
    assert UnfoldHolds(0, a, words);
    BrokenSame(a, before, sentence, after);
    WordsKept(a, a.Broken(before, sentence, after), a.NumSentences());
    HoldsLast(a.Broken(before, sentence, after), words, sentence);
  }

  lemma HoldsLast(a: Annotated, words: seq<string>, sentence: seq<string>)
    requires a.Valid() && a.NumSentences() > 0 && a.SentenceAt(a.NumSentences() - 1) == sentence
    requires WordsBefore(a, a.NumSentences() - 1) == words
    ensures Holds(a, words + WithoutEnd(sentence))
  {}

  lemma BrokenSame(a: Annotated, before: string, sentence: seq<string>, after: string)
    requires a.Valid()
    ensures var b, n := a.Broken(before, sentence, after), a.NumSentences();
            && b.Valid() && b.NumSentences() == n + 1 && b.SentenceAt(n) == sentence
            && forall i {:trigger SameAt(a, b, i)} :: 0 <= i < n ==> SameAt(a, b, i)
  {
    BrokenValid(a, before, sentence, after);
  }

  lemma HoldsRecorded(text: string, a: Annotated, b: nat, ranges: seq<ByteRange>, otherwise: nat, begin: nat,
                      words: seq<string>)
    requires Holds(a, words) && a.Valid() && Contiguous(text, ranges) && otherwise <= |text|
    requires b <= begin <= |text| && begin == WithEnd(ranges, otherwise)[0].begin
    ensures Contiguous(text, WithEnd(ranges, otherwise))
    ensures Holds(Recorded(text, a, b, WithEnd(ranges, otherwise), begin), words + Slices(text, ranges))
  {
    WithEndContiguous(text, ranges, otherwise);
    var all := WithEnd(ranges, otherwise);
    RangesInText(text, all, begin);
    HoldsMore(a, text[b..begin], Slices(text, all), text[EndOf(all, begin)..], words);
    assert all[..|ranges|] == ranges;
    assert Slices(text, all)[..|ranges|] == Slices(text, ranges);
  }

  lemma {:induction false} SlicesAt(text: string, ranges: seq<ByteRange>, i: nat)
    requires Contiguous(text, ranges) && i < |ranges|
    ensures Slices(text, ranges)[i] == text[ranges[i].begin..ranges[i].end]
    decreases |ranges|
  {
    ContiguousFront(text, ranges);
    if i < |ranges| - 1 { SlicesAt(text, ranges[..|ranges| - 1], i); }
  }

  lemma SlicesPart(text: string, ranges: seq<ByteRange>, i: nat, j: nat)
    requires Contiguous(text, ranges) && i <= j <= |ranges|
    ensures Contiguous(text, ranges[..i]) && Contiguous(text, ranges[i..j]) && Contiguous(text, ranges[..j])
    ensures Slices(text, ranges[..j]) == Slices(text, ranges[..i]) + Slices(text, ranges[i..j])
  {
    ContiguousPart(text, ranges, 0, i);
    ContiguousPart(text, ranges, i, j);
    ContiguousPart(text, ranges, 0, j);
    assert ranges[..j] == ranges[..i] + ranges[i..j];
    SlicesJoin(text, ranges[..i], ranges[i..j]);
  }

  lemma {:induction false} SlicesJoin(text: string, a: seq<ByteRange>, b: seq<ByteRange>)
    requires Contiguous(text, a) && Contiguous(text, b) && Contiguous(text, a + b)
    ensures Slices(text, a + b) == Slices(text, a) + Slices(text, b)
    decreases |b|
  {
    if b == [] {
      assert a + b == a;
    } else {
      var front, last := b[..|b| - 1], b[|b| - 1];
      assert b == front + [last];
      Associate(a, front, [last]);
      SlicesMore(text, a + front, last);
      SlicesMore(text, front, last);
      SlicesJoin(text, a, front);
      Associate(Slices(text, a), Slices(text, front), [text[last.begin..last.end]]);
    }
  }

  lemma SlicesMore(text: string, front: seq<ByteRange>, last: ByteRange)
    requires Contiguous(text, front + [last])
    ensures Contiguous(text, front) && last.begin <= last.end <= |text|
    ensures Slices(text, front + [last]) == Slices(text, front) + [text[last.begin..last.end]]
  {
    ContiguousFront(text, front + [last]);
    assert (front + [last])[..|front|] == front && (front + [last])[|front|] == last;
  }

  /** Words and, behind the last of them, the empty end of sentence. */
  function WithEnd(ranges: seq<ByteRange>, otherwise: nat): seq<ByteRange> {
    ranges + [ByteRange(EndOf(ranges, otherwise), EndOf(ranges, otherwise))]
  }

  lemma WithEndContiguous(text: string, ranges: seq<ByteRange>, otherwise: nat)
    requires Contiguous(text, ranges) && otherwise <= |text|
    ensures Contiguous(text, WithEnd(ranges, otherwise)) && |WithEnd(ranges, otherwise)| == |ranges| + 1
    ensures EndOf(WithEnd(ranges, otherwise), 0) == EndOf(ranges, otherwise)
  {
    var all := WithEnd(ranges, otherwise);
    forall i | 0 <= i < |all| - 1 ensures all[i].end == BeginOf(all, i + 1) {
      if i + 1 < |ranges| { assert ranges[i].end == BeginOf(ranges, i + 1); }
    }
  }

  lemma ContiguousPart(text: string, ranges: seq<ByteRange>, i: nat, j: nat)
    requires Contiguous(text, ranges) && i <= j <= |ranges|
    ensures Contiguous(text, ranges[i..j])
  {
    var part := ranges[i..j];
    forall k | 0 <= k < |part| - 1 ensures part[k].end == BeginOf(part, k + 1) {
      assert ranges[i + k].end == BeginOf(ranges, i + k + 1);
    }
  }

  lemma {:induction false} ContiguousOrder(text: string, ranges: seq<ByteRange>, i: nat, j: nat)
    requires Contiguous(text, ranges) && i < j < |ranges|
    ensures ranges[i].end <= ranges[j].begin
    decreases j
  {
    assert ranges[j - 1].end == BeginOf(ranges, j);
    if i < j - 1 { ContiguousOrder(text, ranges, i, j - 1); }
  }

  // ---- Parts of a segment ----

  /** A segment cut into as few parts as its words need, `size` being a part's length with its end of sentence: every
      part but the last has `size - 1` words, the last one has the rest. */
  ghost predicate CutInto(segment: Segment, parts: seq<Segment>, eos: Word, size: nat)
    requires size >= 2
  {
    && |segment| <= |parts| * (size - 1) < |segment| + (size - 1)
    && forall k :: 0 <= k < |parts| ==> IsPart(segment, parts[k], eos, size, k)
  }

  ghost predicate IsPart(segment: Segment, part: Segment, eos: Word, size: nat, k: nat)
    requires size >= 2
  {
    var from := k * (size - 1);
    from < |segment| && part == segment[from..Min(from + size - 1, |segment|)] + [eos]
  }

  predicate UnfoldCut(k: nat, segment: Segment, parts: seq<Segment>, offset: nat, eos: Word, size: nat) { true }

  /** The first `offset` words, as far as there are that many, are cut. Unfolds only where `UnfoldCut` is mentioned. */
  ghost predicate CutUpTo(segment: Segment, parts: seq<Segment>, offset: nat, eos: Word, size: nat)
    requires size >= 2
  {
    forall k: nat {:trigger UnfoldCut(k, segment, parts, offset, eos, size)} ::
      UnfoldCut(k, segment, parts, offset, eos, size) ==>
      && offset == |parts| * (size - 1) && (parts != [] ==> offset < |segment| + (size - 1))
      && forall k :: 0 <= k < |parts| ==> IsPart(segment, parts[k], eos, size, k)
  }

  lemma CutNone(segment: Segment, eos: Word, size: nat)
    requires size >= 2
    ensures CutUpTo(segment, [], 0, eos, size)
  {}

  lemma CutMore(segment: Segment, parts: seq<Segment>, offset: nat, eos: Word, size: nat)
    requires size >= 2 && CutUpTo(segment, parts, offset, eos, size) && offset < |segment|
    ensures var diff := Min(size - 1, |segment| - offset);
            CutUpTo(segment, parts + [segment[offset..offset + diff] + [eos]], offset + size - 1, eos, size)
  {
    assert UnfoldCut(0, segment, parts, offset, eos, size);
    assert (|parts| + 1) * (size - 1) == offset + size - 1;
  }

  lemma CutAll(segment: Segment, parts: seq<Segment>, offset: nat, eos: Word, size: nat)
    requires size >= 2 && CutUpTo(segment, parts, offset, eos, size) && offset >= |segment|
    ensures CutInto(segment, parts, eos, size)
  {
    assert UnfoldCut(0, segment, parts, offset, eos, size);
  }

  lemma NextMultiple(k: nat, step: nat)
    ensures (k + 1) * step == k * step + step && (k >= 1 ==> step <= k * step)
  {
    if k >= 1 { assert k * step == (k - 1) * step + step; }
  }

  /** Every part but the last is full, and the last one is not empty. */
  lemma PartLength(segment: Segment, parts: seq<Segment>, eos: Word, size: nat, k: nat)
    requires size >= 2 && CutInto(segment, parts, eos, size) && k < |parts|
    ensures k + 1 < |parts| ==> |parts[k]| == size
    ensures k + 1 == |parts| ==> |parts[k]| == |segment| - k * (size - 1) + 1 && 2 <= |parts[k]| <= size
  {
    NextMultiple(k, size - 1);
    assert IsPart(segment, parts[k], eos, size, k);
    if k + 1 < |parts| { assert IsPart(segment, parts[k + 1], eos, size, k + 1); }
  }

  /** A segment that fits is not cut. */
  lemma FittingIsWhole(segment: Segment, parts: seq<Segment>, eos: Word, size: nat)
    requires size >= 2 && CutInto(segment, parts, eos, size)
    ensures segment == [] ==> parts == []
    ensures 1 <= |segment| < size ==> parts == [segment + [eos]]
  {
    if parts != [] { NextMultiple(|parts| - 1, size - 1); }
    if 1 <= |segment| < size {
      assert |parts| == 1;
      assert IsPart(segment, parts[0], eos, size, 0);
      assert segment[0..|segment|] == segment;
    }
  }

  /** What becomes of the tokens of each piece of text. */
  ghost predicate CutEach(tokenize: Tokenizer, views: seq<ByteRange>, n: nat, parts: seq<seq<Segment>>, eos: Word,
                          size: nat)
    requires size >= 2 && n <= |views|
  {
    |parts| == n && forall i :: 0 <= i < n ==> CutInto(tokenize(views[i]).segment, parts[i], eos, size)
  }

  predicate UnfoldCutEach(k: nat, tokenize: Tokenizer, views: seq<ByteRange>, n: nat, parts: seq<seq<Segment>>,
                          segments: seq<Segment>, eos: Word, size: nat)
  { true }

  /** The segments so far are the parts of the tokens of the first `n` pieces. Unfolds only where `UnfoldCutEach` is
      mentioned. */
  ghost predicate CutSoFar(tokenize: Tokenizer, views: seq<ByteRange>, n: nat, parts: seq<seq<Segment>>,
                           segments: seq<Segment>, eos: Word, size: nat)
    requires size >= 2 && n <= |views|
  {
    forall k: nat {:trigger UnfoldCutEach(k, tokenize, views, n, parts, segments, eos, size)} ::
      UnfoldCutEach(k, tokenize, views, n, parts, segments, eos, size) ==>
      segments == Join(parts) && CutEach(tokenize, views, n, parts, eos, size)
  }

  lemma CutSoFarMore(tokenize: Tokenizer, views: seq<ByteRange>, n: nat, parts: seq<seq<Segment>>,
                     segments: seq<Segment>, more: seq<Segment>, eos: Word, size: nat)
    requires size >= 2 && n < |views| && CutSoFar(tokenize, views, n, parts, segments, eos, size)
    requires |segments| <= |more| && more[..|segments|] == segments
    requires CutInto(tokenize(views[n]).segment, more[|segments|..], eos, size)
    ensures CutSoFar(tokenize, views, n + 1, parts + [more[|segments|..]], more, eos, size)
  {
    assert UnfoldCutEach(0, tokenize, views, n, parts, segments, eos, size);
    JoinMore(parts, more[|segments|..]);
    assert more == segments + more[|segments|..];
  }

  function FirstBegin(ranges: seq<ByteRange>, otherwise: nat): nat {
    if ranges == [] then otherwise else ranges[0].begin
  }

  class TextProcessor {
    const maxLengthBreak: nat
    const eos: Word

    /** With no room for a word beside the end of sentence, wrapping would not get on. */
    constructor (maxLengthBreak: nat, eos: Word)
      ensures this.maxLengthBreak == maxLengthBreak && this.eos == eos
    {
      this.maxLengthBreak, this.eos := maxLengthBreak, eos;
    }

    /** Records words and an end of sentence behind them as the next sentence. */
    method RecordWithEnd(source: AnnotatedText, ranges: seq<ByteRange>, view: ByteRange, ghost segments: seq<Segment>,
                         ghost segment: Segment, ghost words: seq<string>)
      requires source.Valid() && Tokenizes(source.text, view, Tokens(segment, ranges))
      requires source.LastGapBegin() <= view.begin && Matched(source.state, segments, eos) && Holds(source.state, words)
      modifies source`tokenBegin, source`gap, source`state
      ensures source.Valid() && source.LastGapBegin() == view.end
      ensures Matched(source.state, segments + [segment + [eos]], eos)
      ensures Holds(source.state, words + Slices(source.text, ranges))
      ensures RangeAdded(old(source.state), source.state, ByteRange(FirstBegin(ranges, view.end), view.end))
    {
      WithEndContiguous(source.text, ranges, view.end);
      var end := if ranges != [] then ranges[|ranges| - 1].end else view.end;
      var all := ranges + [ByteRange(end, end)];
      MatchedRecorded(source.text, source.state, source.LastGapBegin(), all, all[0].begin, segments, segment, eos);
      HoldsRecorded(source.text, source.state, source.LastGapBegin(), ranges, view.end, all[0].begin, words);
      RecordedRange(source.text, source.state, source.LastGapBegin(), all, all[0].begin);
      source.RecordExistingSentence(all, all[0].begin);
    }

    /** Cuts a segment into parts that leave room for their end of sentence. */
    method Wrap(segment: Segment, ranges: seq<ByteRange>, segments: seq<Segment>, source: AnnotatedText,
                ghost words: seq<string>)
      returns (wrapped: seq<Segment>)
      requires maxLengthBreak >= 2 && source.Valid() && |segment| == |ranges| && Contiguous(source.text, ranges)
      requires ranges != [] ==> source.LastGapBegin() <= ranges[0].begin
      requires Matched(source.state, segments, eos) && NoLonger(segments, maxLengthBreak) && Holds(source.state, words)
      modifies source`tokenBegin, source`gap, source`state
      ensures source.Valid() && Matched(source.state, wrapped, eos) && NoLonger(wrapped, maxLengthBreak)
      ensures Stripped(wrapped) == Stripped(segments) + segment
      ensures Holds(source.state, words + Slices(source.text, ranges))
      ensures source.LastGapBegin() == EndOf(ranges, old(source.LastGapBegin()))
      ensures |segments| <= |wrapped| && wrapped[..|segments|] == segments
      ensures CutInto(segment, wrapped[|segments|..], eos, maxLengthBreak)
    {
      ghost var start := source.LastGapBegin();
      WrappingNone(source.state, segments, segment, ranges, eos, maxLengthBreak);
      SayingNone(source.text, source.state, words, ranges);
      wrapped := WrapParts(segment, ranges, segments, source, words, start);
      SayingAll(source.text, source.state, words, ranges);
      WrappingAll(source.state, segments, segment, ranges, wrapped, eos, maxLengthBreak);
      assert ranges[..|ranges|] == ranges;
    }

    method WrapParts(segment: Segment, ranges: seq<ByteRange>, segments: seq<Segment>, source: AnnotatedText,
                     ghost words: seq<string>, ghost start: nat)
      returns (wrapped: seq<Segment>)
      requires maxLengthBreak >= 2 && source.Valid() && |segment| == |ranges| && Contiguous(source.text, ranges)
      requires source.LastGapBegin() == start && (ranges != [] ==> start <= ranges[0].begin)
      requires Wrapping(source.state, segments, segment, ranges, 0, segments, eos, maxLengthBreak)
      requires Saying(source.text, source.state, words, ranges, 0)
      modifies source`tokenBegin, source`gap, source`state
      ensures source.Valid() && source.LastGapBegin() == EndOf(ranges[..|ranges|], start)
      ensures Wrapping(source.state, segments, segment, ranges, |segment|, wrapped, eos, maxLengthBreak)
      ensures Saying(source.text, source.state, words, ranges, |ranges|)
      ensures |segments| <= |wrapped| && wrapped[..|segments|] == segments
      ensures CutInto(segment, wrapped[|segments|..], eos, maxLengthBreak)
    {
      var wrapStep := maxLengthBreak - 1;
      wrapped := segments;
      var offset := 0;
      ghost var done, parts: seq<Segment> := 0, [];
      CutNone(segment, eos, maxLengthBreak);
      while offset < |segment|
        invariant 0 <= offset && done == Min(offset, |segment|) && source.Valid()
        invariant Wrapping(source.state, segments, segment, ranges, done, wrapped, eos, maxLengthBreak)
        invariant source.LastGapBegin() == EndOf(ranges[..done], start)
        invariant Saying(source.text, source.state, words, ranges, done)
        invariant wrapped == segments + parts && CutUpTo(segment, parts, offset, eos, maxLengthBreak)
        decreases |segment| - offset
      {
        var left := |segment| - offset;
        var diff := Min(wrapStep, left);
        CutMore(segment, parts, offset, eos, maxLengthBreak);
        parts := parts + [segment[offset..offset + diff] + [eos]];
        wrapped := WrapPart(segment, ranges, offset, diff, wrapped, source, segments, words, start);
        offset := offset + wrapStep;
        done := Min(offset, |segment|);
      }
      CutAll(segment, parts, offset, eos, maxLengthBreak);
      assert wrapped[|segments|..] == parts;
    }

    method WrapPart(segment: Segment, ranges: seq<ByteRange>, offset: nat, diff: nat, wrapped: seq<Segment>,
                    source: AnnotatedText, ghost segments: seq<Segment>, ghost words: seq<string>, ghost start: nat)
      returns (wrapped': seq<Segment>)
      requires source.Valid() && |segment| == |ranges| && Contiguous(source.text, ranges)
      requires 0 < diff < maxLengthBreak && offset + diff <= |segment|
      requires start <= ranges[0].begin && source.LastGapBegin() == EndOf(ranges[..offset], start)
      requires Wrapping(source.state, segments, segment, ranges, offset, wrapped, eos, maxLengthBreak)
      requires Saying(source.text, source.state, words, ranges, offset)
      modifies source`tokenBegin, source`gap, source`state
      ensures source.Valid() && source.LastGapBegin() == EndOf(ranges[..offset + diff], start)
      ensures Wrapping(source.state, segments, segment, ranges, offset + diff, wrapped', eos, maxLengthBreak)
      ensures Saying(source.text, source.state, words, ranges, offset + diff)
      ensures wrapped' == wrapped + [segment[offset..offset + diff] + [eos]]
    {
      LastBefore(source.text, ranges, offset, start);
      PartTokenizes(source.text, segment, ranges, offset, diff);
      assert UnfoldSaying(0, source.text, source.state, words, ranges, offset);
      assert UnfoldWrapping(0, source.state, segments, segment, ranges, offset, wrapped, eos, maxLengthBreak);
      var part := segment[offset..offset + diff];
      var view := ByteRange(ranges[offset].begin, ranges[offset + diff - 1].end);
      RecordWithEnd(source, ranges[offset..offset + diff], view, wrapped, part,
                    words + Slices(source.text, ranges[..offset]));
      SayingMore(source.text, source.state, words, ranges, offset, diff);
      WrappingMore(source.state, segments, segment, ranges, offset, diff, wrapped, eos, maxLengthBreak);
      wrapped' := wrapped + [part + [eos]];
    }

    /** Tokenizes and wraps all sentences. The text stays; each segment is a recorded sentence of at most the length
        allowed, and together, without their ends, they are what the tokenizer put out. */
    method Process(input: string, views: seq<ByteRange>, tokenize: Tokenizer)
      returns (source: AnnotatedText, segments: seq<Segment>, ghost parts: seq<seq<Segment>>)
      requires maxLengthBreak >= 2 && InOrder(input, views)
      requires TokenizesEach(input, tokenize, views)
      ensures fresh(source) && source.Valid() && source.text == input
      ensures Matched(source.state, segments, eos) && NoLonger(segments, maxLengthBreak)
      ensures Stripped(segments) == Output(tokenize, views) && Holds(source.state, Spoken(input, tokenize, views))
      ensures segments == Join(parts) && CutEach(tokenize, views, |views|, parts, eos, maxLengthBreak)
    {
      source := new AnnotatedText.FromText(input);
      segments, parts := [], [];
      for i := 0 to |views|
        invariant fresh(source) && source.Valid() && source.text == input
        invariant Matched(source.state, segments, eos) && NoLonger(segments, maxLengthBreak)
        invariant Stripped(segments) == Output(tokenize, views[..i])
        invariant Holds(source.state, Spoken(input, tokenize, views[..i]))
        invariant source.LastGapBegin() <= if i == 0 then 0 else views[i - 1].end
        invariant CutSoFar(tokenize, views, i, parts, segments, eos, maxLengthBreak)
      {
        ghost var before := segments;
        var tokens := tokenize(views[i]);
        assert views[..i + 1][..i] == views[..i];
        assert i > 0 ==> views[i - 1].end <= views[i].begin;
        if |tokens.segment| > 0 {
          segments := Wrap(tokens.segment, tokens.ranges, segments, source, Spoken(input, tokenize, views[..i]));
        } else {
          assert Output(tokenize, views[..i]) + tokens.segment == Output(tokenize, views[..i]);
          assert Spoken(input, tokenize, views[..i]) + SpokenIn(input, tokenize, views[i])
                 == Spoken(input, tokenize, views[..i]);
        }
        CutSoFarMore(tokenize, views, i, parts, before, segments, eos, maxLengthBreak);
        parts := parts + [segments[|before|..]];
      }
      assert views[..|views|] == views;
      assert UnfoldCutEach(0, tokenize, views, |views|, parts, segments, eos, maxLengthBreak);
    }

    /** Tokenizes the sentences of an annotation again: their number stays, even where there are no words. */
    method ProcessFromAnnotation(source: AnnotatedText, tokenize: Tokenizer)
      returns (replacement: AnnotatedText, segments: seq<Segment>)
      requires source.Valid() && TokenizesAll(source.text, tokenize)
      ensures fresh(replacement) && replacement.Valid() && replacement.text == source.text
      ensures |segments| == source.NumSentences() && Matched(replacement.state, segments, eos)
      ensures forall i :: 0 <= i < |segments| ==>
              segments[i] == tokenize(SentenceRange(source.state, i)).segment + [eos]
      ensures Holds(replacement.state, SpokenAgain(source.text, tokenize, source.state, source.NumSentences()))
      ensures StaysPut(source.state, replacement.state, tokenize, source.NumSentences())
    {
      replacement := new AnnotatedText.FromText(source.text);
      segments := [];
      for s := 0 to source.NumSentences()
        invariant fresh(replacement) && replacement.Valid() && replacement.text == source.text
        invariant Again(source.text, source.state, replacement.state, tokenize, segments, eos, s)
        invariant replacement.LastGapBegin() <= EndBefore(source.state, s)
      {
        if s > 0 { SentencesInOrder(source.state, s - 1); }
        segments := ProcessSentence(source, replacement, tokenize, s, segments);
      }
      assert UnfoldAgain(0, source.text, source.state, replacement.state, tokenize, segments, eos,
                         source.NumSentences());
    }

    method ProcessSentence(source: AnnotatedText, replacement: AnnotatedText, tokenize: Tokenizer, s: nat,
                           segments: seq<Segment>)
      returns (segments': seq<Segment>)
      requires source.Valid() && replacement.Valid() && source != replacement && replacement.text == source.text
      requires s < source.NumSentences() && TokenizesAll(source.text, tokenize)
      requires replacement.LastGapBegin() <= SentenceRange(source.state, s).begin
      requires Again(source.text, source.state, replacement.state, tokenize, segments, eos, s)
      modifies replacement`tokenBegin, replacement`gap, replacement`state
      ensures replacement.Valid() && replacement.LastGapBegin() == SentenceRange(source.state, s).end
      ensures Again(source.text, source.state, replacement.state, tokenize, segments', eos, s + 1)
    {
      ghost var was := replacement.state;
      var view := source.Sentence(s);
      var tokens := tokenize(view);
      AgainHere(source.text, source.state, was, tokenize, segments, eos, s);
      RecordWithEnd(replacement, tokens.ranges, view, segments, tokens.segment,
                    SpokenAgain(source.text, tokenize, source.state, s));
      AgainMore(source.text, source.state, was, tokenize, segments, eos, s, replacement.state);
      segments' := segments + [tokens.segment + [eos]];
    }
  }

  predicate UnfoldAgain(k: nat, text: string, a: Annotated, b: Annotated, tokenize: Tokenizer, segments: seq<Segment>,
                        eos: Word, n: nat)
  { true }

  /** The first `n` sentences have been tokenized again. Unfolds only where `UnfoldAgain` is mentioned. */
  ghost predicate Again(text: string, a: Annotated, b: Annotated, tokenize: Tokenizer, segments: seq<Segment>,
                        eos: Word, n: nat)
    requires a.Valid() && n <= a.NumSentences() && text == Join(a.pieces) && TokenizesAll(text, tokenize)
  {
    forall k: nat {:trigger UnfoldAgain(k, text, a, b, tokenize, segments, eos, n)} ::
      UnfoldAgain(k, text, a, b, tokenize, segments, eos, n) ==>
      && Matched(b, segments, eos) && Retokenized(a, tokenize, segments, eos, n)
      && Holds(b, SpokenAgain(text, tokenize, a, n)) && StaysPut(a, b, tokenize, n)
  }

  lemma AgainHere(text: string, a: Annotated, b: Annotated, tokenize: Tokenizer, segments: seq<Segment>, eos: Word,
                  s: nat)
    requires a.Valid() && s < a.NumSentences() && text == Join(a.pieces) && TokenizesAll(text, tokenize)
    requires Again(text, a, b, tokenize, segments, eos, s)
    ensures Matched(b, segments, eos) && Holds(b, SpokenAgain(text, tokenize, a, s))
    ensures Tokenizes(text, SentenceRange(a, s), tokenize(SentenceRange(a, s)))
  {
    assert UnfoldAgain(0, text, a, b, tokenize, segments, eos, s);
    SpokenNext(a, text, tokenize, s);
  }

  lemma AgainMore(text: string, a: Annotated, b: Annotated, tokenize: Tokenizer, segments: seq<Segment>, eos: Word,
                  s: nat, b': Annotated)
    requires a.Valid() && s < a.NumSentences() && text == Join(a.pieces) && TokenizesAll(text, tokenize)
    requires Again(text, a, b, tokenize, segments, eos, s)
    requires var view := SentenceRange(a, s);
             && Tokenizes(text, view, tokenize(view))
             && Matched(b', segments + [tokenize(view).segment + [eos]], eos)
             && Holds(b', SpokenAgain(text, tokenize, a, s) + Slices(text, tokenize(view).ranges))
             && RangeAdded(b, b', ByteRange(FirstBegin(tokenize(view).ranges, view.end), view.end))
    ensures Again(text, a, b', tokenize, segments + [tokenize(SentenceRange(a, s)).segment + [eos]], eos, s + 1)
  {
    assert UnfoldAgain(0, text, a, b, tokenize, segments, eos, s);
    var view := SentenceRange(a, s);
    SpokenNext(a, text, tokenize, s);
    RetokenizedMore(a, tokenize, segments, eos, s);
    StaysPutMore(a, b, tokenize, s, b', ByteRange(FirstBegin(tokenize(view).ranges, view.end), view.end));
  }

  /** Where the sentence before sentence `n` ends. */
  ghost function EndBefore(a: Annotated, n: nat): nat
    requires a.Valid() && n <= a.NumSentences()
  {
    if n == 0 then 0 else SentenceRange(a, n - 1).end
  }

  /** The first `done` words of a segment have been wrapped, behind the segments there were before. */
  ghost predicate Wrapping(a: Annotated, segments: seq<Segment>, segment: Segment, ranges: seq<ByteRange>, done: nat,
                           wrapped: seq<Segment>, eos: Word, size: nat) {
    forall k: nat {:trigger UnfoldWrapping(k, a, segments, segment, ranges, done, wrapped, eos, size)} ::
      UnfoldWrapping(k, a, segments, segment, ranges, done, wrapped, eos, size) ==>
        WrappingNow(a, segments, segment, ranges, done, wrapped, eos, size)
  }

  ghost predicate UnfoldWrapping(k: nat, a: Annotated, segments: seq<Segment>, segment: Segment,
                                 ranges: seq<ByteRange>, done: nat,
                                 wrapped: seq<Segment>, eos: Word, size: nat) { true }

  ghost predicate WrappingNow(a: Annotated, segments: seq<Segment>, segment: Segment, ranges: seq<ByteRange>, done: nat,
                              wrapped: seq<Segment>, eos: Word, size: nat) {
    && done <= |segment| == |ranges| && Matched(a, wrapped, eos) && NoLonger(wrapped, size)
    && Stripped(wrapped) == Stripped(segments) + segment[..done]
  }

  lemma WrappingNone(a: Annotated, segments: seq<Segment>, segment: Segment, ranges: seq<ByteRange>, eos: Word,
                     size: nat)
    requires Matched(a, segments, eos) && NoLonger(segments, size) && |segment| == |ranges|
    ensures Wrapping(a, segments, segment, ranges, 0, segments, eos, size)
  {
    assert Stripped(segments) + segment[..0] == Stripped(segments);
  }

  lemma WrappingAll(a: Annotated, segments: seq<Segment>, segment: Segment, ranges: seq<ByteRange>,
                    wrapped: seq<Segment>, eos: Word, size: nat)
    requires Wrapping(a, segments, segment, ranges, |segment|, wrapped, eos, size)
    ensures Matched(a, wrapped, eos) && NoLonger(wrapped, size) && Stripped(wrapped) == Stripped(segments) + segment
  {
    assert UnfoldWrapping(0, a, segments, segment, ranges, |segment|, wrapped, eos, size);
    assert segment[..|segment|] == segment;
  }

  lemma WrappingMore(a: Annotated, segments: seq<Segment>, segment: Segment, ranges: seq<ByteRange>, offset: nat,
                     diff: nat, wrapped: seq<Segment>, eos: Word, size: nat)
    requires offset + diff <= |segment| == |ranges| && 0 < diff < size && NoLonger(wrapped, size)
    requires Stripped(wrapped) == Stripped(segments) + segment[..offset]
    requires Matched(a, wrapped + [segment[offset..offset + diff] + [eos]], eos)
    ensures Wrapping(a, segments, segment, ranges, offset + diff, wrapped + [segment[offset..offset + diff] + [eos]],
                     eos, size)
  {
    StrippedMore(wrapped, segment[offset..offset + diff], eos);
    JoinParts(Stripped(segments), segment, offset, diff);
  }

  ghost predicate TokenizesAll(text: string, tokenize: Tokenizer) {
    forall view: ByteRange :: view.begin <= view.end <= |text| ==> Tokenizes(text, view, tokenize(view))
  }

  ghost function SpokenAgain(text: string, tokenize: Tokenizer, a: Annotated, n: nat): seq<string>
    requires a.Valid() && n <= a.NumSentences() && text == Join(a.pieces) && TokenizesAll(text, tokenize)
  {
    if n == 0 then []
    else
      SentenceInText(a, n - 1);
      SpokenAgain(text, tokenize, a, n - 1) + SpokenIn(text, tokenize, SentenceRange(a, n - 1))
  }

  lemma SentenceInText(a: Annotated, i: nat)
    requires a.Valid() && i < a.NumSentences()
    ensures SentenceRange(a, i).begin <= SentenceRange(a, i).end <= |Join(a.pieces)|
  {
    GapIndex(a, i);
    GapIndex(a, i + 1);
    OffsetMonotone(a.pieces, a.gap[i] + 1, a.gap[i + 1]);
    OffsetMonotone(a.pieces, a.gap[i + 1], |a.pieces|);
    OffsetEnd(a.pieces);
  }

  lemma SpokenNext(a: Annotated, text: string, tokenize: Tokenizer, s: nat)
    requires a.Valid() && s < a.NumSentences() && text == Join(a.pieces) && TokenizesAll(text, tokenize)
    ensures Tokenizes(text, SentenceRange(a, s), tokenize(SentenceRange(a, s)))
    ensures SpokenAgain(text, tokenize, a, s + 1)
            == SpokenAgain(text, tokenize, a, s) + Slices(text, tokenize(SentenceRange(a, s)).ranges)
  {
    SentenceInText(a, s);
  }

  lemma RetokenizedMore(a: Annotated, tokenize: Tokenizer, segments: seq<Segment>, eos: Word, s: nat)
    requires Retokenized(a, tokenize, segments, eos, s) && s < a.NumSentences()
    ensures Retokenized(a, tokenize, segments + [tokenize(SentenceRange(a, s)).segment + [eos]], eos, s + 1)
  {}

  ghost predicate Retokenized(a: Annotated, tokenize: Tokenizer, segments: seq<Segment>, eos: Word, n: nat) {
    && a.Valid() && |segments| == n <= a.NumSentences()
    && forall i :: 0 <= i < n ==> segments[i] == tokenize(SentenceRange(a, i)).segment + [eos]
  }

  ghost predicate Saying(text: string, a: Annotated, words: seq<string>, ranges: seq<ByteRange>, done: nat) {
    forall k: nat {:trigger UnfoldSaying(k, text, a, words, ranges, done)} ::
      UnfoldSaying(k, text, a, words, ranges, done) ==> SayingNow(text, a, words, ranges, done)
  }

  ghost predicate UnfoldSaying(k: nat, text: string, a: Annotated, words: seq<string>, ranges: seq<ByteRange>,
                               done: nat) { true }

  ghost predicate SayingNow(text: string, a: Annotated, words: seq<string>, ranges: seq<ByteRange>, done: nat) {
    done <= |ranges| && Contiguous(text, ranges[..done]) && Holds(a, words + Slices(text, ranges[..done]))
  }

  lemma SayingMore(text: string, a: Annotated, words: seq<string>, ranges: seq<ByteRange>, offset: nat, diff: nat)
    requires Contiguous(text, ranges) && offset + diff <= |ranges|
    requires Contiguous(text, ranges[..offset]) && Contiguous(text, ranges[offset..offset + diff])
    requires Holds(a, (words + Slices(text, ranges[..offset])) + Slices(text, ranges[offset..offset + diff]))
    ensures Saying(text, a, words, ranges, offset + diff)
  {
    SlicesPart(text, ranges, offset, offset + diff);
    Associate(words, Slices(text, ranges[..offset]), Slices(text, ranges[offset..offset + diff]));
  }

  lemma SayingNone(text: string, a: Annotated, words: seq<string>, ranges: seq<ByteRange>)
    requires Holds(a, words)
    ensures Saying(text, a, words, ranges, 0)
  {
    assert words + Slices(text, ranges[..0]) == words;
  }

  lemma SayingAll(text: string, a: Annotated, words: seq<string>, ranges: seq<ByteRange>)
    requires Saying(text, a, words, ranges, |ranges|) && Contiguous(text, ranges)
    ensures Holds(a, words + Slices(text, ranges))
  {
    assert UnfoldSaying(0, text, a, words, ranges, |ranges|);
    assert ranges[..|ranges|] == ranges;
  }

  lemma PartTokenizes(text: string, segment: Segment, ranges: seq<ByteRange>, offset: nat, diff: nat)
    requires |segment| == |ranges| && Contiguous(text, ranges) && 0 < diff && offset + diff <= |ranges|
    ensures Tokenizes(text, ByteRange(ranges[offset].begin, ranges[offset + diff - 1].end),
                      Tokens(segment[offset..offset + diff], ranges[offset..offset + diff]))
  {
    ContiguousPart(text, ranges, offset, offset + diff);
    RangeOrder(text, ranges, offset, offset + diff - 1);
    PartEnds(ranges, offset, diff);
    WordsTokenize(text, ByteRange(ranges[offset].begin, ranges[offset + diff - 1].end), segment[offset..offset + diff],
                  ranges[offset..offset + diff]);
  }

  lemma PartEnds(ranges: seq<ByteRange>, offset: nat, diff: nat)
    requires 0 < diff && offset + diff <= |ranges|
    ensures var part := ranges[offset..offset + diff];
            |part| == diff && part[0] == ranges[offset] && part[diff - 1] == ranges[offset + diff - 1]
  {}

  lemma WordsTokenize(text: string, view: ByteRange, segment: Segment, ranges: seq<ByteRange>)
    requires view.begin <= view.end <= |text| && |segment| == |ranges| > 0 && Contiguous(text, ranges)
    requires ranges[0].begin == view.begin && ranges[|ranges| - 1].end == view.end
    ensures Tokenizes(text, view, Tokens(segment, ranges))
  {}

  lemma RangeOrder(text: string, ranges: seq<ByteRange>, i: nat, j: nat)
    requires Contiguous(text, ranges) && i <= j < |ranges|
    ensures ranges[i].begin <= ranges[j].end <= |text|
  {
    if i < j { ContiguousOrder(text, ranges, i, j); }
  }

  lemma LastBefore(text: string, ranges: seq<ByteRange>, offset: nat, start: nat)
    requires Contiguous(text, ranges) && offset < |ranges| && start <= ranges[0].begin
    ensures EndOf(ranges[..offset], start) <= ranges[offset].begin
  {
    if offset > 0 { ContiguousOrder(text, ranges, offset - 1, offset); }
  }

  lemma JoinParts(before: Segment, segment: Segment, offset: nat, diff: nat)
    requires offset + diff <= |segment|
    ensures (before + segment[..offset]) + segment[offset..offset + diff] == before + segment[..offset + diff]
  {}

  ghost function SentenceRange(a: Annotated, i: nat): ByteRange
    requires a.Valid() && i < a.NumSentences()
  {
    GapIndex(a, i);
    GapIndex(a, i + 1);
    RangeBetween(a.pieces, a.gap[i] + 1, a.gap[i + 1])
  }

  /** From where one piece begins to where another one does. */
  ghost function RangeBetween(pieces: seq<string>, first: nat, next: nat): ByteRange
    requires first <= |pieces| && next <= |pieces|
  {
    ByteRange(Offset(pieces, first), Offset(pieces, next))
  }

  predicate UnfoldRangeAdded(k: nat, a: Annotated, b: Annotated, range: ByteRange) { true }

  /** `b` has one more sentence than `a`, which stands at `range`, and the others where `a` has them. Unfolds only where
      `UnfoldRangeAdded` is mentioned. */
  ghost predicate RangeAdded(a: Annotated, b: Annotated, range: ByteRange) {
    forall k: nat {:trigger UnfoldRangeAdded(k, a, b, range)} :: UnfoldRangeAdded(k, a, b, range) ==>
      && a.Valid() && b.Valid() && b.NumSentences() == a.NumSentences() + 1
      && SentenceRange(b, a.NumSentences()) == range
      && forall i :: 0 <= i < a.NumSentences() ==> SentenceRange(b, i) == SentenceRange(a, i)
  }

  lemma {:induction false} RecordedRange(text: string, a: Annotated, b: nat, tokens: seq<ByteRange>, begin: nat)
    requires a.Valid() && text == Join(a.pieces) && b == Offset(a.pieces, |a.pieces| - 1)
    requires Contiguous(text, tokens) && b <= begin <= |text| && (tokens != [] ==> tokens[0].begin == begin)
    ensures RangeAdded(a, Recorded(text, a, b, tokens, begin), ByteRange(begin, EndOf(tokens, begin)))
  {
    RecordedIs(text, a, b, tokens, begin);
    SlicesLength(text, tokens, begin);
    BrokenRanges(a, text[b..begin], Slices(text, tokens), text[EndOf(tokens, begin)..]);
  }

  lemma SlicesLength(text: string, tokens: seq<ByteRange>, begin: nat)
    requires Contiguous(text, tokens) && begin <= |text| && (tokens != [] ==> tokens[0].begin == begin)
    ensures Offset(Slices(text, tokens), |tokens|) == EndOf(tokens, begin) - begin
  {
    RangesInText(text, tokens, begin);
    OffsetEnd(Slices(text, tokens));
  }

  lemma BrokenRanges(a: Annotated, before: string, tokens: seq<string>, after: string)
    requires a.Valid()
    ensures var begin := Offset(a.pieces, |a.pieces| - 1) + |before|;
            RangeAdded(a, a.Broken(before, tokens, after), ByteRange(begin, begin + Offset(tokens, |tokens|)))
  {
    var b, n := a.Broken(before, tokens, after), a.NumSentences();
    BrokenSame(a, before, tokens, after);
    NewRange(a, before, tokens, after);
    LastRange(a, before, tokens, after);
    forall i | 0 <= i < n ensures SentenceRange(b, i) == SentenceRange(a, i) {
      EarlierRange(a, before, tokens, after, i);
    }
  }

  lemma LastRange(a: Annotated, before: string, tokens: seq<string>, after: string)
    requires a.Valid() && a.Broken(before, tokens, after).Valid()
    ensures var b := a.Broken(before, tokens, after);
            && b.NumSentences() == a.NumSentences() + 1 && |a.pieces| + |tokens| < |b.pieces|
            && SentenceRange(b, a.NumSentences()) == RangeBetween(b.pieces, |a.pieces|, |a.pieces| + |tokens|)
  {}

  lemma EarlierRange(a: Annotated, before: string, tokens: seq<string>, after: string, i: nat)
    requires a.Valid() && a.Broken(before, tokens, after).Valid() && i < a.NumSentences()
    ensures SentenceRange(a.Broken(before, tokens, after), i) == SentenceRange(a, i)
  {
    GapIndex(a, i);
    GapIndex(a, i + 1);
    OldRange(a, before, tokens, after, a.gap[i] + 1, a.gap[i + 1]);
  }

  lemma NewRange(a: Annotated, before: string, tokens: seq<string>, after: string)
    requires a.pieces != []
    ensures var pieces, base := a.Broken(before, tokens, after).pieces, Offset(a.pieces, |a.pieces| - 1) + |before|;
            && |pieces| == |a.pieces| + |tokens| + 1
            && RangeBetween(pieces, |a.pieces|, |a.pieces| + |tokens|)
               == ByteRange(base, base + Offset(tokens, |tokens|))
  {
    BrokenBack(a, before, tokens, after, 0);
    BrokenBack(a, before, tokens, after, |tokens|);
  }

  lemma OldRange(a: Annotated, before: string, tokens: seq<string>, after: string, first: nat, next: nat)
    requires first < |a.pieces| && next < |a.pieces|
    ensures |a.Broken(before, tokens, after).pieces| >= |a.pieces|
    ensures RangeBetween(a.Broken(before, tokens, after).pieces, first, next) == RangeBetween(a.pieces, first, next)
  {
    BrokenFront(a, before, tokens, after, first);
    BrokenFront(a, before, tokens, after, next);
  }

  /** Where the tokenizer finds words, or there is nothing to find them in, a sentence stays where it was. */
  ghost predicate StaysPut(a: Annotated, b: Annotated, tokenize: Tokenizer, n: nat) {
    && a.Valid() && b.Valid() && n <= a.NumSentences() && n == b.NumSentences()
    && forall i :: 0 <= i < n ==> StaysPutAt(a, b, tokenize, i)
  }

  ghost predicate StaysPutAt(a: Annotated, b: Annotated, tokenize: Tokenizer, i: nat)
    requires a.Valid() && b.Valid() && i < a.NumSentences() && i < b.NumSentences()
  {
    var view := SentenceRange(a, i);
    tokenize(view).ranges != [] || view.begin == view.end ==> SentenceRange(b, i) == view
  }

  lemma StaysPutMore(a: Annotated, b: Annotated, tokenize: Tokenizer, n: nat, b': Annotated, range: ByteRange)
    requires StaysPut(a, b, tokenize, n) && n < a.NumSentences() && RangeAdded(b, b', range)
    requires var view := SentenceRange(a, n); tokenize(view).ranges != [] || view.begin == view.end ==> range == view
    ensures StaysPut(a, b', tokenize, n + 1)
  {
    assert UnfoldRangeAdded(0, b, b', range);
    forall i | 0 <= i < n + 1 ensures StaysPutAt(a, b', tokenize, i) {
      if i < n { assert StaysPutAt(a, b, tokenize, i); }
    }
  }

  lemma SentencesInOrder(a: Annotated, i: nat)
    requires a.Valid() && i + 1 < a.NumSentences()
    ensures SentenceRange(a, i).end <= SentenceRange(a, i + 1).begin
  {
    GapIndex(a, i + 1);
    OffsetMonotone(a.pieces, a.gap[i + 1], a.gap[i + 1] + 1);
  }
}
