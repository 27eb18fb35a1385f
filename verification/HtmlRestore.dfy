/** The whole way: from a document that was read to the marked-up source and the marked-up translation. */
module HtmlRestore {
  import opened Basics
  import opened Markup
  import opened HtmlParsing
  import opened HtmlParser
  import opened HtmlRestoring
  import opened HtmlAlignment

  // ---- What is opened on a walk ----

  lemma {:induction false} OpensOnly(s: TagStack, t: Tag)
    requires Event.Open(t) in Opens(s)
    ensures t in s
  {
    if Event.Open(s[0]) != Event.Open(t) { OpensOnly(s[1..], t); }
  }

  lemma {:induction false} ClosesOpenNothing(s: TagStack, t: Tag)
    ensures Event.Open(t) !in Closes(s)
  {
    if s != [] { ClosesOpenNothing(s[1..], t); }
  }

  /** Only tags of the spans are opened. */
  lemma {:induction false} ReplayOpensOnly(spans: seq<Span>, t: Tag) returns (s: nat)
    requires Event.Open(t) in Replay(spans)
    ensures s < |spans| && t in spans[s].tags
  {
    var last := |spans| - 1;
    var prev, curr := spans[last - 1].tags, spans[last].tags;
    assert spans == spans[..last] + [spans[last]];
    ReplayAppend(spans[..last], spans[last]);
    if Event.Open(t) in Replay(spans[..last]) {
      s := ReplayOpensOnly(spans[..last], t);
    } else {
      CommonIsLongest(prev, curr);
      ClosesOpenNothing(prev[Common(prev, curr)..], t);
      OpensOnly(curr[Common(prev, curr)..], t);
      s := last;
    }
  }

  lemma {:induction false} SeenComesFrom(es: seq<Event>, e: DocEvent)
    requires e in Seen(es) && e.Opened?
    ensures Event.Open(Tag(e.at, e.kind, e.name)) in es
  {
    if e in SeenOne(es[0]) {
      assert es[0] == Event.Open(Tag(e.at, e.kind, e.name));
    } else {
      SeenComesFrom(es[1..], e);
    }
  }

  /** Every element, void element, comment and instruction of the document is opened. */
  ghost predicate AllOpened(document: seq<DocEvent>, word: seq<Event>) {
    forall e <- document :: e.Opened? ==> Event.Open(Tag(e.at, e.kind, e.name)) in word
  }

  lemma NothingLostInDocument(spans: seq<Span>, word: seq<Event>)
    requires NothingLost(spans, word)
    ensures AllOpened(Seen(Replay(spans)), word)
  {
    forall e | e in Seen(Replay(spans)) && e.Opened? ensures Event.Open(Tag(e.at, e.kind, e.name)) in word {
      SeenComesFrom(Replay(spans), e);
      var s := ReplayOpensOnly(spans, Tag(e.at, e.kind, e.name));
    }
  }

  // ---- What a parse provides ----

  lemma ParsedSpans(o: Options, original: string, lex: seq<Lexeme>, source: string, spans: seq<Span>, pool: Pool)
    requires Parsed(o, original, lex, source, spans, pool)
    ensures KnownAll(spans, pool) && spans[0].tags == [] && spans[|spans| - 1].tags == []
    ensures forall j, k :: 0 <= j <= k < |spans| ==> spans[j].begin <= spans[k].begin
  {
    forall j, k | 0 <= j <= k < |spans| ensures spans[j].begin <= spans[k].begin {
      SpansInOrder(spans, |source|, j, k);
    }
  }

  lemma SourceNested(spans: seq<Span>)
    requires spans != [] && spans[0].tags == [] && spans[|spans| - 1].tags == []
    ensures WellNested(Replay(spans))
  {
    WalkPlays(TagsOf(spans));
  }

  function Plus(spans: seq<Span>, targetSpans: seq<nat>, extra: seq<TagStack>): (tags: seq<TagStack>)
    requires |extra| == |targetSpans| && forall i :: 0 <= i < |targetSpans| ==> targetSpans[i] < |spans|
    ensures |tags| == |targetSpans|
    ensures forall i :: 0 <= i < |tags| ==> tags[i] == spans[targetSpans[i]].tags + extra[i]
  {
    if targetSpans == [] then []
    else
      var n := |targetSpans| - 1;
      Plus(spans, targetSpans[..n], extra[..n]) + [spans[targetSpans[n]].tags + extra[n]]
  }

  lemma PlusMapped(spans: seq<Span>, pool: Pool, targetSpans: seq<nat>, extra: seq<TagStack>)
    requires spans != [] && targetSpans != [] && |extra| == |targetSpans| && KnownAll(spans, pool)
    requires forall i :: 0 <= i < |targetSpans| ==> targetSpans[i] < |spans|
    requires forall i :: 0 <= i < |extra| ==> Known(extra[i], pool)
    requires targetSpans[|targetSpans| - 1] == |spans| - 1
    ensures Mapped(spans, targetSpans, Plus(spans, targetSpans, extra), pool)
  {
    var tags := Plus(spans, targetSpans, extra);
    forall i | 0 <= i < |targetSpans| ensures MappedAt(spans, targetSpans, tags, pool, i) {
      assert Known(extra[i], pool) && Known(spans[targetSpans[i]].tags, pool);
      assert tags[i] == spans[targetSpans[i]].tags + extra[i];
    }
  }

  /** Each sentence is aligned by the tags of its own words, and each target token has the span of its source word or
      gap. */
  ghost predicate TargetMapped(o: Options, spans: seq<Span>, sentences: seq<Sentence>, tokenSpans: seq<nat>,
                               alignments: seq<seq<nat>>, targetSpans: seq<nat>)
  {
    && Tokenised(spans, sentences, tokenSpans) && |alignments| == |sentences|
    && (forall k :: 0 <= k < |sentences| ==> SentenceAligned(o, spans, sentences, tokenSpans, alignments[k], k))
    && WordsInRange(sentences, alignments) && |targetSpans| == TargetOffset(sentences, |sentences|) + 1
    && AllCopied(sentences, |sentences|, alignments, tokenSpans, targetSpans)
    && targetSpans[|targetSpans| - 1] == tokenSpans[|tokenSpans| - 1]
    && forall i :: 0 <= i < |targetSpans| ==> targetSpans[i] < |spans|
  }

  /** Maps the tokens of the target to spans by hard alignments of the scores, and adds tags of the target's own. */
  method MapTarget(o: Options, ghost pool: Pool, spans: seq<Span>, sentences: seq<Sentence>, tokenSpans: seq<nat>,
                   extra: seq<TagStack>)
    returns (alignments: seq<seq<nat>>, targetSpans: seq<nat>, targetTags: seq<TagStack>)
    requires Tokenised(spans, sentences, tokenSpans) && spans != [] && KnownAll(spans, pool)
    requires tokenSpans[|tokenSpans| - 1] == |spans| - 1
    requires |extra| == TargetOffset(sentences, |sentences|) + 1
    requires forall i :: 0 <= i < |extra| ==> Known(extra[i], pool)
    ensures TargetMapped(o, spans, sentences, tokenSpans, alignments, targetSpans) && |targetSpans| == |extra|
    ensures targetTags == Plus(spans, targetSpans, extra) && Mapped(spans, targetSpans, targetTags, pool)
  {
    alignments := HardAlignments(o, spans, sentences, tokenSpans);
    forall k | 0 <= k < |sentences| ensures WordsInRangeAt(sentences[k], alignments[k]) {
      assert SentenceAligned(o, spans, sentences, tokenSpans, alignments[k], k);
    }
    targetSpans := CopyTagStack(sentences, alignments, tokenSpans);
    targetTags := Plus(spans, targetSpans, extra);
    PlusMapped(spans, pool, targetSpans, extra);
  }

  /** The tags of one pool are also in the other. */
  ghost predicate Extends(pool: Pool, more: Pool) { forall id <- pool :: id in more && more[id] == pool[id] }

  lemma KnownInMore(spans: seq<Span>, pool: Pool, more: Pool)
    requires KnownAll(spans, pool) && Extends(pool, more)
    ensures KnownAll(spans, more)
  {
    forall k | 0 <= k < |spans| ensures Known(spans[k].tags, more) { assert Known(spans[k].tags, pool); }
  }

  /** Writes a document's markup into its own text and into the translation. The former spells the document's events in
      order, up to the span of each token by the end of that token. The latter puts each token inside the tags of the
      span of its source word, with those that were added for it after the parse; it is well nested and opens everything
      the document opens. */
  method Restore(o: Options, ghost original: string, ghost lex: seq<Lexeme>, ghost plain: string, spans: seq<Span>,
                 pool: Pool, targetPool: Pool, source: seq<TokenView>, sentences: seq<Sentence>, target: seq<TokenView>,
                 extra: seq<TagStack>)
    returns (sourceHtmls: seq<string>, targetHtmls: seq<string>, tokenSpans: seq<nat>, alignments: seq<seq<nat>>,
             targetSpans: seq<nat>, ghost sourcePieces: seq<seq<Event>>, ghost targetPieces: seq<seq<Event>>)
    requires Parsed(o, original, lex, plain, spans, pool) && Extends(pool, targetPool)
    requires forall j, k :: 0 <= j <= k < |source| ==> source[j].end <= source[k].end
    requires |source| == SourceOffset(sentences, |sentences|) + 1
    requires forall k :: 0 <= k < |sentences| ==> sentences[k].Aligned()
    requires |target| == |extra| == TargetOffset(sentences, |sentences|) + 1
    requires forall i :: 0 <= i < |extra| ==> Known(extra[i], targetPool)
    ensures WrittenAll(sourceHtmls, source, pool, sourcePieces)
    ensures WellNested(Join(sourcePieces)) && Document(o, lex, 0) == Some(Seen(Join(sourcePieces)))
    ensures |tokenSpans| == |source| && (forall i :: 0 <= i < |source| ==> tokenSpans[i] < |spans|)
    ensures Placed(spans, source, |source| - 1, tokenSpans) && tokenSpans[|source| - 1] == |spans| - 1
    ensures StepByStep(spans, tokenSpans, sourcePieces, |source|)
    ensures TargetMapped(o, spans, sentences, tokenSpans, alignments, targetSpans)
    ensures WrittenAll(targetHtmls, target, targetPool, targetPieces)
    ensures WellNested(Join(targetPieces)) && AllOpened(Document(o, lex, 0).value, Join(targetPieces))
    ensures StandsInside(Plus(spans, targetSpans, extra), targetPieces, |target| - 1)
    ensures Traced(spans, targetSpans, Plus(spans, targetSpans, extra), targetPieces, |target|)
  {
    ParsedSpans(o, original, lex, plain, spans, pool);
    KnownInMore(spans, pool, targetPool);
    sourceHtmls, tokenSpans, sourcePieces := RestoreSource(spans, pool, source);
    SourceNested(spans);
    var targetTags;
    alignments, targetSpans, targetTags := MapTarget(o, targetPool, spans, sentences, tokenSpans, extra);
    targetHtmls, targetPieces := RestoreTarget(spans, targetPool, target, targetSpans, targetTags);
    NothingLostInDocument(spans, Join(targetPieces));
  }
}
