/** The translated text, put together from the sentences of all histories. */
module ResponseBuilding {
  import opened Basics
  import opened Annotation

  datatype ConcatStrategy = Faithful | Space

  ghost function GapsOf(a: Annotated, n: nat): (gaps: seq<string>)
    requires a.Valid() && n <= |a.gap|
    ensures |gaps| == n && forall i :: 0 <= i < n ==> gaps[i] == a.GapAt(i)
  {
    if n == 0 then [] else GapsOf(a, n - 1) + [a.GapAt(n - 1)]
  }

  ghost function Delimiters(n: nat): (gaps: seq<string>)
    ensures |gaps| == n && forall i :: 0 <= i < n ==> gaps[i] == if i == 0 then "" else " "
  {
    if n == 0 then [] else Delimiters(n - 1) + [if n == 1 then "" else " "]
  }

  /** The gaps asked for, by strategy. */
  ghost function Fillers(source: Annotated, strategy: ConcatStrategy, n: nat): (gaps: seq<string>)
    requires source.Valid() && (strategy == Faithful ==> n == source.NumSentences())
    ensures |gaps| == n + 1
  {
    if strategy == Faithful then GapsOf(source, n + 1) else Delimiters(n + 1)
  }

  /** After `i` histories. The last one brings the last gap with it if the text is to be faithful. */
  ghost predicate Built(a: Annotated, language: string, gaps: seq<string>, histories: seq<seq<string>>,
                        strategy: ConcatStrategy, i: nat) {
    if strategy == Faithful && 0 < i == |histories| then Finished(a, language, gaps, histories, i)
    else Assembled(a, language, gaps, histories, i)
  }

  method AppendFaithfully(source: AnnotatedText, target: AnnotatedText, histories: seq<seq<string>>, i: nat,
                          ghost gaps: seq<string>)
    requires source.Valid() && target.Valid() && source != target && i < |histories| == source.NumSentences()
    requires gaps == GapsOf(source.state, |histories| + 1)
    requires Built(target.state, target.targetLanguage, gaps, histories, Faithful, i)
    modifies target`text, target`tokenBegin, target`gap, target`state
    ensures target.Valid() && Built(target.state, target.targetLanguage, gaps, histories, Faithful, i + 1)
  {
    var range, pre := source.Gap(i);
    target.AppendNext(pre, histories[i], gaps, histories, i);
    if i + 1 == |histories| {
      var range', ending := source.Gap(i + 1);
      target.AppendLast(ending, gaps, histories, i + 1);
    }
  }

  method AppendSpaced(target: AnnotatedText, histories: seq<seq<string>>, i: nat, ghost gaps: seq<string>)
    requires target.Valid() && i < |histories| && gaps == Delimiters(|histories| + 1)
    requires Built(target.state, target.targetLanguage, gaps, histories, Space, i)
    modifies target`text, target`tokenBegin, target`gap, target`state
    ensures target.Valid() && Built(target.state, target.targetLanguage, gaps, histories, Space, i + 1)
  {
    var delimiter := if i == 0 then "" else " ";
    target.AppendNext(delimiter, histories[i], gaps, histories, i);
  }

  /** With no sentences there is nothing the last gap could be appended behind. */
  method BuildTranslatedText(source: AnnotatedText, target: AnnotatedText, strategy: ConcatStrategy,
                             histories: seq<seq<string>>)
    requires source.Valid() && target.Valid() && source != target && target.state == Annotated([""], [0])
    requires strategy == Faithful ==> |histories| == source.NumSentences()
    modifies target`text, target`tokenBegin, target`gap, target`state
    ensures target.Valid()
    ensures Built(target.state, target.targetLanguage, Fillers(source.state, strategy, |histories|), histories,
                  strategy, |histories|)
  {
    ghost var gaps := Fillers(source.state, strategy, |histories|);
    AssembledNone(target.state, target.targetLanguage, gaps, histories);
    for i := 0 to |histories|
      invariant target.Valid() && source.Valid()
      invariant Built(target.state, target.targetLanguage, gaps, histories, strategy, i)
    {
      match strategy {
        case Faithful => AppendFaithfully(source, target, histories, i, gaps);
        case Space => AppendSpaced(target, histories, i, gaps);
      }
    }
  }

  /** Without a target language the faithful text has every gap of the source, exactly if there is a sentence to carry
      them or the source has nothing but empty text. */
  method BuildFaithfully(source: AnnotatedText, target: AnnotatedText, histories: seq<seq<string>>)
    requires source.Valid() && target.Valid() && source != target && target.state == Annotated([""], [0])
    requires |histories| == source.NumSentences() && target.targetLanguage == ""
    modifies target`text, target`tokenBegin, target`gap, target`state
    ensures target.Valid() && target.NumSentences() == |histories|
    ensures forall i :: 0 <= i < |histories| ==> target.state.SentenceAt(i) == histories[i]
    ensures (forall i :: 0 <= i <= |histories| ==> target.state.GapAt(i) == source.state.GapAt(i))
       <==> histories != [] || source.text == ""
  {
    BuildTranslatedText(source, target, Faithful, histories);
    ghost var gaps := Fillers(source.state, Faithful, |histories|);
    if histories != [] {
      forall i: nat | i <= |histories|
        ensures target.state.GapAt(i) == gaps[i] && (i < |histories| ==> target.state.SentenceAt(i) == histories[i])
      {
        FinishedPlainly(target.state, gaps, histories, |histories|, i);
      }
    } else {
      NoSentences(source.state);
      assert source.state.GapAt(0) == source.text;
    }
  }

  /** What stands before sentence `i` of the translation, and behind the last one: what the strategy asks for (the
      source's gap, or a space between sentences), as the language has it. */
  lemma {:induction false} TranslatedGap(source: Annotated, target: Annotated, language: string,
                                         strategy: ConcatStrategy, histories: seq<seq<string>>, i: nat)
    requires source.Valid() && (strategy == Faithful ==> |histories| == source.NumSentences())
    requires Built(target, language, Fillers(source, strategy, |histories|), histories, strategy, |histories|)
    requires i <= |histories| != 0
    ensures target.Valid() && target.NumSentences() == |histories| && target.gap[i] <= |target.pieces|
    ensures i < |histories| ==> target.SentenceAt(i) == histories[i]
    ensures var empty := Offset(target.pieces, target.gap[i]) == 0;
            && (strategy == Faithful ==>
                  target.GapAt(i) == Ending(language, source.GapAt(i), i < |histories|, empty))
            && (strategy == Space && 0 < i < |histories| ==>
                target.GapAt(i) == if Unspaced(language) then "" else [' '])
            && (strategy == Space && (i == 0 || i == |histories|) && language == "" ==> target.GapAt(i) == "")
  {
    var gaps := Fillers(source, strategy, |histories|);
    GapIndex(target, i);
    if i < |histories| { assert InPlace(target, language, gaps[i], histories[i], i); }
    if strategy == Space {
      EndingIs(language, gaps[i], true, Offset(target.pieces, target.gap[i]) == 0);
      if gaps[i] == [' '] { NoTags(gaps[i]); }
    }
  }

  lemma NoTags(gap: string)
    requires gap == [' ']
    ensures TagsOnly(gap) == ""
  {
    assert Find(gap, '<', 0) == |gap|;
  }

  lemma NoSentences(a: Annotated)
    requires a.Valid() && a.NumSentences() == 0
    ensures Join(a.pieces) == a.GapAt(0)
  {
    JoinOne(a.pieces[0]);
    assert a.pieces == [a.pieces[0]];
  }
}
