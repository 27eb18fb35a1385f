/** Text cut into gaps and sentences of words. */
module Annotation {
  import opened Basics

  /** Where piece `i` begins in the joined text. */
  function Offset(pieces: seq<string>, i: nat): nat
    requires i <= |pieces|
  {
    if i == 0 then 0 else Offset(pieces, i - 1) + |pieces[i - 1]|
  }

  lemma {:induction false} OffsetPrefix(pieces: seq<string>, more: seq<string>, i: nat)
    requires i <= |pieces|
    ensures Offset(pieces + more, i) == Offset(pieces, i)
  {
    if i > 0 { OffsetPrefix(pieces, more, i - 1); }
  }

  lemma {:induction false} OffsetEnd(pieces: seq<string>)
    ensures Offset(pieces, |pieces|) == |Join(pieces)|
  {
    if pieces != [] {
      var n := |pieces| - 1;
      OffsetEnd(pieces[..n]);
      assert pieces == pieces[..n] + [pieces[n]];
      OffsetPrefix(pieces[..n], [pieces[n]], n);
    }
  }

  lemma {:induction false} OffsetMonotone(pieces: seq<string>, i: nat, j: nat)
    requires i <= j <= |pieces|
    ensures Offset(pieces, i) <= Offset(pieces, j)
    decreases j
  {
    if i < j { OffsetMonotone(pieces, i, j - 1); }
  }

  /** The joined text from one piece's begin to the next one's is that piece. */
  lemma PieceInText(pieces: seq<string>, i: nat)
    requires i < |pieces|
    ensures Offset(pieces, i) <= Offset(pieces, i + 1) <= |Join(pieces)|
    ensures Join(pieces)[Offset(pieces, i)..Offset(pieces, i + 1)] == pieces[i]
  {
    var front, back := pieces[..i], pieces[i + 1..];
    assert pieces == front + ([pieces[i]] + back) == (front + [pieces[i]]) + back;
    JoinAppend(front + [pieces[i]], back);
    JoinAppend(front, [pieces[i]]);
    JoinOne(pieces[i]);
    OffsetEnd(front);
    OffsetPrefix(front, [pieces[i]] + back, i);
  }

  /** What the index vectors describe: all tokens in text order, and which of them are gaps. */
  datatype Annotated = Annotated(pieces: seq<string>, gap: seq<nat>) {
    ghost predicate Valid() {
      && pieces != [] && gap != [] && gap[0] == 0 && gap[|gap| - 1] == |pieces| - 1
      && forall i, j :: 0 <= i < j < |gap| ==> gap[i] < gap[j]
    }

    function NumSentences(): nat
      requires gap != []
    {
      |gap| - 1
    }

    ghost function GapAt(i: nat): string
      requires Valid() && i < |gap|
    {
      assert i < |gap| - 1 ==> gap[i] < gap[|gap| - 1];
      pieces[gap[i]]
    }

    ghost function SentenceAt(i: nat): seq<string>
      requires Valid() && i < NumSentences()
    {
      assert gap[i] < gap[i + 1] && (i + 1 < |gap| - 1 ==> gap[i + 1] < gap[|gap| - 1]);
      pieces[gap[i] + 1..gap[i + 1]]
    }

    function WithEnding(ending: string): Annotated
      requires pieces != []
    {
      var n := |pieces| - 1;
      this.(pieces := pieces[..n] + [pieces[n] + ending])
    }

    function WithSentence(tokens: seq<string>): Annotated {
      Annotated(pieces + tokens + [""], gap + [|pieces| + |tokens|])
    }

    /** Breaks the last gap into a gap, a sentence and another gap. */
    function Broken(before: string, tokens: seq<string>, after: string): Annotated
      requires pieces != []
    {
      var n := |pieces| - 1;
      Annotated(pieces[..n] + [before] + tokens + [after], gap + [n + 1 + |tokens|])
    }
  }

  /** Adding a sentence leaves all before it as it was. */
  lemma {:induction false} SentenceAdded(a: Annotated, tokens: seq<string>)
    requires a.Valid()
    ensures var b := a.WithSentence(tokens); var n := a.NumSentences();
            && b.Valid() && b.NumSentences() == n + 1 && b.SentenceAt(n) == tokens && b.GapAt(n + 1) == ""
            && (forall i :: 0 <= i <= n ==> b.GapAt(i) == a.GapAt(i))
            && (forall i :: 0 <= i < n ==> b.SentenceAt(i) == a.SentenceAt(i))
  {}

  lemma EndingAdded(a: Annotated, ending: string)
    requires a.Valid()
    ensures var b := a.WithEnding(ending); var n := a.NumSentences();
            && b.Valid() && b.gap == a.gap && b.GapAt(n) == a.GapAt(n) + ending
            && (forall i :: 0 <= i < n ==> b.GapAt(i) == a.GapAt(i) && b.SentenceAt(i) == a.SentenceAt(i))
  {
    var b, n := a.WithEnding(ending), a.NumSentences();
    assert forall k :: 0 <= k < |a.pieces| - 1 ==> b.pieces[k] == a.pieces[k];
  }

  // ---- White space between sentences ----

  predicate OmitSpace(language: string) { language != "" && ("ja" <= language || "zh" <= language) }

  predicate EnsureSpace(language: string) { language != "" && !OmitSpace(language) }

  function Find(s: string, c: char, from: nat): (p: nat)
    requires from <= |s|
    ensures from <= p <= |s| && (p < |s| ==> s[p] == c) && forall q :: from <= q < p ==> s[q] != c
    decreases |s| - from
  {
    if from == |s| || s[from] == c then from else Find(s, c, from + 1)
  }

  /** The complete tags of a gap from `at` on, without anything between or behind them. */
  function TagsFrom(gap: string, at: nat): string
    requires at <= |gap|
    decreases |gap| - at
  {
    var start := Find(gap, '<', at);
    if start == |gap| then ""
    else
      var end := Find(gap, '>', start + 1);
      if end == |gap| then "" else gap[start..end + 1] + TagsFrom(gap, end + 1)
  }

  function TagsOnly(gap: string): string { TagsFrom(gap, 0) }

  /** What is written for a gap. */
  function Ending(language: string, gap: string, between: bool, textEmpty: bool): string {
    if '\n' in gap then gap
    else if OmitSpace(language) then TagsOnly(gap)
    else if gap != "" then gap
    else if between && EnsureSpace(language) && !textEmpty then " "
    else ""
  }

  lemma {:induction false} FindAt(s: string, c: char, from: nat, p: nat)
    requires from <= p <= |s| && (p < |s| ==> s[p] == c) && forall q :: from <= q < p ==> s[q] != c
    ensures Find(s, c, from) == p
    decreases p - from
  {
    if from < p { FindAt(s, c, from + 1, p); }
  }

  /** A tag survives, what stands before it does not. */
  lemma TagKept(gap: string, at: nat, start: nat, end: nat)
    requires at <= start < end < |gap| && gap[start] == '<' && gap[end] == '>'
    requires (forall q :: at <= q < start ==> gap[q] != '<') && forall q :: start < q < end ==> gap[q] != '>'
    ensures TagsFrom(gap, at) == gap[start..end + 1] + TagsFrom(gap, end + 1)
  {
    FindAt(gap, '<', at, start);
    FindAt(gap, '>', start + 1, end);
  }

  /** White space and an unfinished tag are dropped. */
  lemma RestDropped(gap: string, at: nat, start: nat)
    requires at <= start <= |gap| && (forall q :: at <= q < start ==> gap[q] != '<')
    requires start == |gap| || (gap[start] == '<' && forall q :: start < q < |gap| ==> gap[q] != '>')
    ensures TagsFrom(gap, at) == ""
  {
    FindAt(gap, '<', at, start);
    if start < |gap| { FindAt(gap, '>', start + 1, |gap|); }
  }

  // ---- The class ----

  ghost predicate Describes(text: string, tokenBegin: seq<nat>, a: Annotated) {
    && a.Valid() && text == Join(a.pieces) && |tokenBegin| == |a.pieces| + 1
    && forall i :: 0 <= i <= |a.pieces| ==> tokenBegin[i] == Offset(a.pieces, i)
  }

  lemma {:induction false} DescribesEnding(text: string, tokenBegin: seq<nat>, a: Annotated, ending: string)
    requires Describes(text, tokenBegin, a)
    ensures Describes(text + ending, tokenBegin[|tokenBegin| - 1 := |text + ending|], a.WithEnding(ending))
  {
    var n := |a.pieces| - 1;
    var b := a.WithEnding(ending);
    EndingAdded(a, ending);
    assert a.pieces == a.pieces[..n] + [a.pieces[n]];
    JoinAppend(a.pieces[..n], [a.pieces[n]]);
    JoinAppend(a.pieces[..n], [a.pieces[n] + ending]);
    JoinOne(a.pieces[n]);
    JoinOne(a.pieces[n] + ending);
    assert text + ending == Join(b.pieces);
    OffsetEnd(b.pieces);
    forall i | 0 <= i <= n ensures Offset(b.pieces, i) == Offset(a.pieces, i) {
      OffsetPrefix(a.pieces[..n], [a.pieces[n]], i);
      OffsetPrefix(a.pieces[..n], [a.pieces[n] + ending], i);
    }
  }

  lemma {:induction false} OffsetShift(front: seq<string>, back: seq<string>, i: nat)
    requires i <= |back|
    ensures Offset(front + back, |front| + i) == Offset(front, |front|) + Offset(back, i)
  {
    if i == 0 {
      OffsetPrefix(front, back, |front|);
    } else {
      OffsetShift(front, back, i - 1);
    }
  }

  /** Where each of some tokens ends if the first one begins at `base`. */
  ghost function Ends(base: nat, tokens: seq<string>): (ends: seq<nat>)
    ensures |ends| == |tokens|
  {
    if tokens == [] then [] else Ends(base, tokens[..|tokens| - 1]) + [base + Offset(tokens, |tokens|)]
  }

  lemma {:induction false} EndsAt(base: nat, tokens: seq<string>, k: nat)
    requires k < |tokens|
    ensures Ends(base, tokens)[k] == base + Offset(tokens, k + 1)
  {
    if k < |tokens| - 1 {
      var front := tokens[..|tokens| - 1];
      EndsAt(base, front, k);
      assert tokens == front + [tokens[|tokens| - 1]];
      OffsetPrefix(front, [tokens[|tokens| - 1]], k + 1);
    }
  }

  lemma EndsMore(base: nat, tokens: seq<string>, k: nat)
    requires k < |tokens|
    ensures Ends(base, tokens[..k + 1]) == Ends(base, tokens[..k]) + [base + Offset(tokens[..k + 1], k + 1)]
    ensures Offset(tokens[..k + 1], k + 1) == Offset(tokens[..k], k) + |tokens[k]|
  {
    assert tokens[..k + 1][..k] == tokens[..k];
    assert tokens[..k + 1] == tokens[..k] + [tokens[k]];
    OffsetPrefix(tokens[..k], [tokens[k]], k);
  }

  lemma OffsetInSentence(pieces: seq<string>, tokens: seq<string>, i: nat)
    requires i <= |tokens| + 1
    ensures Offset(pieces + tokens + [""], |pieces| + i)
            == |Join(pieces)| + Offset(tokens, if i <= |tokens| then i else |tokens|)
  {
    assert pieces + tokens + [""] == pieces + (tokens + [""]);
    OffsetEnd(pieces);
    OffsetShift(pieces, tokens + [""], i);
    OffsetPrefix(tokens, [""], if i <= |tokens| then i else |tokens|);
  }

  lemma JoinSentence(pieces: seq<string>, tokens: seq<string>)
    ensures Join(pieces + tokens + [""]) == Join(pieces) + Join(tokens)
  {
    JoinAppend(pieces + tokens, [""]);
    JoinAppend(pieces, tokens);
    JoinOne("");
    assert Join(pieces + tokens) + "" == Join(pieces + tokens);
  }

  lemma SentenceOffset(tokenBegin: seq<nat>, pieces: seq<string>, tokens: seq<string>, base: nat, i: nat)
    requires |tokenBegin| == |pieces| + 1 && forall k :: 0 <= k <= |pieces| ==> tokenBegin[k] == Offset(pieces, k)
    requires i <= |pieces| + |tokens| + 1 && base == |Join(pieces)|
    ensures (tokenBegin + Ends(base, tokens) + [base + Offset(tokens, |tokens|)])[i]
            == Offset(pieces + tokens + [""], i)
  {
    var n := |pieces|;
    if i <= n {
      assert pieces + tokens + [""] == pieces + (tokens + [""]);
      OffsetPrefix(pieces, tokens + [""], i);
    } else {
      OffsetInSentence(pieces, tokens, i - n);
      if i - n <= |tokens| { EndsAt(base, tokens, i - n - 1); }
    }
  }

  lemma {:induction false} DescribesSentence(text: string, tokenBegin: seq<nat>, a: Annotated, tokens: seq<string>)
    requires Describes(text, tokenBegin, a)
    ensures Describes(text + Join(tokens), tokenBegin + Ends(|text|, tokens) + [|text| + Offset(tokens, |tokens|)],
                      a.WithSentence(tokens))
  {
    SentenceAdded(a, tokens);
    JoinSentence(a.pieces, tokens);
    forall i | 0 <= i <= |a.WithSentence(tokens).pieces|
      ensures (tokenBegin + Ends(|text|, tokens) + [|text| + Offset(tokens, |tokens|)])[i]
              == Offset(a.WithSentence(tokens).pieces, i)
    {
      SentenceOffset(tokenBegin, a.pieces, tokens, |text|, i);
    }
  }

  class AnnotatedText {
    var text: string
    /** Map from token index to the offset at which it begins, with the end of the text behind. */
    var tokenBegin: seq<nat>
    /** Indices of the tokens that are gaps. */
    var gap: seq<nat>
    var targetLanguage: string
    ghost var state: Annotated

    ghost predicate Valid()
      reads this
    {
      Describes(text, tokenBegin, state) && gap == state.gap
    }

    constructor ()
      ensures Valid() && state == Annotated([""], [0]) && targetLanguage == ""
    {
      text, tokenBegin, gap, targetLanguage := "", [0, 0], [0], "";
      state := Annotated([""], [0]);
      new;
      JoinOne("");
    }

    constructor FromText(input: string)
      ensures Valid() && text == input && state == Annotated([input], [0]) && targetLanguage == ""
    {
      text, tokenBegin, gap, targetLanguage := input, [0, |input|], [0], "";
      state := Annotated([input], [0]);
      new;
      JoinOne(input);
    }

    method RegisterTargetLanguage(language: string)
      requires Valid()
      modifies this`targetLanguage
      ensures Valid() && targetLanguage == language
    {
      targetLanguage := language;
    }

    function NumSentences(): (n: nat)
      requires Valid()
      reads this
      ensures n == state.NumSentences()
    {
      |gap| - 1
    }

    function NumWords(sentence: nat): (n: nat)
      requires Valid() && sentence < NumSentences()
      reads this
      ensures n == |state.SentenceAt(sentence)|
    {
      assert gap[sentence] < gap[sentence + 1];
      gap[sentence + 1] - gap[sentence] - 1
    }

    /** The range of a word, and its text. */
    method Word(sentence: nat, word: nat) returns (range: ByteRange, view: string)
      requires Valid() && sentence < NumSentences() && word < NumWords(sentence)
      ensures view == state.SentenceAt(sentence)[word]
      ensures range.begin <= range.end <= |text| && text[range.begin..range.end] == view
      ensures range == RangeOf(state.pieces, state.gap[sentence] + 1 + word)
    {
      var token := gap[sentence] + 1 + word;
      assert token < gap[sentence + 1] <= gap[|gap| - 1];
      PieceInText(state.pieces, token);
      range := ByteRange(tokenBegin[token], tokenBegin[token + 1]);
      view := text[range.begin..range.end];
    }

    method Gap(i: nat) returns (range: ByteRange, view: string)
      requires Valid() && i <= NumSentences()
      ensures view == state.GapAt(i)
      ensures range.begin <= range.end <= |text| && text[range.begin..range.end] == view
      ensures range == RangeOf(state.pieces, state.gap[i])
    {
      var token := gap[i];
      assert token <= gap[|gap| - 1];
      PieceInText(state.pieces, token);
      range := ByteRange(tokenBegin[token], tokenBegin[token + 1]);
      view := text[range.begin..range.end];
    }

    /** The range of a sentence: all its words, without the gaps around it. */
    method Sentence(i: nat) returns (range: ByteRange)
      requires Valid() && i < NumSentences()
      ensures range.begin <= range.end <= |text| && text[range.begin..range.end] == Join(state.SentenceAt(i))
      ensures state.gap[i] + 1 <= |state.pieces|
      ensures state.gap[i + 1] <= |state.pieces|
      ensures range == ByteRange(Offset(state.pieces, state.gap[i] + 1), Offset(state.pieces, state.gap[i + 1]))
    {
      assert gap[i] < gap[i + 1] <= gap[|gap| - 1];
      SliceJoins(state.pieces, gap[i] + 1, gap[i + 1]);
      range := ByteRange(tokenBegin[gap[i] + 1], tokenBegin[gap[i + 1]]);
    }

    method MaybeAppendHtmlTagsFromGap(gap: string)
      modifies this`text
      ensures text == old(text) + TagsOnly(gap)
    {
      var current := 0;
      while current < |gap|
        invariant 0 <= current <= |gap|
        invariant TagsLeft(text, gap, current, old(text) + TagsOnly(gap))
      {
        var start := Find(gap, '<', current);
        if start == |gap| {
          TagsDone(text, gap, current, old(text) + TagsOnly(gap));
          return;
        }
        var end := Find(gap, '>', start + 1);
        if end == |gap| {
          TagsDone(text, gap, current, old(text) + TagsOnly(gap));
          return;
        }
        TagsLess(text, gap, current, start, end, old(text) + TagsOnly(gap));
        text := text + gap[start..end + 1];
        current := end + 1;
      }
      TagsDone(text, gap, current, old(text) + TagsOnly(gap));
    }

    method HandleEndingWhitespace(whitespace: string, between: bool)
      requires Valid()
      modifies this`text, this`tokenBegin, this`state
      ensures Valid() && state == old(state).WithEnding(Ending(targetLanguage, whitespace, between, old(text) == ""))
    {
      ghost var ending := Ending(targetLanguage, whitespace, between, text == "");
      ghost var before := text;
      DescribesEnding(text, tokenBegin, state, ending);
      if '\n' in whitespace {
        text := text + whitespace;
      } else if OmitSpace(targetLanguage) {
        MaybeAppendHtmlTagsFromGap(whitespace);
      } else if whitespace != "" {
        text := text + whitespace;
      } else if between && EnsureSpace(targetLanguage) && text != "" {
        text := text + " ";
      }
      assert text == before + ending;
      tokenBegin := tokenBegin[|tokenBegin| - 1 := |text|];
      state := state.WithEnding(ending);
    }

    /** Records where tokens end that are about to be written behind the text. */
    method PushTokens(tokens: seq<string>) returns (offset: nat)
      modifies this`tokenBegin
      ensures tokenBegin == old(tokenBegin) + Ends(|text|, tokens) && offset == |text| + Offset(tokens, |tokens|)
    {
      ghost var was := tokenBegin;
      offset := |text|;
      assert was + [] == was && Offset(tokens[..0], 0) == 0;
      for k := 0 to |tokens|
        invariant tokenBegin == was + Ends(|text|, tokens[..k]) && offset == |text| + Offset(tokens[..k], k)
      {
        EndsMore(|text|, tokens, k);
        offset := offset + |tokens[k]|;
        ghost var before := Ends(|text|, tokens[..k]);
        tokenBegin := tokenBegin + [offset];
        assert (was + before) + [offset] == was + (before + [offset]);
      }
      assert tokens[..|tokens|] == tokens;
    }

    method AppendSentence(prefix: string, tokens: seq<string>)
      requires Valid()
      modifies this`text, this`tokenBegin, this`gap, this`state
      ensures Valid()
      ensures state == old(state).WithEnding(Ending(targetLanguage, prefix, true, old(text) == "")).WithSentence(tokens)
    {
      HandleEndingWhitespace(prefix, true);
      DescribesSentence(text, tokenBegin, state, tokens);
      var offset := PushTokens(tokens);
      text := text + Join(tokens);
      gap := gap + [|tokenBegin| - 1];
      tokenBegin := tokenBegin + [offset];
      state := state.WithSentence(tokens);
    }

    /** Appends the next of some gaps and sentences. */
    method AppendNext(prefix: string, tokens: seq<string>, ghost gaps: seq<string>, ghost sentences: seq<seq<string>>,
                      ghost i: nat)
      requires Valid() && Assembled(state, targetLanguage, gaps, sentences, i)
      requires i < |gaps| && i < |sentences| && prefix == gaps[i] && tokens == sentences[i]
      modifies this`text, this`tokenBegin, this`gap, this`state
      ensures Valid() && Assembled(state, targetLanguage, gaps, sentences, i + 1)
    {
      AssembledMore(state, targetLanguage, gaps, sentences, i);
      OffsetEnd(state.pieces);
      AppendSentence(prefix, tokens);
    }

    /** Appends the last gap. */
    method AppendLast(whitespace: string, ghost gaps: seq<string>, ghost sentences: seq<seq<string>>, ghost n: nat)
      requires Valid() && Assembled(state, targetLanguage, gaps, sentences, n) && n < |gaps| && whitespace == gaps[n]
      modifies this`text, this`tokenBegin, this`state
      ensures Valid() && Finished(state, targetLanguage, gaps, sentences, n)
    {
      AssembledEnd(state, targetLanguage, gaps, sentences, n);
      HandleEndingWhitespace(whitespace, false);
    }

    /** Records the next sentence of a text that is already there; what is left of the last gap goes before and behind
        it. */
    method RecordExistingSentence(tokens: seq<ByteRange>, sentenceBegin: nat)
      requires Valid() && Contiguous(text, tokens) && (tokens != [] ==> tokens[0].begin == sentenceBegin)
      requires LastGapBegin() <= sentenceBegin <= |text|
      modifies this`tokenBegin, this`gap, this`state
      ensures Valid() && sentenceBegin <= EndOf(tokens, sentenceBegin) <= |text|
      ensures state == Recorded(text, old(state), old(LastGapBegin()), tokens, sentenceBegin)
      ensures LastGapBegin() == EndOf(tokens, sentenceBegin)
    {
      ghost var after := Recorded(text, state, LastGapBegin(), tokens, sentenceBegin);
      RecordedGap(text, state, LastGapBegin(), tokens, sentenceBegin);
      DescribesRecorded(text, tokenBegin, state, LastGapBegin(), tokens, sentenceBegin, EndOf(tokens, sentenceBegin));
      PushBegins(tokens);
      gap := gap + [|tokenBegin|];
      PushEnd(tokens, sentenceBegin);
      state := after;
    }

    function LastGapBegin(): nat
      requires Valid()
      reads this
    {
      tokenBegin[|tokenBegin| - 2]
    }

    /** The end of the sentence, then the end of the text. */
    method PushEnd(tokens: seq<ByteRange>, sentenceBegin: nat)
      modifies this`tokenBegin
      ensures tokenBegin == old(tokenBegin) + [EndOf(tokens, sentenceBegin)] + [|text|]
    {
      if tokens != [] {
        tokenBegin := tokenBegin + [tokens[|tokens| - 1].end];
      } else {
        tokenBegin := tokenBegin + [sentenceBegin];
      }
      tokenBegin := tokenBegin + [|text|];
    }

    /** Replaces the end of the text by where tokens begin. */
    method PushBegins(tokens: seq<ByteRange>)
      requires tokenBegin != []
      modifies this`tokenBegin
      ensures tokenBegin == old(tokenBegin)[..|old(tokenBegin)| - 1] + Begins(tokens)
    {
      tokenBegin := tokenBegin[..|tokenBegin| - 1];
      ghost var was := tokenBegin;
      assert was + [] == was;
      for i := 0 to |tokens|
        invariant tokenBegin == was + Begins(tokens[..i])
      {
        BeginsMore(tokens, i);
        ghost var before := Begins(tokens[..i]);
        tokenBegin := tokenBegin + [tokens[i].begin];
        assert (was + before) + [tokens[i].begin] == was + (before + [tokens[i].begin]);
      }
      assert tokens[..|tokens|] == tokens;
    }

    /** Puts `f` of each gap and word in its place. */
    method Apply(f: (ByteRange, string, bool) -> string) returns (out: AnnotatedText)
      requires Valid()
      ensures fresh(out) && out.Valid() && out.targetLanguage == targetLanguage
      ensures Finished(out.state, targetLanguage, GapImages(state, f, |state.gap|),
                       WordImages(state, f, state.NumSentences()), state.NumSentences())
    {
      out := new AnnotatedText();
      out.RegisterTargetLanguage(targetLanguage);
      ghost var gaps, sentences := GapImages(state, f, |state.gap|), WordImages(state, f, state.NumSentences());
      AssembledNone(out.state, targetLanguage, gaps, sentences);
      for i := 0 to NumSentences()
        invariant fresh(out) && out.Valid() && out.targetLanguage == targetLanguage
        invariant Assembled(out.state, targetLanguage, gaps, sentences, i)
      {
        var range, view := Gap(i);
        var prefix := f(range, view, false);
        var tokens := ApplyToWords(f, i);
        GapImageAt(state, f, |state.gap|, i);
        WordImageAt(state, f, state.NumSentences(), i);
        out.AppendNext(prefix, tokens, gaps, sentences, i);
      }
      var range, view := Gap(NumSentences());
      GapImageAt(state, f, |state.gap|, state.NumSentences());
      out.AppendLast(f(range, view, true), gaps, sentences, NumSentences());
    }

    method ApplyToWords(f: (ByteRange, string, bool) -> string, i: nat) returns (tokens: seq<string>)
      requires Valid() && i < NumSentences()
      ensures tokens == SentenceImage(state, f, i, |state.SentenceAt(i)|)
    {
      tokens := [];
      for w := 0 to NumWords(i)
        invariant tokens == SentenceImage(state, f, i, w)
      {
        var range, view := Word(i, w);
        tokens := tokens + [f(range, view, false)];
      }
    }
  }

  function RangeOf(pieces: seq<string>, k: nat): ByteRange
    requires k < |pieces|
  {
    ByteRange(Offset(pieces, k), Offset(pieces, k + 1))
  }

  lemma SliceJoins(pieces: seq<string>, i: nat, j: nat)
    requires i <= j <= |pieces|
    ensures Offset(pieces, i) <= Offset(pieces, j) <= |Join(pieces)|
    ensures Join(pieces)[Offset(pieces, i)..Offset(pieces, j)] == Join(pieces[i..j])
  {
    Sliced(pieces, i, j);
    JoinAppend(pieces[..j], pieces[j..]);
    JoinAppend(pieces[..i], pieces[i..j]);
    OffsetEnd(pieces[..i]);
    OffsetEnd(pieces[..j]);
    OffsetPrefix(pieces[..i], pieces[i..], i);
    OffsetPrefix(pieces[..j], pieces[j..], j);
  }

  lemma Sliced(pieces: seq<string>, i: nat, j: nat)
    requires i <= j <= |pieces|
    ensures pieces[..i] + pieces[i..] == pieces && pieces[..j] + pieces[j..] == pieces
    ensures pieces[..i] + pieces[i..j] == pieces[..j]
  {}

  lemma NoMoreTags(done: string, gap: string, current: nat)
    requires current <= |gap|
    requires var start := Find(gap, '<', current); start < |gap| ==> Find(gap, '>', start + 1) == |gap|
    ensures done + TagsFrom(gap, current) == done
  {}

  predicate UnfoldTagsLeft(k: nat, done: string, gap: string, current: nat, goal: string) { true }

  /** With the tags of the gap from `current` on, what is done is the goal. Unfolds only where `UnfoldTagsLeft` is
      mentioned. */
  ghost predicate TagsLeft(done: string, gap: string, current: nat, goal: string)
    requires current <= |gap|
  {
    forall k: nat {:trigger UnfoldTagsLeft(k, done, gap, current, goal)} ::
      UnfoldTagsLeft(k, done, gap, current, goal) ==>
      done + TagsFrom(gap, current) == goal
  }

  lemma TagsDone(done: string, gap: string, current: nat, goal: string)
    requires current <= |gap| && TagsLeft(done, gap, current, goal)
    requires var start := Find(gap, '<', current); start < |gap| ==> Find(gap, '>', start + 1) == |gap|
    ensures done == goal
  {
    assert UnfoldTagsLeft(0, done, gap, current, goal);
    NoMoreTags(done, gap, current);
  }

  lemma TagsLess(done: string, gap: string, current: nat, start: nat, end: nat, goal: string)
    requires current <= |gap| && start == Find(gap, '<', current) < |gap| && end == Find(gap, '>', start + 1) < |gap|
    requires TagsLeft(done, gap, current, goal)
    ensures TagsLeft(done + gap[start..end + 1], gap, end + 1, goal)
  {
    assert UnfoldTagsLeft(0, done, gap, current, goal);
    TagStep(done, gap, current, start, end);
  }

  lemma {:induction false} TagStep(done: string, gap: string, current: nat, start: nat, end: nat)
    requires current <= |gap| && start == Find(gap, '<', current) < |gap| && end == Find(gap, '>', start + 1) < |gap|
    ensures (done + gap[start..end + 1]) + TagsFrom(gap, end + 1) == done + TagsFrom(gap, current)
  {
    Associate(done, gap[start..end + 1], TagsFrom(gap, end + 1));
  }

  // ---- Recording ----

  /** Ranges of one text, each beginning where the one before it ends. */
  ghost predicate Contiguous(text: string, tokens: seq<ByteRange>) {
    && (forall i :: 0 <= i < |tokens| ==> tokens[i].begin <= tokens[i].end <= |text|)
    && (forall i {:trigger BeginOf(tokens, i)} :: 0 < i < |tokens| ==> tokens[i - 1].end == BeginOf(tokens, i))
  }

  function BeginOf(tokens: seq<ByteRange>, i: nat): nat
    requires i < |tokens|
  {
    tokens[i].begin
  }

  function EndOf(tokens: seq<ByteRange>, otherwise: nat): nat {
    if tokens == [] then otherwise else tokens[|tokens| - 1].end
  }

  ghost function Begins(tokens: seq<ByteRange>): (begins: seq<nat>)
    ensures |begins| == |tokens| && forall i :: 0 <= i < |tokens| ==> begins[i] == tokens[i].begin
  {
    if tokens == [] then [] else Begins(tokens[..|tokens| - 1]) + [tokens[|tokens| - 1].begin]
  }

  lemma BeginsMore(tokens: seq<ByteRange>, i: nat)
    requires i < |tokens|
    ensures Begins(tokens[..i + 1]) == Begins(tokens[..i]) + [tokens[i].begin]
  {
    assert tokens[..i + 1][..i] == tokens[..i];
  }

  /** The texts of some ranges. */
  ghost function Slices(text: string, tokens: seq<ByteRange>): (slices: seq<string>)
    requires Contiguous(text, tokens)
    ensures |slices| == |tokens|
  {
    if tokens == [] then []
    else
      var n := |tokens| - 1;
      ContiguousFront(text, tokens);
      Slices(text, tokens[..n]) + [text[tokens[n].begin..tokens[n].end]]
  }

  lemma ContiguousFront(text: string, tokens: seq<ByteRange>)
    requires Contiguous(text, tokens) && tokens != []
    ensures Contiguous(text, tokens[..|tokens| - 1])
    ensures |tokens| > 1 ==> tokens[..|tokens| - 1][|tokens| - 2].end == tokens[|tokens| - 1].begin
  {
    var front := tokens[..|tokens| - 1];
    forall i | 0 <= i < |front| - 1 ensures front[i].end == BeginOf(front, i + 1) {
      assert tokens[i].end == BeginOf(tokens, i + 1);
    }
    if |tokens| > 1 { assert tokens[|tokens| - 2].end == BeginOf(tokens, |tokens| - 1); }
  }

  lemma SliceCat(text: string, i: nat, j: nat, k: nat)
    requires i <= j <= k <= |text|
    ensures text[i..j] + text[j..k] == text[i..k]
  {}

  /** Contiguous ranges hold the text from the first one's begin to the last one's end. */
  lemma {:induction false} SlicesJoin(text: string, tokens: seq<ByteRange>)
    requires Contiguous(text, tokens) && tokens != []
    ensures tokens[0].begin <= tokens[|tokens| - 1].begin
    ensures Join(Slices(text, tokens)) == text[tokens[0].begin..tokens[|tokens| - 1].end]
    decreases |tokens|
  {
    var n := |tokens| - 1;
    ContiguousFront(text, tokens);
    assert Slices(text, tokens)[..n] == Slices(text, tokens[..n]);
    if n > 0 {
      SlicesJoin(text, tokens[..n]);
      SliceCat(text, tokens[0].begin, tokens[n].begin, tokens[n].end);
    }
  }

  ghost function Starts(base: nat, tokens: seq<string>): (starts: seq<nat>)
    ensures |starts| == |tokens|
  {
    if tokens == [] then []
    else Starts(base, tokens[..|tokens| - 1]) + [base + Offset(tokens[..|tokens| - 1], |tokens| - 1)]
  }

  lemma {:induction false} StartsAt(base: nat, tokens: seq<string>, k: nat)
    requires k < |tokens|
    ensures Starts(base, tokens)[k] == base + Offset(tokens, k)
  {
    var front := tokens[..|tokens| - 1];
    assert tokens == front + [tokens[|tokens| - 1]];
    OffsetPrefix(front, [tokens[|tokens| - 1]], k);
    if k < |tokens| - 1 { StartsAt(base, front, k); }
  }

  lemma StartsSnoc(base: nat, front: seq<string>, token: string)
    ensures Starts(base, front + [token]) == Starts(base, front) + [base + |Join(front)|]
  {
    assert (front + [token])[..|front|] == front;
    OffsetEnd(front);
  }

  lemma SlicesSnoc(text: string, tokens: seq<ByteRange>)
    requires Contiguous(text, tokens) && tokens != []
    ensures Contiguous(text, tokens[..|tokens| - 1])
    ensures var n := |tokens| - 1;
            Slices(text, tokens) == Slices(text, tokens[..n]) + [text[tokens[n].begin..tokens[n].end]]
  {
    ContiguousFront(text, tokens);
  }

  /** Ranges begin where their texts would if they were written one after the other. */
  lemma {:induction false} BeginsAreStarts(text: string, tokens: seq<ByteRange>, base: nat)
    requires Contiguous(text, tokens) && (tokens != [] ==> base == tokens[0].begin)
    ensures Begins(tokens) == Starts(base, Slices(text, tokens))
    decreases |tokens|
  {
    if tokens != [] {
      var n := |tokens| - 1;
      SlicesSnoc(text, tokens);
      BeginsAreStarts(text, tokens[..n], base);
      StartsSnoc(base, Slices(text, tokens[..n]), text[tokens[n].begin..tokens[n].end]);
      BeginOfLast(text, tokens);
    }
  }

  lemma BeginOfLast(text: string, tokens: seq<ByteRange>)
    requires Contiguous(text, tokens) && tokens != [] && Contiguous(text, tokens[..|tokens| - 1])
    ensures tokens[0].begin + |Join(Slices(text, tokens[..|tokens| - 1]))| == tokens[|tokens| - 1].begin
  {
    ContiguousFront(text, tokens);
    if |tokens| > 1 { SlicesJoin(text, tokens[..|tokens| - 1]); }
  }

  lemma {:induction false} BrokenValid(a: Annotated, before: string, tokens: seq<string>, after: string)
    requires a.Valid()
    ensures var b := a.Broken(before, tokens, after); var n := a.NumSentences();
            && b.Valid() && b.NumSentences() == n + 1 && b.SentenceAt(n) == tokens
            && b.GapAt(n) == before && b.GapAt(n + 1) == after
            && (forall i :: 0 <= i < n ==> b.GapAt(i) == a.GapAt(i) && b.SentenceAt(i) == a.SentenceAt(i))
  {
    var b, n := a.Broken(before, tokens, after), |a.pieces| - 1;
    assert forall k :: 0 <= k < n ==> b.pieces[k] == a.pieces[k];
    assert b.pieces[n + 1..n + 1 + |tokens|] == tokens;
  }

  lemma BrokenText(a: Annotated, before: string, tokens: seq<string>, after: string)
    requires a.pieces != [] && a.pieces[|a.pieces| - 1] == (before + Join(tokens)) + after
    ensures Join(a.Broken(before, tokens, after).pieces) == Join(a.pieces)
  {
    var n := |a.pieces| - 1;
    var front := Join(a.pieces[..n]);
    JoinAppend(a.pieces[..n] + [before] + tokens, [after]);
    JoinAppend(a.pieces[..n] + [before], tokens);
    JoinAppend(a.pieces[..n], [before]);
    JoinOne(before);
    JoinOne(after);
    Associate(front, before, Join(tokens));
    Associate(front, before + Join(tokens), after);
  }

  lemma BrokenOffset(a: Annotated, before: string, tokens: seq<string>, after: string, i: nat)
    requires a.pieces != [] && i <= |a.pieces| + |tokens| + 1
    ensures var n := |a.pieces|; var base := Offset(a.pieces, n - 1) + |before|;
            Offset(a.Broken(before, tokens, after).pieces, i) ==
            if i < n then Offset(a.pieces, i) else if i <= n + |tokens| then base + Offset(tokens, i - n)
            else base + Offset(tokens, |tokens|) + |after|
  {
    var n := |a.pieces|;
    if i < n {
      BrokenFront(a, before, tokens, after, i);
    } else {
      BrokenBack(a, before, tokens, after, i - n);
    }
  }

  lemma BrokenFront(a: Annotated, before: string, tokens: seq<string>, after: string, i: nat)
    requires i < |a.pieces|
    ensures Offset(a.Broken(before, tokens, after).pieces, i) == Offset(a.pieces, i)
  {
    var n := |a.pieces|;
    var front := a.pieces[..n - 1];
    assert a.pieces == front + [a.pieces[n - 1]];
    assert a.Broken(before, tokens, after).pieces == front + ([before] + tokens + [after]);
    OffsetPrefix(front, [a.pieces[n - 1]], i);
    OffsetPrefix(front, [before] + tokens + [after], i);
  }

  lemma BrokenBack(a: Annotated, before: string, tokens: seq<string>, after: string, k: nat)
    requires a.pieces != [] && k <= |tokens| + 1
    ensures var n := |a.pieces|; var base := Offset(a.pieces, n - 1) + |before|;
            Offset(a.Broken(before, tokens, after).pieces, n + k) ==
            if k <= |tokens| then base + Offset(tokens, k) else base + Offset(tokens, |tokens|) + |after|
  {
    var n := |a.pieces|;
    var head := a.pieces[..n - 1] + [before];
    assert Offset(head, n) == Offset(a.pieces, n - 1) + |before| by {
      assert a.pieces == a.pieces[..n - 1] + [a.pieces[n - 1]];
      OffsetPrefix(a.pieces[..n - 1], [a.pieces[n - 1]], n - 1);
      OffsetPrefix(a.pieces[..n - 1], [before], n - 1);
    }
    assert a.Broken(before, tokens, after).pieces == head + (tokens + [after]);
    OffsetShift(head, tokens + [after], k);
    OffsetPrefix(tokens, [after], if k <= |tokens| then k else |tokens|);
  }

  lemma BrokenBegin(tokenBegin: seq<nat>, a: Annotated, before: string, tokens: seq<string>, after: string, size: nat,
                    i: nat)
    requires a.pieces != [] && |tokenBegin| == |a.pieces| + 1 && i <= |a.pieces| + |tokens| + 1
    requires forall k :: 0 <= k <= |a.pieces| ==> tokenBegin[k] == Offset(a.pieces, k)
    requires size == Offset(a.Broken(before, tokens, after).pieces, |a.pieces| + |tokens| + 1)
    ensures var n := |a.pieces|; var base := tokenBegin[n - 1] + |before|;
            (tokenBegin[..n] + Starts(base, tokens) + [base + |Join(tokens)|] + [size])[i]
              == Offset(a.Broken(before, tokens, after).pieces, i)
  {
    var n := |a.pieces|;
    OffsetEnd(tokens);
    BrokenOffset(a, before, tokens, after, i);
    if n <= i < n + |tokens| { StartsAt(tokenBegin[n - 1] + |before|, tokens, i - n); }
  }

  lemma BrokenIsValid(a: Annotated, before: string, tokens: seq<string>, after: string)
    requires a.Valid()
    ensures a.Broken(before, tokens, after).Valid()
  {
    BrokenValid(a, before, tokens, after);
  }

  lemma {:induction false} DescribesBroken(text: string, tokenBegin: seq<nat>, a: Annotated, before: string,
                                           tokens: seq<string>, after: string, base: nat, begins: seq<nat>, end: nat)
    requires Describes(text, tokenBegin, a) && a.pieces[|a.pieces| - 1] == (before + Join(tokens)) + after
    requires base == tokenBegin[|a.pieces| - 1] + |before| && begins == Starts(base, tokens)
    requires end == base + |Join(tokens)|
    ensures Describes(text, tokenBegin[..|a.pieces|] + begins + [end] + [|text|], a.Broken(before, tokens, after))
  {
    BrokenIsValid(a, before, tokens, after);
    BrokenText(a, before, tokens, after);
    OffsetEnd(a.Broken(before, tokens, after).pieces);
    forall i | 0 <= i <= |a.Broken(before, tokens, after).pieces|
      ensures (tokenBegin[..|a.pieces|] + begins + [end] + [|text|])[i]
              == Offset(a.Broken(before, tokens, after).pieces, i)
    {
      BrokenBegin(tokenBegin, a, before, tokens, after, |text|, i);
    }
  }

  lemma RangesInText(text: string, tokens: seq<ByteRange>, sentenceBegin: nat)
    requires Contiguous(text, tokens) && (tokens != [] ==> tokens[0].begin == sentenceBegin) && sentenceBegin <= |text|
    ensures var end := EndOf(tokens, sentenceBegin); var slices := Slices(text, tokens);
            && sentenceBegin <= end <= |text| && Join(slices) == text[sentenceBegin..end]
               && |Join(slices)| == end - sentenceBegin
            && Begins(tokens) == Starts(sentenceBegin, slices)
  {
    BeginsAreStarts(text, tokens, sentenceBegin);
    if tokens != [] { SlicesJoin(text, tokens); }
  }

  /** The text's last gap, which begins at `b`, broken by a sentence of some ranges. */
  ghost function Recorded(text: string, a: Annotated, b: nat, tokens: seq<ByteRange>, sentenceBegin: nat): Annotated
    requires a.pieces != [] && Contiguous(text, tokens) && b <= sentenceBegin <= |text|
    requires tokens != [] ==> tokens[0].begin == sentenceBegin
  {
    RangesInText(text, tokens, sentenceBegin);
    a.Broken(text[b..sentenceBegin], Slices(text, tokens), text[EndOf(tokens, sentenceBegin)..])
  }

  lemma {:induction false} RecordedIs(text: string, a: Annotated, b: nat, tokens: seq<ByteRange>, sentenceBegin: nat)
    requires a.pieces != [] && Contiguous(text, tokens) && b <= sentenceBegin <= |text|
    requires tokens != [] ==> tokens[0].begin == sentenceBegin
    ensures sentenceBegin <= EndOf(tokens, sentenceBegin) <= |text|
    ensures Recorded(text, a, b, tokens, sentenceBegin)
         == a.Broken(text[b..sentenceBegin], Slices(text, tokens), text[EndOf(tokens, sentenceBegin)..])
    ensures Recorded(text, a, b, tokens, sentenceBegin).gap == a.gap + [|a.pieces| + |tokens|]
  {
    RangesEnd(text, tokens, sentenceBegin);
  }

  lemma RangesEnd(text: string, tokens: seq<ByteRange>, sentenceBegin: nat)
    requires Contiguous(text, tokens) && (tokens != [] ==> tokens[0].begin == sentenceBegin) && sentenceBegin <= |text|
    ensures sentenceBegin <= EndOf(tokens, sentenceBegin) <= |text|
  {
    RangesInText(text, tokens, sentenceBegin);
  }

  lemma RecordedGap(text: string, a: Annotated, b: nat, tokens: seq<ByteRange>, sentenceBegin: nat)
    requires a.pieces != [] && Contiguous(text, tokens) && b <= sentenceBegin <= |text|
    requires tokens != [] ==> tokens[0].begin == sentenceBegin
    ensures sentenceBegin <= EndOf(tokens, sentenceBegin) <= |text|
    ensures Recorded(text, a, b, tokens, sentenceBegin).gap == a.gap + [|a.pieces| + |tokens|]
  {
    RecordedIs(text, a, b, tokens, sentenceBegin);
  }

  lemma DescribesRecorded(text: string, tokenBegin: seq<nat>, a: Annotated, b: nat, tokens: seq<ByteRange>,
                          sentenceBegin: nat, end: nat)
    requires Describes(text, tokenBegin, a) && Contiguous(text, tokens)
    requires tokens != [] ==> tokens[0].begin == sentenceBegin
    requires b == tokenBegin[|tokenBegin| - 2] <= sentenceBegin <= |text| && end == EndOf(tokens, sentenceBegin)
    ensures Describes(text, tokenBegin[..|tokenBegin| - 1] + Begins(tokens) + [end] + [|text|],
                      Recorded(text, a, b, tokens, sentenceBegin))
  {
    RangesInText(text, tokens, sentenceBegin);
    RecordedIs(text, a, b, tokens, sentenceBegin);
    DescribesCut(text, tokenBegin, a, sentenceBegin, end, Slices(text, tokens), Begins(tokens));
  }

  lemma DescribesCut(text: string, tokenBegin: seq<nat>, a: Annotated, sentenceBegin: nat, end: nat,
                     slices: seq<string>, begins: seq<nat>)
    requires Describes(text, tokenBegin, a) && tokenBegin[|tokenBegin| - 2] <= sentenceBegin <= end <= |text|
    requires Join(slices) == text[sentenceBegin..end] && begins == Starts(sentenceBegin, slices)
    ensures Describes(text, tokenBegin[..|tokenBegin| - 1] + begins + [end] + [|text|],
                      a.Broken(text[tokenBegin[|tokenBegin| - 2]..sentenceBegin], slices, text[end..]))
  {
    var b := tokenBegin[|tokenBegin| - 2];
    LastGapCut(text, a, b, sentenceBegin, end);
    DescribesBroken(text, tokenBegin, a, text[b..sentenceBegin], slices, text[end..], sentenceBegin, begins, end);
  }

  /** The last gap, cut at a sentence that lies in it. */
  lemma LastGapCut(text: string, a: Annotated, b: nat, sentenceBegin: nat, end: nat)
    requires a.pieces != [] && text == Join(a.pieces) && b == Offset(a.pieces, |a.pieces| - 1)
    requires b <= sentenceBegin <= end <= |text|
    ensures a.pieces[|a.pieces| - 1] == (text[b..sentenceBegin] + text[sentenceBegin..end]) + text[end..]
  {
    var n := |a.pieces| - 1;
    PieceInText(a.pieces, n);
    OffsetEnd(a.pieces);
    SliceCat(text, b, sentenceBegin, end);
    SliceCat(text, b, end, |text|);
    assert text[end..] == text[end..|text|];
  }

  // ---- Assembling a text from gaps and sentences ----

  /** After `n` sentences: each in its place, behind what is written for the gap before it. */
  ghost predicate Assembled(a: Annotated, language: string, gaps: seq<string>, sentences: seq<seq<string>>, n: nat) {
    && a.Valid() && a.NumSentences() == n && n <= |gaps| && n <= |sentences| && a.GapAt(n) == ""
    && forall i :: 0 <= i < n ==> InPlace(a, language, gaps[i], sentences[i], i)
  }

  ghost predicate InPlace(a: Annotated, language: string, gap: string, sentence: seq<string>, i: nat)
    requires a.Valid() && i < a.NumSentences()
  {
    && a.SentenceAt(i) == sentence && a.gap[i] <= |a.pieces|
    && a.GapAt(i) == Ending(language, gap, true, Offset(a.pieces, a.gap[i]) == 0)
  }

  ghost predicate Finished(a: Annotated, language: string, gaps: seq<string>, sentences: seq<seq<string>>, n: nat) {
    && a.Valid() && a.NumSentences() == n < |gaps| && n <= |sentences| && a.gap[n] <= |a.pieces|
    && (forall i :: 0 <= i < n ==> InPlace(a, language, gaps[i], sentences[i], i))
    && a.GapAt(n) == Ending(language, gaps[n], false, Offset(a.pieces, a.gap[n]) == 0)
  }

  lemma AssembledNone(a: Annotated, language: string, gaps: seq<string>, sentences: seq<seq<string>>)
    requires a == Annotated([""], [0])
    ensures Assembled(a, language, gaps, sentences, 0)
  {}

  lemma GapIndex(a: Annotated, i: nat)
    requires a.Valid() && i < |a.gap|
    ensures a.gap[i] < |a.pieces| && (i < |a.gap| - 1 ==> a.gap[i] < |a.pieces| - 1)
  {}

  lemma InPlaceKept(a: Annotated, b: Annotated, language: string, gap: string, sentence: seq<string>, i: nat)
    requires a.Valid() && b.Valid() && i < a.NumSentences() && i < b.NumSentences()
    requires InPlace(a, language, gap, sentence, i)
    requires b.SentenceAt(i) == a.SentenceAt(i) && b.GapAt(i) == a.GapAt(i) && b.gap[i] == a.gap[i]
    requires |a.pieces| <= |b.pieces| && forall k :: 0 <= k < |a.pieces| - 1 ==> b.pieces[k] == a.pieces[k]
    ensures InPlace(b, language, gap, sentence, i)
  {
    GapIndex(a, i);
    var n := a.gap[i];
    assert a.pieces == a.pieces[..n] + a.pieces[n..] && b.pieces == b.pieces[..n] + b.pieces[n..];
    assert a.pieces[..n] == b.pieces[..n];
    OffsetPrefix(a.pieces[..n], a.pieces[n..], n);
    OffsetPrefix(b.pieces[..n], b.pieces[n..], n);
  }

  /** The text so far is what lies before the last gap, if that is still empty. */
  lemma LastGap(a: Annotated)
    requires a.Valid()
    ensures a.GapAt(a.NumSentences()) == "" ==> Offset(a.pieces, |a.pieces|) == Offset(a.pieces, |a.pieces| - 1)
  {}

  lemma OffsetLast(a: Annotated, ending: string)
    requires a.Valid()
    ensures Offset(a.WithEnding(ending).pieces, |a.pieces| - 1) == Offset(a.pieces, |a.pieces| - 1)
  {
    var n := |a.pieces| - 1;
    assert a.pieces == a.pieces[..n] + [a.pieces[n]];
    OffsetPrefix(a.pieces[..n], [a.pieces[n]], n);
    OffsetPrefix(a.pieces[..n], [a.pieces[n] + ending], n);
  }

  lemma AssembledMore(a: Annotated, language: string, gaps: seq<string>, sentences: seq<seq<string>>, n: nat)
    requires Assembled(a, language, gaps, sentences, n) && n < |gaps| && n < |sentences|
    ensures var ending := Ending(language, gaps[n], true, Offset(a.pieces, |a.pieces|) == 0);
            Assembled(a.WithEnding(ending).WithSentence(sentences[n]), language, gaps, sentences, n + 1)
  {
    var ending := Ending(language, gaps[n], true, Offset(a.pieces, |a.pieces|) == 0);
    var b := a.WithEnding(ending);
    var c := b.WithSentence(sentences[n]);
    LastGap(a);
    OffsetLast(a, ending);
    EndingAdded(a, ending);
    SentenceAdded(b, sentences[n]);
    assert c.pieces == b.pieces + (sentences[n] + [""]);
    OffsetPrefix(b.pieces, sentences[n] + [""], |a.pieces| - 1);
    forall i | 0 <= i < n + 1 ensures InPlace(c, language, gaps[i], sentences[i], i) {
      if i < n {
        assert InPlace(a, language, gaps[i], sentences[i], i);
        InPlaceKept(a, c, language, gaps[i], sentences[i], i);
      } else {
        assert "" + ending == ending;
      }
    }
  }

  lemma AssembledEnd(a: Annotated, language: string, gaps: seq<string>, sentences: seq<seq<string>>, n: nat)
    requires Assembled(a, language, gaps, sentences, n) && n < |gaps|
    ensures forall empty: bool ::
            Finished(a.WithEnding(Ending(language, gaps[n], false, empty)), language, gaps, sentences, n)
  {
    forall empty: bool
      ensures Finished(a.WithEnding(Ending(language, gaps[n], false, empty)), language, gaps, sentences, n) {
      var ending := Ending(language, gaps[n], false, empty);
      var b := a.WithEnding(ending);
      EndingAdded(a, ending);
      assert "" + ending == ending;
      forall i | 0 <= i < n ensures InPlace(b, language, gaps[i], sentences[i], i) {
        assert InPlace(a, language, gaps[i], sentences[i], i);
        InPlaceKept(a, b, language, gaps[i], sentences[i], i);
      }
    }
  }

  // ---- Images ----

  function Image(a: Annotated, f: (ByteRange, string, bool) -> string, k: nat, last: bool): string
    requires k < |a.pieces|
  {
    f(RangeOf(a.pieces, k), a.pieces[k], last)
  }

  ghost function GapImages(a: Annotated, f: (ByteRange, string, bool) -> string, n: nat): (images: seq<string>)
    requires a.Valid() && n <= |a.gap|
    ensures |images| == n
  {
    if n == 0 then []
    else
      GapIndex(a, n - 1);
      GapImages(a, f, n - 1) + [Image(a, f, a.gap[n - 1], n == |a.gap|)]
  }

  lemma {:induction false} GapImageAt(a: Annotated, f: (ByteRange, string, bool) -> string, n: nat, i: nat)
    requires a.Valid() && i < n <= |a.gap|
    ensures a.gap[i] < |a.pieces| && GapImages(a, f, n)[i] == Image(a, f, a.gap[i], i == |a.gap| - 1)
    decreases n
  {
    GapIndex(a, i);
    if i < n - 1 { GapImageAt(a, f, n - 1, i); }
  }

  ghost function SentenceImage(a: Annotated, f: (ByteRange, string, bool) -> string, i: nat,
                               w: nat): (image: seq<string>)
    requires a.Valid() && i < a.NumSentences() && w <= |a.SentenceAt(i)|
    ensures |image| == w
  {
    if w == 0 then [] else SentenceImage(a, f, i, w - 1) + [Image(a, f, WordIndex(a, i, w - 1), false)]
  }

  ghost function WordIndex(a: Annotated, i: nat, w: nat): (k: nat)
    requires a.Valid() && i < a.NumSentences() && w < |a.SentenceAt(i)|
    ensures k < |a.pieces| && a.pieces[k] == a.SentenceAt(i)[w]
  {
    a.gap[i] + 1 + w
  }

  ghost function WordImages(a: Annotated, f: (ByteRange, string, bool) -> string, n: nat): (images: seq<seq<string>>)
    requires a.Valid() && n <= a.NumSentences()
    ensures |images| == n
  {
    if n == 0 then [] else WordImages(a, f, n - 1) + [SentenceImage(a, f, n - 1, |a.SentenceAt(n - 1)|)]
  }

  lemma {:induction false} WordImageAt(a: Annotated, f: (ByteRange, string, bool) -> string, n: nat, i: nat)
    requires a.Valid() && i < n <= a.NumSentences()
    ensures WordImages(a, f, n)[i] == SentenceImage(a, f, i, |a.SentenceAt(i)|)
  {
    if i < n - 1 { WordImageAt(a, f, n - 1, i); }
  }

  lemma {:induction false} SentenceImageAt(a: Annotated, f: (ByteRange, string, bool) -> string, i: nat, n: nat, w: nat)
    requires a.Valid() && i < a.NumSentences() && w < n <= |a.SentenceAt(i)|
    ensures SentenceImage(a, f, i, n)[w] == Image(a, f, WordIndex(a, i, w), false)
    decreases n
  {
    if w < n - 1 { SentenceImageAt(a, f, i, n - 1, w); }
  }

  // ---- What the language asks for ----

  /** The language tag begins with that of Japanese or Chinese. */
  ghost predicate Unspaced(language: string) { |language| >= 2 && language[..2] in {['j', 'a'], ['z', 'h']} }

  /** A gap with a line end stays. Otherwise Japanese and Chinese keep its tags only, and other languages keep it; where
      it is empty between sentences they get a space, unless nothing stands before it or no language was given. */
  lemma {:induction false} EndingIs(language: string, gap: string, between: bool, textEmpty: bool)
    ensures var r := Ending(language, gap, between, textEmpty);
            && ((exists k :: 0 <= k < |gap| && gap[k] == '\n') ==> r == gap)
            && ((forall k :: 0 <= k < |gap| ==> gap[k] != '\n') ==>
                  && (Unspaced(language) ==> r == TagsOnly(gap))
                  && (!Unspaced(language) && gap != "" ==> r == gap)
                  && (!Unspaced(language) && gap == "" ==>
                        |r| <= 1 && (r == [' '] <==> between && language != "" && !textEmpty)))
  {
    assert Unspaced(language) <==> OmitSpace(language) by {
      if |language| >= 2 { assert language[..2] == [language[0], language[1]]; }
    }
    if exists k :: 0 <= k < |gap| && gap[k] == '\n' { assert '\n' in gap; }
  }

  // ---- What applying a function means ----

  /** Without a target language nothing is added to or taken from gaps. */
  lemma FinishedPlainly(a: Annotated, gaps: seq<string>, sentences: seq<seq<string>>, n: nat, i: nat)
    requires Finished(a, "", gaps, sentences, n) && i <= n
    ensures a.GapAt(i) == gaps[i] && (i < n ==> a.SentenceAt(i) == sentences[i])
  {
    if i < n { assert InPlace(a, "", gaps[i], sentences[i], i); }
  }

  /** Without a target language each word and each gap is mapped to its image, and no sentence or word is lost. */
  lemma ApplyMaps(a: Annotated, f: (ByteRange, string, bool) -> string, r: Annotated, i: nat)
    requires a.Valid() && i <= a.NumSentences()
    requires Finished(r, "", GapImages(a, f, |a.gap|), WordImages(a, f, a.NumSentences()), a.NumSentences())
    ensures r.NumSentences() == a.NumSentences() && a.gap[i] < |a.pieces|
    ensures r.GapAt(i) == f(RangeOf(a.pieces, a.gap[i]), a.GapAt(i), i == a.NumSentences())
    ensures i < a.NumSentences() ==>
              && |r.SentenceAt(i)| == |a.SentenceAt(i)|
              && forall w :: 0 <= w < |a.SentenceAt(i)| ==>
                   r.SentenceAt(i)[w] == f(RangeOf(a.pieces, WordIndex(a, i, w)), a.SentenceAt(i)[w], false)
  {
    FinishedPlainly(r, GapImages(a, f, |a.gap|), WordImages(a, f, a.NumSentences()), a.NumSentences(), i);
    GapImageAt(a, f, |a.gap|, i);
    if i < a.NumSentences() {
      WordImageAt(a, f, a.NumSentences(), i);
      forall w: nat | w < |a.SentenceAt(i)|
        ensures SentenceImage(a, f, i, |a.SentenceAt(i)|)[w]
                == f(RangeOf(a.pieces, WordIndex(a, i, w)), a.SentenceAt(i)[w], false)
      {
        SentenceImageAt(a, f, i, |a.SentenceAt(i)|, w);
      }
    }
  }

  ghost predicate SameParts(a: Annotated, b: Annotated) {
    && a.Valid() && b.Valid() && a.NumSentences() == b.NumSentences()
    && (forall i :: 0 <= i <= a.NumSentences() ==> a.GapAt(i) == b.GapAt(i))
    && (forall i :: 0 <= i < a.NumSentences() ==> a.SentenceAt(i) == b.SentenceAt(i))
  }

  lemma {:induction false} SameUpTo(a: Annotated, b: Annotated, i: nat)
    requires SameParts(a, b) && i <= a.NumSentences()
    ensures a.gap[i] == b.gap[i] < |a.pieces| && a.gap[i] < |b.pieces|
    ensures a.pieces[..a.gap[i] + 1] == b.pieces[..a.gap[i] + 1]
  {
    PartsUpTo(a, i);
    PartsUpTo(b, i);
    assert a.GapAt(i) == b.GapAt(i);
    if i > 0 {
      SameUpTo(a, b, i - 1);
      assert a.SentenceAt(i - 1) == b.SentenceAt(i - 1);
    }
  }

  /** What is in front of gap `i`, with it: what is in front of the gap before, with that, a sentence and a gap. */
  lemma PartsUpTo(a: Annotated, i: nat)
    requires a.Valid() && i <= a.NumSentences()
    ensures a.gap[i] < |a.pieces|
    ensures if i == 0 then a.gap[i] == 0 && a.pieces[..1] == [a.GapAt(0)] else
              && a.gap[i - 1] < |a.pieces| && a.gap[i] == a.gap[i - 1] + 1 + |a.SentenceAt(i - 1)|
              && a.pieces[..a.gap[i] + 1] == a.pieces[..a.gap[i - 1] + 1] + a.SentenceAt(i - 1) + [a.GapAt(i)]
  {
    GapIndex(a, i);
    if i > 0 {
      GapIndex(a, i - 1);
      FrontParts(a.pieces, a.gap[i - 1] + 1, a.gap[i]);
    }
  }

  lemma FrontParts(pieces: seq<string>, g: nat, h: nat)
    requires g <= h < |pieces|
    ensures pieces[..h + 1] == pieces[..g] + pieces[g..h] + [pieces[h]]
  {}

  /** Gaps and sentences determine the whole. */
  lemma PartsDetermine(a: Annotated, b: Annotated)
    requires SameParts(a, b)
    ensures a == b
  {
    var n := a.NumSentences();
    SameUpTo(a, b, n);
    assert a.pieces[..a.gap[n] + 1] == a.pieces && b.pieces[..b.gap[n] + 1] == b.pieces;
    forall i | 0 <= i < |a.gap| ensures a.gap[i] == b.gap[i] { SameUpTo(a, b, i); }
  }

  /** Applying the identity changes nothing. */
  lemma ApplyIdentity(a: Annotated, f: (ByteRange, string, bool) -> string, r: Annotated)
    requires a.Valid() && forall range, s, last :: f(range, s, last) == s
    requires Finished(r, "", GapImages(a, f, |a.gap|), WordImages(a, f, a.NumSentences()), a.NumSentences())
    ensures r == a
  {
    forall i: nat | i <= a.NumSentences()
      ensures r.GapAt(i) == a.GapAt(i) && (i < a.NumSentences() ==> r.SentenceAt(i) == a.SentenceAt(i))
    {
      ApplyMaps(a, f, r, i);
    }
    PartsDetermine(r, a);
  }
}
