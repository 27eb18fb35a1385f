/** Putting the markup of a document back, into its plain text and into the translation of that text. */
module HtmlRestoring {
  import opened Basics
  import opened Markup
  import opened HtmlParser
  import opened TokenFormatting

  /** A word or gap of an annotated text and where it ends, in the order they stand in the text. The last one is the gap
      behind the last sentence. */
  datatype TokenView = TokenView(end: nat, text: string)

  /** `html` is the token with exactly the markup `piece` written into it. */
  ghost predicate Written(html: string, token: TokenView, pool: Pool, piece: seq<Event>) {
    Formatted(html, token.text, pool, piece)
  }

  ghost predicate WrittenAll(htmls: seq<string>, tokens: seq<TokenView>, pool: Pool, pieces: seq<seq<Event>>) {
    |htmls| == |tokens| == |pieces| && forall i :: 0 <= i < |tokens| ==> Written(htmls[i], tokens[i], pool, pieces[i])
  }

  /** The first `n` tokens carry the markup `word`, piece by piece. */
  ghost predicate Restored(tokens: seq<TokenView>, n: nat, pool: Pool, htmls: seq<string>, pieces: seq<seq<Event>>,
                           word: seq<Event>) {
    n <= |tokens| && WrittenAll(htmls, tokens[..n], pool, pieces) && Join(pieces) == word
  }

  lemma RestoredMore(tokens: seq<TokenView>, n: nat, pool: Pool, htmls: seq<string>, pieces: seq<seq<Event>>,
                     word: seq<Event>, html: string, piece: seq<Event>)
    requires n < |tokens| && Restored(tokens, n, pool, htmls, pieces, word) && Written(html, tokens[n], pool, piece)
    ensures Restored(tokens, n + 1, pool, htmls + [html], pieces + [piece], word + piece)
  {
    JoinMore(pieces, piece);
    forall j | 0 <= j <= n ensures Written((htmls + [html])[j], tokens[..n + 1][j], pool, (pieces + [piece])[j]) {
      if j < n { assert Written(htmls[j], tokens[..n][j], pool, pieces[j]); }
    }
  }

  lemma RestoredAll(tokens: seq<TokenView>, pool: Pool, htmls: seq<string>, pieces: seq<seq<Event>>, word: seq<Event>)
    requires Restored(tokens, |tokens|, pool, htmls, pieces, word)
    ensures WrittenAll(htmls, tokens, pool, pieces) && Join(pieces) == word
  {
    assert tokens[..|tokens|] == tokens;
  }

  ghost predicate KnownAll(spans: seq<Span>, pool: Pool) { forall k :: 0 <= k < |spans| ==> Known(spans[k].tags, pool) }

  // ---- The source ----

  lemma ReplayStep(spans: seq<Span>, p: nat, s: nat)
    requires p <= s <= p + 1 && s < |spans|
    ensures Replay(spans[..p + 1]) + Emit(spans[p].tags, spans[s].tags) == Replay(spans[..s + 1])
  {
    if s == p {
      EmitSame(spans[p].tags);
      assert Replay(spans[..p + 1]) + [] == Replay(spans[..p + 1]);
    } else {
      var front := spans[..p + 1];
      assert spans[..s + 1] == front + [spans[s]];
      ReplayAppend(front, spans[s]);
    }
  }

  ghost predicate Done(spans: seq<Span>, to: nat, word: seq<Event>) {
    to < |spans| && word == Replay(spans[..to + 1])
  }

  /** `piece` is what is printed on the way from one span to another: it takes whatever is done at the one to what is
      done at the other. */
  ghost predicate Between(spans: seq<Span>, from: nat, to: nat, piece: seq<Event>) {
    from <= to < |spans| && forall word {:trigger Done(spans, from, word)} :: Done(spans, from, word) ==>
      Done(spans, to, word + piece)
  }

  lemma BetweenMore(spans: seq<Span>, from: nat, p: nat, s: nat, piece: seq<Event>)
    requires Between(spans, from, p, piece) && p <= s <= p + 1 && s < |spans|
    ensures Between(spans, from, s, piece + Emit(spans[p].tags, spans[s].tags))
  {
    forall word | Done(spans, from, word) ensures Done(spans, s, word + (piece + Emit(spans[p].tags, spans[s].tags))) {
      ReplayStep(spans, p, s);
      Associate(word, piece, Emit(spans[p].tags, spans[s].tags));
    }
  }

  lemma BetweenSame(spans: seq<Span>, from: nat)
    requires from < |spans|
    ensures Between(spans, from, from, [])
  {
    forall word | Done(spans, from, word) ensures Done(spans, from, word + []) {
      assert word + [] == word;
    }
  }

  method AppendSpan(formatter: TokenFormatter, spans: seq<Span>, pool: Pool, token: TokenView, ghost from: nat,
                    prevIt: nat, spanIt: nat, ghost piece: seq<Event>)
    returns (ghost piece': seq<Event>)
    requires prevIt <= spanIt <= prevIt + 1 && spanIt < |spans| && KnownAll(spans, pool)
    requires Between(spans, from, prevIt, piece)
    requires formatter.Wrote(token.text, pool, piece)
    modifies formatter
    ensures formatter.Wrote(token.text, pool, piece') && Between(spans, from, spanIt, piece')
  {
    assert Known(spans[spanIt].tags, pool);
    formatter.Append(token.text, pool, spans[prevIt].tags, spans[spanIt].tags, piece);
    BetweenMore(spans, from, prevIt, spanIt, piece);
    piece' := piece + Emit(spans[prevIt].tags, spans[spanIt].tags);
  }

  /** Whether the walk along the spans goes on to span `s` while it is at `token`. */
  predicate Reaches(spans: seq<Span>, token: TokenView, last: bool, s: nat) {
    s < |spans| && (spans[s].begin < token.end || last)
  }

  ghost predicate ReachesAll(spans: seq<Span>, token: TokenView, last: bool, from: nat, to: nat) {
    forall s :: from < s <= to ==> Reaches(spans, token, last, s)
  }

  /** Writes into one token what happens between the span reached so far and the last one that begins in it. */
  method RestoreSourceToken(spans: seq<Span>, pool: Pool, token: TokenView, last: bool, from: nat)
    returns (html: string, spanIt: nat, ghost piece: seq<Event>)
    requires from < |spans| && KnownAll(spans, pool)
    ensures Written(html, token, pool, piece) && Between(spans, from, spanIt, piece)
    ensures ReachesAll(spans, token, last, from, spanIt)
    ensures !Reaches(spans, token, last, spanIt + 1)
  {
    var formatter := new TokenFormatter(token.text, pool);
    var prevIt := from;
    spanIt, piece := from, [];
    BetweenSame(spans, from);
    while true
      invariant from <= prevIt <= spanIt <= prevIt + 1 && spanIt < |spans|
      invariant fresh(formatter) && formatter.Wrote(token.text, pool, piece)
      invariant Between(spans, from, prevIt, piece)
      invariant ReachesAll(spans, token, last, from, spanIt)
      decreases |spans| - spanIt
    {
      piece := AppendSpan(formatter, spans, pool, token, from, prevIt, spanIt, piece);
      prevIt := spanIt;
      if !Reaches(spans, token, last, spanIt + 1) {
        break;
      }
      spanIt := spanIt + 1;
    }
    html := formatter.Html(token.text, pool, piece);
  }

  ghost predicate InTextOrder(spans: seq<Span>, tokens: seq<TokenView>) {
    && (forall j, k :: 0 <= j <= k < |spans| ==> spans[j].begin <= spans[k].begin)
    && (forall j, k :: 0 <= j <= k < |tokens| ==> tokens[j].end <= tokens[k].end)
  }

  /** Each of the first `n` tokens belongs to the last span that begins before it ends. */
  ghost predicate Placed(spans: seq<Span>, tokens: seq<TokenView>, n: nat, tokenSpans: seq<nat>) {
    && n <= |tokens| && n <= |tokenSpans|
    && forall i, s :: 0 <= i < n && 1 <= s < |spans| ==> (s <= tokenSpans[i] <==> spans[s].begin < tokens[i].end)
  }

  /** Up to each of the first `n` tokens just that has been printed which leads to the token's own span. */
  ghost predicate StepByStep(spans: seq<Span>, tokenSpans: seq<nat>, pieces: seq<seq<Event>>, n: nat) {
    n <= |tokenSpans| && n <= |pieces| && forall i :: 0 <= i < n ==> Done(spans, tokenSpans[i], Join(pieces[..i + 1]))
  }

  lemma StepByStepMore(spans: seq<Span>, tokenSpans: seq<nat>, pieces: seq<seq<Event>>, spanIt: nat, piece: seq<Event>)
    requires |tokenSpans| == |pieces| && StepByStep(spans, tokenSpans, pieces, |pieces|)
    requires spanIt < |spans| && Join(pieces + [piece]) == Replay(spans[..spanIt + 1])
    ensures StepByStep(spans, tokenSpans + [spanIt], pieces + [piece], |pieces| + 1)
  {
    var n := |pieces|;
    forall i | 0 <= i < n + 1 ensures Done(spans, (tokenSpans + [spanIt])[i], Join((pieces + [piece])[..i + 1])) {
      if i < n {
        assert (pieces + [piece])[..i + 1] == pieces[..i + 1];
        assert Done(spans, tokenSpans[i], Join(pieces[..i + 1]));
      } else {
        assert (pieces + [piece])[..i + 1] == pieces + [piece];
      }
    }
  }

  /** The walk after `n` tokens. */
  ghost predicate Walked(spans: seq<Span>, tokens: seq<TokenView>, n: nat, tokenSpans: seq<nat>, spanIt: nat) {
    && spanIt < |spans| && n <= |tokens| && |tokenSpans| == n
    && spanIt == (if n == 0 then 0 else tokenSpans[n - 1])
    && (forall j :: 0 <= j < n ==> tokenSpans[j] < |spans|)
    && Placed(spans, tokens, if n == |tokens| && n > 0 then n - 1 else n, tokenSpans)
    && (n == |tokens| && n > 0 ==> spanIt == |spans| - 1)
  }

  lemma WalkedMore(spans: seq<Span>, tokens: seq<TokenView>, n: nat, tokenSpans: seq<nat>, from: nat, spanIt: nat)
    requires Walked(spans, tokens, n, tokenSpans, from) && n < |tokens| && InTextOrder(spans, tokens)
    requires from <= spanIt < |spans|
    requires ReachesAll(spans, tokens[n], n + 1 == |tokens|, from, spanIt)
    requires !Reaches(spans, tokens[n], n + 1 == |tokens|, spanIt + 1)
    ensures Walked(spans, tokens, n + 1, tokenSpans + [spanIt], spanIt)
  {
    if n + 1 < |tokens| {
      forall s | 1 <= s < |spans| ensures s <= spanIt <==> spans[s].begin < tokens[n].end {
        if s <= from {
          assert spans[s].begin < tokens[n - 1].end <= tokens[n].end;
        } else if s <= spanIt {
          assert Reaches(spans, tokens[n], false, s);
        } else {
          assert spans[spanIt + 1].begin <= spans[s].begin;
        }
      }
    }
  }

  lemma RestoredOn(spans: seq<Span>, from: nat, to: nat, tokens: seq<TokenView>, n: nat, pool: Pool,
                   htmls: seq<string>, pieces: seq<seq<Event>>, html: string, piece: seq<Event>)
    requires Between(spans, from, to, piece) && n < |tokens| && Written(html, tokens[n], pool, piece)
    requires Restored(tokens, n, pool, htmls, pieces, Replay(spans[..from + 1]))
    ensures Restored(tokens, n + 1, pool, htmls + [html], pieces + [piece], Replay(spans[..to + 1]))
  {
    assert Done(spans, from, Replay(spans[..from + 1]));
    RestoredMore(tokens, n, pool, htmls, pieces, Replay(spans[..from + 1]), html, piece);
  }

  predicate UnfoldSource(k: nat, n: nat, htmls: seq<string>, tokenSpans: seq<nat>, pieces: seq<seq<Event>>,
                         spanIt: nat) { true }

  /** Everything the restored source promises, for the first `n` tokens. Unfolds only where `UnfoldSource` is
      mentioned. */
  ghost predicate SourceUpTo(spans: seq<Span>, pool: Pool, tokens: seq<TokenView>, n: nat, htmls: seq<string>,
                             tokenSpans: seq<nat>, pieces: seq<seq<Event>>, spanIt: nat) {
    forall k: nat {:trigger UnfoldSource(k, n, htmls, tokenSpans, pieces, spanIt)} ::
      UnfoldSource(k, n, htmls, tokenSpans, pieces, spanIt) ==>
        && Walked(spans, tokens, n, tokenSpans, spanIt) && |pieces| == n
        && Restored(tokens, n, pool, htmls, pieces, Replay(spans[..spanIt + 1]))
           && StepByStep(spans, tokenSpans, pieces, n)
  }

  lemma SourceStart(spans: seq<Span>, pool: Pool, tokens: seq<TokenView>)
    requires spans != [] && tokens != []
    ensures SourceUpTo(spans, pool, tokens, 0, [], [], [], 0)
  {}

  lemma SourceStep(spans: seq<Span>, pool: Pool, tokens: seq<TokenView>, n: nat, htmls: seq<string>,
                   tokenSpans: seq<nat>, pieces: seq<seq<Event>>, from: nat, html: string, to: nat, piece: seq<Event>)
    requires SourceUpTo(spans, pool, tokens, n, htmls, tokenSpans, pieces, from) && n < |tokens|
    requires InTextOrder(spans, tokens)
    requires Between(spans, from, to, piece) && Written(html, tokens[n], pool, piece)
    requires ReachesAll(spans, tokens[n], n + 1 == |tokens|, from, to)
    requires !Reaches(spans, tokens[n], n + 1 == |tokens|, to + 1)
    ensures SourceUpTo(spans, pool, tokens, n + 1, htmls + [html], tokenSpans + [to], pieces + [piece], to)
  {
    assert UnfoldSource(0, n, htmls, tokenSpans, pieces, from);
    WalkedMore(spans, tokens, n, tokenSpans, from, to);
    RestoredOn(spans, from, to, tokens, n, pool, htmls, pieces, html, piece);
    StepByStepMore(spans, tokenSpans, pieces, to, piece);
  }

  lemma SourceEnd(spans: seq<Span>, pool: Pool, tokens: seq<TokenView>, htmls: seq<string>, tokenSpans: seq<nat>,
                  pieces: seq<seq<Event>>, spanIt: nat)
    requires SourceUpTo(spans, pool, tokens, |tokens|, htmls, tokenSpans, pieces, spanIt) && tokens != []
    ensures WrittenAll(htmls, tokens, pool, pieces) && Join(pieces) == Replay(spans)
    ensures |tokenSpans| == |tokens| && forall i :: 0 <= i < |tokens| ==> tokenSpans[i] < |spans|
    ensures Placed(spans, tokens, |tokens| - 1, tokenSpans) && tokenSpans[|tokens| - 1] == |spans| - 1
    ensures StepByStep(spans, tokenSpans, pieces, |tokens|)
  {
    assert UnfoldSource(0, |tokens|, htmls, tokenSpans, pieces, spanIt);
    assert spans[..|spans|] == spans;
    RestoredAll(tokens, pool, htmls, pieces, Replay(spans));
  }

  /** Replays the markup over the plain text and finds the span each token belongs to: nothing is lost, repeated or
      moved, and the last token ends up behind all of it. */
  method RestoreSource(spans: seq<Span>, pool: Pool, tokens: seq<TokenView>)
    returns (htmls: seq<string>, tokenSpans: seq<nat>, ghost pieces: seq<seq<Event>>)
    requires spans != [] && tokens != [] && KnownAll(spans, pool) && InTextOrder(spans, tokens)
    ensures WrittenAll(htmls, tokens, pool, pieces) && Join(pieces) == Replay(spans)
    ensures |tokenSpans| == |tokens| && forall i :: 0 <= i < |tokens| ==> tokenSpans[i] < |spans|
    ensures Placed(spans, tokens, |tokens| - 1, tokenSpans) && tokenSpans[|tokens| - 1] == |spans| - 1
    ensures StepByStep(spans, tokenSpans, pieces, |tokens|)
  {
    var spanIt := 0;
    htmls, tokenSpans, pieces := [], [], [];
    SourceStart(spans, pool, tokens);
    for i := 0 to |tokens|
      invariant spanIt < |spans| && SourceUpTo(spans, pool, tokens, i, htmls, tokenSpans, pieces, spanIt)
    {
      var html, next;
      ghost var piece;
      html, next, piece := RestoreSourceToken(spans, pool, tokens[i], i + 1 == |tokens|, spanIt);
      SourceStep(spans, pool, tokens, i, htmls, tokenSpans, pieces, spanIt, html, next, piece);
      htmls, tokenSpans, pieces, spanIt := htmls + [html], tokenSpans + [next], pieces + [piece], next;
    }
    SourceEnd(spans, pool, tokens, htmls, tokenSpans, pieces, spanIt);
  }

  // ---- The target ----

  /** Each of the first `n` spans was passed, or has text and is some token's own span. */
  ghost predicate Caught(spans: seq<Span>, n: nat, targetSpans: seq<nat>, path: seq<TagStack>) {
    n <= |spans| && forall s :: 0 <= s < n ==> spans[s].tags in path || s in targetSpans
  }

  lemma WalkOn(path: seq<TagStack>, start: seq<TagStack>, piece: seq<Event>, next: TagStack)
    requires path != [] && Walk(start) + piece == Walk(path)
    ensures Walk(start) + (piece + Emit(path[|path| - 1], next)) == Walk(path + [next])
  {
    WalkAppend(path, next);
    Associate(Walk(start), piece, Emit(path[|path| - 1], next));
  }

  lemma CaughtMore(spans: seq<Span>, n: nat, targetSpans: seq<nat>, path: seq<TagStack>, next: TagStack)
    requires Caught(spans, n, targetSpans, path)
    ensures Caught(spans, n, targetSpans, path + [next])
  {}

  /** Spans with text that some token is mapped to need no catching up. */
  predicate Skipped(spans: seq<Span>, targetSpans: seq<nat>, s: nat)
    requires s < |spans|
  {
    spans[s].end - spans[s].begin != 0 && s in targetSpans
  }

  /** The stacks passed on the way from one span to another. */
  function Passed(spans: seq<Span>, targetSpans: seq<nat>, from: nat, to: nat): seq<TagStack>
    requires to <= |spans|
  {
    if from >= to then []
    else
      Passed(spans, targetSpans, from, to - 1)
        + (if Skipped(spans, targetSpans, to - 1) then [] else [spans[to - 1].tags])
  }

  /** A span without text, or one that no target token is mapped to. */
  ghost predicate Straggler(spans: seq<Span>, targetSpans: seq<nat>, s: nat) {
    s < |spans| && (spans[s].begin == spans[s].end || forall i :: 0 <= i < |targetSpans| ==> targetSpans[i] != s)
  }

  /** The stacks passed are those of the stragglers, each once and in text order. */
  lemma {:induction false} PassedAreStragglers(spans: seq<Span>, targetSpans: seq<nat>, from: nat, to: nat)
    returns (places: seq<nat>)
    requires from <= to <= |spans|
    ensures forall j, k :: 0 <= j < k < |places| ==> places[j] < places[k]
    ensures forall s: nat :: s in places <==> from <= s < to && Straggler(spans, targetSpans, s)
    ensures |Passed(spans, targetSpans, from, to)| == |places|
    ensures forall k :: 0 <= k < |places| ==>
              places[k] < |spans| && Passed(spans, targetSpans, from, to)[k] == spans[places[k]].tags
  {
    if from == to {
      places := [];
    } else {
      places := PassedAreStragglers(spans, targetSpans, from, to - 1);
      if !Skipped(spans, targetSpans, to - 1) {
        assert Straggler(spans, targetSpans, to - 1);
        assert forall k :: 0 <= k < |places| ==> places[k] in places;
        places := places + [to - 1];
      }
    }
  }

  /** The farthest of the spans of the first `n` tokens. */
  lemma {:induction false} ReachedIsFarthest(targetSpans: seq<nat>, n: nat)
    requires n <= |targetSpans|
    ensures forall i :: 0 <= i < n ==> targetSpans[i] <= Reached(targetSpans, n)
    ensures if n == 0 then Reached(targetSpans, n) == 0 else Reached(targetSpans, n) in targetSpans[..n]
  {
    if n > 0 {
      ReachedIsFarthest(targetSpans, n - 1);
      assert targetSpans[..n] == targetSpans[..n - 1] + [targetSpans[n - 1]];
    }
  }

  /** How far the spans are caught up with behind `n` tokens. */
  function Reached(targetSpans: seq<nat>, n: nat): nat
    requires n <= |targetSpans|
  {
    if n == 0 then 0 else Max(Reached(targetSpans, n - 1), targetSpans[n - 1])
  }

  lemma {:induction false} ReachedInSpans(spans: seq<Span>, targetSpans: seq<nat>, n: nat)
    requires n <= |targetSpans| && forall i :: 0 <= i < n ==> targetSpans[i] < |spans|
    ensures Reached(targetSpans, n) <= |spans|
  {
    if n > 0 { ReachedInSpans(spans, targetSpans, n - 1); }
  }

  /** All stacks moved along up to token `n`: before each token those caught up with, then its own; at the end none. */
  function TargetPath(spans: seq<Span>, targetSpans: seq<nat>, targetTags: seq<TagStack>, n: nat): (path: seq<TagStack>)
    requires n <= |targetSpans| == |targetTags| && forall i :: 0 <= i < |targetSpans| ==> targetSpans[i] < |spans|
    ensures path != []
  {
    if n == 0 then [[]]
    else
      ReachedInSpans(spans, targetSpans, n);
      TokenPath(spans, targetSpans, TargetPath(spans, targetSpans, targetTags, n - 1), Reached(targetSpans, n - 1),
                Reached(targetSpans, n), targetTags[n - 1], n == |targetTags|)
  }

  function TokenPath(spans: seq<Span>, targetSpans: seq<nat>, path: seq<TagStack>, from: nat, to: nat, tags: TagStack,
                     last: bool):
    (path': seq<TagStack>)
    requires to <= |spans|
    ensures path' != []
  {
    path + Passed(spans, targetSpans, from, to) + [tags] + (if last then [[]] else [])
  }

  /** The markup before each of the first `n` tokens is what is printed along the path to it. `TracedAt` unfolds only
      where `UnfoldTraced` is mentioned. */
  ghost predicate Traced(spans: seq<Span>, targetSpans: seq<nat>, targetTags: seq<TagStack>, pieces: seq<seq<Event>>,
                         n: nat)
    requires |targetSpans| == |targetTags| && forall i :: 0 <= i < |targetSpans| ==> targetSpans[i] < |spans|
  {
    && n <= |pieces| && n <= |targetSpans|
    && forall i :: 0 <= i < n ==> TracedAt(spans, targetSpans, targetTags, pieces, i)
  }

  ghost predicate TracedAt(spans: seq<Span>, targetSpans: seq<nat>, targetTags: seq<TagStack>, pieces: seq<seq<Event>>,
                           i: nat)
    requires |targetSpans| == |targetTags| && forall i :: 0 <= i < |targetSpans| ==> targetSpans[i] < |spans|
    requires i < |pieces| && i < |targetSpans|
  {
    forall k: nat {:trigger UnfoldTraced(k, spans, targetSpans, targetTags, pieces, i)} ::
      UnfoldTraced(k, spans, targetSpans, targetTags, pieces, i) ==>
        Join(pieces[..i + 1]) == Walk(TargetPath(spans, targetSpans, targetTags, i + 1))
  }

  predicate UnfoldTraced(k: nat, spans: seq<Span>, targetSpans: seq<nat>, targetTags: seq<TagStack>,
                         pieces: seq<seq<Event>>, i: nat) { true }

  lemma TracedMore(spans: seq<Span>, targetSpans: seq<nat>, targetTags: seq<TagStack>, pieces: seq<seq<Event>>,
                   piece: seq<Event>)
    requires |targetSpans| == |targetTags| && forall i :: 0 <= i < |targetSpans| ==> targetSpans[i] < |spans|
    requires |pieces| < |targetSpans| && Traced(spans, targetSpans, targetTags, pieces, |pieces|)
    requires TracedAt(spans, targetSpans, targetTags, pieces + [piece], |pieces|)
    ensures Traced(spans, targetSpans, targetTags, pieces + [piece], |pieces| + 1)
  {
    var n := |pieces|;
    forall i | 0 <= i < n + 1 ensures TracedAt(spans, targetSpans, targetTags, pieces + [piece], i) {
      if i < n { TracedKept(spans, targetSpans, targetTags, pieces, piece, i); }
    }
  }

  lemma TracedKept(spans: seq<Span>, targetSpans: seq<nat>, targetTags: seq<TagStack>, pieces: seq<seq<Event>>,
                   piece: seq<Event>, i: nat)
    requires |targetSpans| == |targetTags| && forall i :: 0 <= i < |targetSpans| ==> targetSpans[i] < |spans|
    requires i < |pieces| && i < |targetSpans| && TracedAt(spans, targetSpans, targetTags, pieces, i)
    ensures TracedAt(spans, targetSpans, targetTags, pieces + [piece], i)
  {
    assert UnfoldTraced(0, spans, targetSpans, targetTags, pieces, i);
    assert (pieces + [piece])[..i + 1] == pieces[..i + 1];
  }

  predicate UnfoldAlong(k: nat, spans: seq<Span>, targetSpans: seq<nat>, path: seq<TagStack>, from: nat, to: nat,
                        piece: seq<Event>, path': seq<TagStack>) { true }

  /** The walk goes on from `path` over the spans passed, and `piece` is printed. Unfolds only where `UnfoldAlong` is
      mentioned. */
  ghost predicate Along(spans: seq<Span>, targetSpans: seq<nat>, path: seq<TagStack>, from: nat, to: nat,
                        piece: seq<Event>, path': seq<TagStack>) {
    forall k: nat {:trigger UnfoldAlong(k, spans, targetSpans, path, from, to, piece, path')} ::
      UnfoldAlong(k, spans, targetSpans, path, from, to, piece, path') ==>
        && to <= |spans| && path != [] && path' == path + Passed(spans, targetSpans, from, to)
        && Walk(path) + piece == Walk(path') && Caught(spans, to, targetSpans, path')
  }

  lemma AlongNothing(spans: seq<Span>, targetSpans: seq<nat>, path: seq<TagStack>, from: nat)
    requires from <= |spans| && path != [] && Caught(spans, from, targetSpans, path)
    ensures Along(spans, targetSpans, path, from, from, [], path)
  {
    assert Walk(path) + [] == Walk(path) && path + [] == path;
  }

  /** One more span: passed over, or walked to. */
  lemma AlongMore(spans: seq<Span>, targetSpans: seq<nat>, path: seq<TagStack>, from: nat, s: nat, piece: seq<Event>,
                  path': seq<TagStack>)
    requires from <= s < |spans| && Along(spans, targetSpans, path, from, s, piece, path')
    ensures path' != []
    ensures if Skipped(spans, targetSpans, s) then Along(spans, targetSpans, path, from, s + 1, piece, path')
            else
              var tags := spans[s].tags;
              Along(spans, targetSpans, path, from, s + 1, piece + Emit(path'[|path'| - 1], tags), path' + [tags])
  {
    assert UnfoldAlong(0, spans, targetSpans, path, from, s, piece, path');
    if Skipped(spans, targetSpans, s) {
      assert path' + [] == path' && path + (Passed(spans, targetSpans, from, s) + []) == path';
    } else {
      WalkOn(path', path, piece, spans[s].tags);
      CaughtMore(spans, s, targetSpans, path', spans[s].tags);
      Associate(path, Passed(spans, targetSpans, from, s), [spans[s].tags]);
    }
  }

  /** Catches up with the spans before the token's own. */
  method CatchUp(formatter: TokenFormatter, spans: seq<Span>, pool: Pool, token: TokenView, targetSpans: seq<nat>,
                 to: nat, prevTags: TagStack, from: nat, ghost path: seq<TagStack>)
    returns (straggler: nat, prev: TagStack, ghost path': seq<TagStack>, ghost piece: seq<Event>)
    requires KnownAll(spans, pool) && from <= |spans| && to <= |spans| && formatter.Wrote(token.text, pool, [])
    requires path != [] && path[|path| - 1] == prevTags && Caught(spans, from, targetSpans, path)
    modifies formatter
    ensures formatter.Wrote(token.text, pool, piece) && straggler == Max(from, to)
    ensures path' != [] && path'[|path'| - 1] == prev && Along(spans, targetSpans, path, from, straggler, piece, path')
  {
    straggler, prev, path', piece := from, prevTags, path, [];
    AlongNothing(spans, targetSpans, path, from);
    while straggler < to
      invariant from <= straggler <= Max(from, to) && formatter.Wrote(token.text, pool, piece)
      invariant path' != [] && path'[|path'| - 1] == prev
      invariant Along(spans, targetSpans, path, from, straggler, piece, path')
    {
      AlongMore(spans, targetSpans, path, from, straggler, piece, path');
      if spans[straggler].end - spans[straggler].begin != 0 && straggler in targetSpans {
        straggler := straggler + 1;
        continue;
      }
      var tags := spans[straggler].tags;
      assert Known(tags, pool);
      formatter.Append(token.text, pool, prev, tags, piece);
      piece := piece + Emit(prev, tags);
      path', prev, straggler := path' + [tags], tags, straggler + 1;
    }
  }

  /** What the token's own tags, and the closing of all behind the last token, add to the walk. */
  lemma {:induction false} OwnTags(spans: seq<Span>, targetSpans: seq<nat>, path: seq<TagStack>, from: nat, to: nat,
                                   tags: TagStack, last: bool, piece: seq<Event>, path': seq<TagStack>)
    requires to <= |spans| && Along(spans, targetSpans, path, from, to, piece, path')
    ensures path' != []
    ensures var all := TokenPath(spans, targetSpans, path, from, to, tags, last);
            var own := piece + Emit(path'[|path'| - 1], tags);
            && path <= all && Walk(path) + (if last then own + Emit(tags, []) else own) == Walk(all)
            && Caught(spans, to, targetSpans, all) && tags in all && all[|all| - 1] == (if last then [] else tags)
  {
    assert UnfoldAlong(0, spans, targetSpans, path, from, to, piece, path');
    var own := path' + [tags];
    WalkOn(path', path, piece, tags);
    CaughtMore(spans, to, targetSpans, path', tags);
    assert own[|path'|] == tags;
    if last {
      WalkOn(own, path, piece + Emit(path'[|path'| - 1], tags), []);
      CaughtMore(spans, to, targetSpans, own, []);
      assert (own + [[]])[|path'|] == tags;
    } else {
      assert own + [] == own;
    }
  }

  /** Writes into one token what has to be caught up with before its span, then its own tags. `path` is all stacks moved
      along. */
  method RestoreTargetToken(spans: seq<Span>, pool: Pool, token: TokenView, last: bool, targetSpans: seq<nat>, at: nat,
                            tags: TagStack, prevTags: TagStack, from: nat, ghost path: seq<TagStack>)
    returns (html: string, straggler: nat, ghost path': seq<TagStack>, ghost piece: seq<Event>)
    requires KnownAll(spans, pool) && Known(tags, pool) && at < |targetSpans| && targetSpans[at] < |spans|
    requires path != [] && path[|path| - 1] == prevTags && Caught(spans, from, targetSpans, path)
    ensures Written(html, token, pool, piece) && path <= path' && Walk(path) + piece == Walk(path')
    ensures targetSpans[at] <= straggler && Caught(spans, straggler, targetSpans, path')
    ensures tags in path' && path'[|path'| - 1] == (if last then [] else tags)
    ensures straggler == Max(from, targetSpans[at]) <= |spans|
    ensures path' == TokenPath(spans, targetSpans, path, from, straggler, tags, last)
  {
    var formatter := new TokenFormatter(token.text, pool);
    var prev;
    ghost var caught;
    straggler, prev, caught, piece :=
      CatchUp(formatter, spans, pool, token, targetSpans, targetSpans[at], prevTags, from, path);
    OwnTags(spans, targetSpans, path, from, straggler, tags, last, piece, caught);
    formatter.Append(token.text, pool, prev, tags, piece);
    piece := piece + Emit(prev, tags);
    if last {
      formatter.Append(token.text, pool, tags, [], piece);
      piece := piece + Emit(tags, []);
    }
    path' := TokenPath(spans, targetSpans, path, from, straggler, tags, last);
    html := formatter.Html(token.text, pool, piece);
  }

  /** Each token has at least the tags of the span it is mapped to, and the last token is mapped to the last span. */
  ghost predicate Mapped(spans: seq<Span>, targetSpans: seq<nat>, targetTags: seq<TagStack>, pool: Pool) {
    && spans != [] && targetSpans != [] && |targetSpans| == |targetTags|
    && targetSpans[|targetSpans| - 1] == |spans| - 1
    && forall i :: 0 <= i < |targetSpans| ==> MappedAt(spans, targetSpans, targetTags, pool, i)
  }

  ghost predicate MappedAt(spans: seq<Span>, targetSpans: seq<nat>, targetTags: seq<TagStack>, pool: Pool, i: nat)
    requires |targetSpans| == |targetTags| && i < |targetSpans|
  {
    targetSpans[i] < |spans| && spans[targetSpans[i]].tags <= targetTags[i] && Known(targetTags[i], pool)
  }

  /** Every tag of every span is opened. */
  ghost predicate NothingLost(spans: seq<Span>, word: seq<Event>) {
    forall s, t :: 0 <= s < |spans| && t in spans[s].tags ==> Event.Open(t) in word
  }

  lemma PathLosesNothing(spans: seq<Span>, pool: Pool, targetSpans: seq<nat>, targetTags: seq<TagStack>,
                         straggler: nat, path: seq<TagStack>)
    requires Mapped(spans, targetSpans, targetTags, pool) && |spans| - 1 <= straggler
    requires Caught(spans, straggler, targetSpans, path) && path != [] && path[0] == []
    requires forall i :: 0 <= i < |targetTags| ==> targetTags[i] in path
    ensures NothingLost(spans, Walk(path))
  {
    forall s, t | 0 <= s < |spans| && t in spans[s].tags ensures Event.Open(t) in Walk(path) {
      var stack := spans[s].tags;
      if stack !in path {
        var i :| 0 <= i < |targetSpans| && targetSpans[i] == s;
        assert MappedAt(spans, targetSpans, targetTags, pool, i);
        stack := targetTags[i];
      }
      var k :| 0 <= k < |path| && path[k] == stack;
      WalkOpens(path, k, t);
    }
  }

  /** The walk over the target after `n` tokens. */
  ghost predicate TargetWalked(spans: seq<Span>, targetSpans: seq<nat>, targetTags: seq<TagStack>, n: nat,
                               path: seq<TagStack>, prevTags: TagStack, straggler: nat) {
    && n <= |targetTags| == |targetSpans| && path != [] && path[0] == []
    && path[|path| - 1] == (if n == |targetTags| then [] else prevTags)
    && (forall i :: 0 <= i < n ==> targetTags[i] in path)
    && Caught(spans, straggler, targetSpans, path)
    && (n > 0 ==> targetSpans[n - 1] <= straggler)
  }

  lemma TargetWalkedMore(spans: seq<Span>, targetSpans: seq<nat>, targetTags: seq<TagStack>, n: nat,
                         path: seq<TagStack>, prevTags: TagStack, straggler: nat, path': seq<TagStack>, straggler': nat)
    requires n < |targetTags| && TargetWalked(spans, targetSpans, targetTags, n, path, prevTags, straggler)
    requires path <= path' && targetSpans[n] <= straggler' && Caught(spans, straggler', targetSpans, path')
    requires targetTags[n] in path' && path'[|path'| - 1] == (if n + 1 == |targetTags| then [] else targetTags[n])
    ensures TargetWalked(spans, targetSpans, targetTags, n + 1, path', targetTags[n], straggler')
  {
    assert path'[..|path|] == path;
    assert path'[0] == path[0];
    forall i | 0 <= i < n ensures targetTags[i] in path' {
      var k :| 0 <= k < |path| && path[k] == targetTags[i];
      assert path'[k] == path[k];
    }
  }

  /** Behind the markup before each of the first `n` tokens just the elements of the token's own tags are open. */
  ghost predicate StandsInside(tags: seq<TagStack>, pieces: seq<seq<Event>>, n: nat) {
    n <= |tags| && n <= |pieces| && forall i :: 0 <= i < n ==> InsideAt(tags, pieces, i)
  }

  ghost predicate InsideAt(tags: seq<TagStack>, pieces: seq<seq<Event>>, i: nat)
    requires i < |tags| && i < |pieces|
  {
    Play([], Join(pieces[..i + 1])) == Some(OnlyElements(tags[i]))
  }

  lemma {:induction false} InsideKept(tags: seq<TagStack>, pieces: seq<seq<Event>>, piece: seq<Event>, i: nat)
    requires i < |tags| && i < |pieces| && InsideAt(tags, pieces, i)
    ensures InsideAt(tags, pieces + [piece], i)
  {
    assert (pieces + [piece])[..i + 1] == pieces[..i + 1];
  }

  lemma {:induction false} InsideLast(tags: seq<TagStack>, pieces: seq<seq<Event>>, path: seq<TagStack>)
    requires 0 < |pieces| <= |tags| && path != [] && path[0] == [] && path[|path| - 1] == tags[|pieces| - 1]
    requires Join(pieces) == Walk(path)
    ensures InsideAt(tags, pieces, |pieces| - 1)
  {
    WalkPlays(path);
    assert pieces[..|pieces|] == pieces;
  }

  lemma {:induction false} StandsInsideMore(tags: seq<TagStack>, pieces: seq<seq<Event>>, piece: seq<Event>,
                                            path: seq<TagStack>)
    requires |pieces| < |tags| && StandsInside(tags, pieces, |pieces|)
    requires path != [] && path[0] == [] && path[|path| - 1] == tags[|pieces|] && Join(pieces + [piece]) == Walk(path)
    ensures StandsInside(tags, pieces + [piece], |pieces| + 1)
  {
    InsideLast(tags, pieces + [piece], path);
    forall i | 0 <= i < |pieces| ensures InsideAt(tags, pieces + [piece], i) {
      InsideKept(tags, pieces, piece, i);
    }
  }

  lemma {:induction false} StandsInsideKept(tags: seq<TagStack>, pieces: seq<seq<Event>>, piece: seq<Event>, n: nat)
    requires StandsInside(tags, pieces, n)
    ensures StandsInside(tags, pieces + [piece], n)
  {
    forall i | 0 <= i < n ensures InsideAt(tags, pieces + [piece], i) { InsideKept(tags, pieces, piece, i); }
  }

  predicate UnfoldTarget(k: nat, n: nat, htmls: seq<string>, pieces: seq<seq<Event>>, path: seq<TagStack>,
                         straggler: nat) { true }

  /** Everything the restored target promises, for the first `n` tokens. Unfolds only where `UnfoldTarget` is
      mentioned. */
  ghost predicate TargetUpTo(spans: seq<Span>, pool: Pool, tokens: seq<TokenView>, targetSpans: seq<nat>,
                             targetTags: seq<TagStack>, n: nat,
                             htmls: seq<string>, pieces: seq<seq<Event>>, path: seq<TagStack>, prevTags: TagStack,
                             straggler: nat) {
    forall k: nat {:trigger UnfoldTarget(k, n, htmls, pieces, path, straggler)} ::
      UnfoldTarget(k, n, htmls, pieces, path, straggler) ==>
        && TargetWalked(spans, targetSpans, targetTags, n, path, prevTags, straggler)
        && Restored(tokens, n, pool, htmls, pieces, Walk(path)) && |pieces| == n
        && StandsInside(targetTags, pieces, if n == |tokens| && n > 0 then n - 1 else n)
        && OnPath(spans, targetSpans, targetTags, pieces, n, path, straggler)
  }

  ghost predicate OnPath(spans: seq<Span>, targetSpans: seq<nat>, targetTags: seq<TagStack>, pieces: seq<seq<Event>>,
                         n: nat, path: seq<TagStack>, straggler: nat) {
    && n <= |targetSpans| == |targetTags| && (forall i :: 0 <= i < |targetSpans| ==> targetSpans[i] < |spans|)
    && Traced(spans, targetSpans, targetTags, pieces, n) && |pieces| == n
    && path == TargetPath(spans, targetSpans, targetTags, n) && straggler == Reached(targetSpans, n)
  }

  lemma OnPathMore(spans: seq<Span>, targetSpans: seq<nat>, targetTags: seq<TagStack>, pieces: seq<seq<Event>>, n: nat,
                   path: seq<TagStack>, straggler: nat, piece: seq<Event>, path': seq<TagStack>, straggler': nat)
    requires OnPath(spans, targetSpans, targetTags, pieces, n, path, straggler) && n < |targetSpans|
    requires straggler' == Max(straggler, targetSpans[n]) <= |spans|
    requires path' == TokenPath(spans, targetSpans, path, straggler, straggler', targetTags[n], n + 1 == |targetTags|)
    requires Join(pieces + [piece]) == Walk(path')
    ensures OnPath(spans, targetSpans, targetTags, pieces + [piece], n + 1, path', straggler')
  {
    assert (pieces + [piece])[..n + 1] == pieces + [piece];
    assert TracedAt(spans, targetSpans, targetTags, pieces + [piece], n);
    TracedMore(spans, targetSpans, targetTags, pieces, piece);
  }

  lemma TargetStart(spans: seq<Span>, pool: Pool, tokens: seq<TokenView>, targetSpans: seq<nat>,
                    targetTags: seq<TagStack>)
    requires Mapped(spans, targetSpans, targetTags, pool) && spans[0].tags == [] && |tokens| == |targetSpans|
    ensures TargetUpTo(spans, pool, tokens, targetSpans, targetTags, 0, [], [], [[]], [], 0)
  {
    forall i | 0 <= i < |targetSpans| ensures targetSpans[i] < |spans| {
      assert MappedAt(spans, targetSpans, targetTags, pool, i);
    }
    assert OnPath(spans, targetSpans, targetTags, [], 0, [[]], 0);
  }

  lemma TargetReady(spans: seq<Span>, pool: Pool, tokens: seq<TokenView>, targetSpans: seq<nat>,
                    targetTags: seq<TagStack>, n: nat,
                    htmls: seq<string>, pieces: seq<seq<Event>>, path: seq<TagStack>, prevTags: TagStack,
                    straggler: nat)
    requires TargetUpTo(spans, pool, tokens, targetSpans, targetTags, n, htmls, pieces, path, prevTags, straggler)
    requires n < |targetTags| && Mapped(spans, targetSpans, targetTags, pool)
    ensures targetSpans[n] < |spans| && Known(targetTags[n], pool)
    ensures path != [] && path[|path| - 1] == prevTags && Caught(spans, straggler, targetSpans, path)
  {
    assert UnfoldTarget(0, n, htmls, pieces, path, straggler);
    assert MappedAt(spans, targetSpans, targetTags, pool, n);
  }

  lemma TargetStep(spans: seq<Span>, pool: Pool, tokens: seq<TokenView>, targetSpans: seq<nat>,
                   targetTags: seq<TagStack>, n: nat,
                   htmls: seq<string>, pieces: seq<seq<Event>>, path: seq<TagStack>, prevTags: TagStack, straggler: nat,
                   html: string, straggler': nat, path': seq<TagStack>, piece: seq<Event>)
    requires TargetUpTo(spans, pool, tokens, targetSpans, targetTags, n, htmls, pieces, path, prevTags, straggler)
    requires n < |tokens| == |targetSpans| == |targetTags| && Written(html, tokens[n], pool, piece)
    requires path <= path' && Walk(path) + piece == Walk(path')
    requires targetSpans[n] <= straggler' && Caught(spans, straggler', targetSpans, path')
    requires targetTags[n] in path' && path'[|path'| - 1] == (if n + 1 == |tokens| then [] else targetTags[n])
    requires straggler' == Max(straggler, targetSpans[n]) <= |spans|
    requires path' == TokenPath(spans, targetSpans, path, straggler, straggler', targetTags[n], n + 1 == |tokens|)
    ensures TargetUpTo(spans, pool, tokens, targetSpans, targetTags, n + 1, htmls + [html], pieces + [piece], path',
                       targetTags[n], straggler')
  {
    assert UnfoldTarget(0, n, htmls, pieces, path, straggler);
    RestoredMore(tokens, n, pool, htmls, pieces, Walk(path), html, piece);
    TargetWalkedMore(spans, targetSpans, targetTags, n, path, prevTags, straggler, path', straggler');
    JoinMore(pieces, piece);
    OnPathMore(spans, targetSpans, targetTags, pieces, n, path, straggler, piece, path', straggler');
    if n + 1 < |tokens| {
      StandsInsideMore(targetTags, pieces, piece, path');
    } else {
      StandsInsideKept(targetTags, pieces, piece, n);
    }
  }

  lemma TargetEnd(spans: seq<Span>, pool: Pool, tokens: seq<TokenView>, targetSpans: seq<nat>,
                  targetTags: seq<TagStack>,
                  htmls: seq<string>, pieces: seq<seq<Event>>, path: seq<TagStack>, prevTags: TagStack, straggler: nat)
    requires TargetUpTo(spans, pool, tokens, targetSpans, targetTags, |tokens|, htmls, pieces, path, prevTags,
                        straggler)
    requires Mapped(spans, targetSpans, targetTags, pool) && |tokens| == |targetSpans|
    ensures WrittenAll(htmls, tokens, pool, pieces)
    ensures WellNested(Join(pieces)) && NothingLost(spans, Join(pieces))
    ensures StandsInside(targetTags, pieces, |tokens| - 1)
    ensures OnPath(spans, targetSpans, targetTags, pieces, |tokens|, path, straggler)
  {
    assert UnfoldTarget(0, |tokens|, htmls, pieces, path, straggler);
    RestoredAll(tokens, pool, htmls, pieces, Walk(path));
    PathLosesNothing(spans, pool, targetSpans, targetTags, straggler, path);
    WalkPlays(path);
  }

  /** Whatever spans the target's tokens were mapped to, the markup written into them is well nested, opens every tag of
      the source, and puts each token just inside the elements of its own tags. */
  method RestoreTarget(spans: seq<Span>, pool: Pool, tokens: seq<TokenView>, targetSpans: seq<nat>,
                       targetTags: seq<TagStack>)
    returns (htmls: seq<string>, ghost pieces: seq<seq<Event>>)
    requires KnownAll(spans, pool) && Mapped(spans, targetSpans, targetTags, pool) && spans[0].tags == []
    requires |tokens| == |targetSpans|
    ensures WrittenAll(htmls, tokens, pool, pieces)
    ensures WellNested(Join(pieces)) && NothingLost(spans, Join(pieces))
    ensures StandsInside(targetTags, pieces, |tokens| - 1)
    ensures (forall i :: 0 <= i < |tokens| ==> targetSpans[i] < |spans|)
         && Traced(spans, targetSpans, targetTags, pieces, |tokens|)
  {
    var prevTags, straggler := spans[0].tags, 0;
    ghost var path: seq<TagStack> := [[]];
    htmls, pieces := [], [];
    TargetStart(spans, pool, tokens, targetSpans, targetTags);
    for i := 0 to |tokens|
      invariant TargetUpTo(spans, pool, tokens, targetSpans, targetTags, i, htmls, pieces, path, prevTags, straggler)
    {
      TargetReady(spans, pool, tokens, targetSpans, targetTags, i, htmls, pieces, path, prevTags, straggler);
      var html, next;
      ghost var path', piece;
      html, next, path', piece :=
        RestoreTargetToken(spans, pool, tokens[i], i + 1 == |tokens|, targetSpans, i, targetTags[i], prevTags,
                           straggler, path);
      TargetStep(spans, pool, tokens, targetSpans, targetTags, i, htmls, pieces, path, prevTags, straggler, html, next,
                 path', piece);
      htmls, pieces, prevTags, straggler := htmls + [html], pieces + [piece], targetTags[i], next;
      path := path';
    }
    TargetEnd(spans, pool, tokens, targetSpans, targetTags, htmls, pieces, path, prevTags, straggler);
  }
}
