/** What a document's plain text is, said of its lexemes: its texts, each behind the separator that is due. */
module PlainTexts {
  import opened HtmlParsing

  // ---- The lexemes that are read, those of ignored elements left out ----

  /** Where reading goes on behind lexeme `i`. */
  function After(o: Options, lex: seq<Lexeme>, i: nat): (j: nat)
    requires i < |lex|
    ensures i < j <= |lex|
  {
    if lex[i].token.TagStart? && Lower(lex[i].token.name) in o.ignoredTags then
      match AfterIgnored(lex, i + 1, Lower(lex[i].token.name))
      case None => |lex|
      case Some(j) => j
    else i + 1
  }

  /** Reading on from lexeme `i`, lexeme `p` is read. */
  predicate OnWay(o: Options, lex: seq<Lexeme>, i: nat, p: nat)
    decreases p - i
  {
    i == p || (i < p && i < |lex| && OnWay(o, lex, After(o, lex, i), p))
  }

  /** The texts read from lexeme `i` on. */
  function Texts(o: Options, lex: seq<Lexeme>, i: nat): seq<nat>
    decreases |lex| - i
  {
    if i >= |lex| then []
    else (if lex[i].token.Text? then [i] else []) + Texts(o, lex, After(o, lex, i))
  }

  // ---- Separators ----

  /** A start or end tag that is no inline one; the end of a void element is none. */
  predicate BlockTag(o: Options, lex: seq<Lexeme>, p: nat) {
    p < |lex| &&
    match lex[p].token
    case TagStart(name) => Lower(name) !in o.inlineTags
    case TagEnd(name) => Lower(name) !in o.voidTags + o.inlineTags
    case _ => false
  }

  /** An inline tag that is not one of those within words. */
  predicate WordTag(o: Options, lex: seq<Lexeme>, p: nat) {
    p < |lex| &&
    match lex[p].token
    case TagStart(name) => Lower(name) in o.inlineTags - o.inWordTags
    case TagEnd(name) => Lower(name) in o.inlineTags - o.inWordTags - o.voidTags
    case _ => false
  }

  predicate BlockBetween(o: Options, lex: seq<Lexeme>, i: nat, at: nat) {
    exists p :: i <= p < at && OnWay(o, lex, i, p) && BlockTag(o, lex, p)
  }

  predicate WordTagBetween(o: Options, lex: seq<Lexeme>, i: nat, at: nat) {
    exists p :: i <= p < at && OnWay(o, lex, i, p) && WordTag(o, lex, p)
  }

  /** Neither side of the place between two texts is empty or has a delimiter there. */
  predicate InsideWord(o: Options, left: string, right: string) {
    && left != "" && right != "" && o.continuationDelimiters != ""
    && (forall d <- o.continuationDelimiters :: left[|left| - 1] != d && right[0] != d)
  }

  predicate EndsInBreak(s: string) { |s| >= 2 && s[|s| - 2] == '\n' && s[|s| - 1] == '\n' }

  /** What stands between `before` and the text at `at`, the first one from lexeme `i` on: a paragraph break if a block
      tag is in between and there is text to break off that does not end in one, then a space if a word tag is in
      between that would otherwise join two parts to one word. */
  ghost predicate IsSeparator(o: Options, lex: seq<Lexeme>, i: nat, at: nat, before: string, separator: string)
    requires at < |lex| && lex[at].token.Text?
  {
    exists newlines: string, space: string ::
      && separator == newlines + space
      && newlines == (if BlockBetween(o, lex, i, at) && |before| >= 2 && !EndsInBreak(before) then ['\n', '\n'] else [])
      && space == (if WordTagBetween(o, lex, i, at) && o.substituteInlineTagsWithSpaces
                      && InsideWord(o, before + newlines, lex[at].token.value) then [' '] else [])
  }

  /** `plain` is `before` and then, from lexeme `i` on, each of these texts behind its separator. */
  ghost predicate Spread(o: Options, lex: seq<Lexeme>, i: nat, before: string, texts: seq<nat>, separators: seq<string>,
                         plain: string)
    decreases |texts|
  {
    if texts == [] then separators == [] && plain == before
    else
      && separators != [] && texts[0] < |lex| && lex[texts[0]].token.Text?
      && IsSeparator(o, lex, i, texts[0], before, separators[0])
      && Spread(o, lex, texts[0] + 1, before + separators[0] + lex[texts[0]].token.value, texts[1..], separators[1..],
                plain)
  }

  /** `plain` is the document's texts in order, each behind its separator, and nothing else. */
  ghost predicate Plainly(o: Options, lex: seq<Lexeme>, plain: string) {
    exists separators: seq<string> :: Spread(o, lex, 0, "", Texts(o, lex, 0), separators, plain)
  }

  lemma {:induction false} OnWayOn(o: Options, lex: seq<Lexeme>, i: nat, at: nat)
    requires OnWay(o, lex, i, at) && at < |lex|
    ensures OnWay(o, lex, i, After(o, lex, at))
    decreases at - i
  {
    if i < at {
      OnWayOn(o, lex, After(o, lex, i), at);
    } else {
      assert OnWay(o, lex, After(o, lex, at), After(o, lex, at));
    }
  }

  lemma {:induction false} NoneSkipped(o: Options, lex: seq<Lexeme>, i: nat, at: nat, p: nat)
    requires OnWay(o, lex, i, at) && at < |lex| && OnWay(o, lex, i, p) && p < After(o, lex, at)
    ensures p <= at
    decreases at - i
  {
    if i < at && i < p { NoneSkipped(o, lex, After(o, lex, i), at, p); }
  }

  /** One more lexeme lies in between. */
  lemma {:induction false} BetweenMore(o: Options, lex: seq<Lexeme>, i: nat, at: nat)
    requires i <= at && OnWay(o, lex, i, at) && at < |lex|
    ensures BlockBetween(o, lex, i, After(o, lex, at)) <==> BlockBetween(o, lex, i, at) || BlockTag(o, lex, at)
    ensures WordTagBetween(o, lex, i, After(o, lex, at)) <==> WordTagBetween(o, lex, i, at) || WordTag(o, lex, at)
  {
    var next := After(o, lex, at);
    if p :| i <= p < next && OnWay(o, lex, i, p) && BlockTag(o, lex, p) { NoneSkipped(o, lex, i, at, p); }
    if p :| i <= p < next && OnWay(o, lex, i, p) && WordTag(o, lex, p) { NoneSkipped(o, lex, i, at, p); }
  }

  /** What is due is what lies between `i` and `at`. */
  ghost predicate Due(o: Options, lex: seq<Lexeme>, i: nat, at: nat, f: Flow) {
    && i <= at && OnWay(o, lex, i, at)
    && (f.sentenceBreak <==> BlockBetween(o, lex, i, at)) && (f.wordBreak <==> WordTagBetween(o, lex, i, at))
  }

  lemma DueMore(o: Options, lex: seq<Lexeme>, i: nat, at: nat, f: Flow) returns (g: Flow)
    requires Due(o, lex, i, at, f) && at < |lex| && !lex[at].token.Text?
    ensures g == Passing(o, lex[at].token, f) && Due(o, lex, i, After(o, lex, at), g)
  {
    g := Passing(o, lex[at].token, f);
    OnWayOn(o, lex, i, at);
    BetweenMore(o, lex, i, at);
  }

  /** What a lexeme other than text changes. */
  function Passing(o: Options, t: Token, f: Flow): Flow {
    match t
    case TagStart(name) => f.Breaking(o, Lower(name))
    case TagEnd(name) => if Lower(name) in o.voidTags then f else f.Breaking(o, Lower(name))
    case _ => f
  }

  lemma {:induction false} PassingIs(o: Options, lex: seq<Lexeme>, at: nat, f: Flow)
    requires at < |lex| && !lex[at].token.Text?
    ensures PlainFrom(o, lex, at, f) == PlainFrom(o, lex, After(o, lex, at), Passing(o, lex[at].token, f))
    ensures Texts(o, lex, at) == Texts(o, lex, After(o, lex, at))
  {}

  lemma {:induction false} SeparatorIs(o: Options, lex: seq<Lexeme>, i: nat, at: nat, f: Flow)
    returns (separator: string)
    requires Due(o, lex, i, at, f) && at < |lex| && lex[at].token.Text?
    ensures IsSeparator(o, lex, i, at, f.source, separator)
    ensures Separated(o, f, lex[at].token.value) == f.source + separator
  {
    var newlines, space := SeparatedAs(o, f, lex[at].token.value);
    separator := newlines + space;
  }

  lemma SeparatedAs(o: Options, f: Flow, value: string) returns (newlines: string, space: string)
    ensures newlines == if f.sentenceBreak && |f.source| >= 2 && !EndsInBreak(f.source) then ['\n', '\n'] else []
    ensures space == if f.wordBreak && o.substituteInlineTagsWithSpaces && InsideWord(o, f.source + newlines, value)
                     then [' '] else []
    ensures Separated(o, f, value) == f.source + (newlines + space)
  {
    newlines := if f.sentenceBreak && UnbrokenEnd(f.source) then ['\n', '\n'] else [];
    var broken := f.source + newlines;
    space := if f.wordBreak && o.substituteInlineTagsWithSpaces && IsContinuation(o, broken, value) then [' '] else [];
    UnbrokenIff(f.source);
    ContinuationIff(o, broken, value);
    assert broken + space == f.source + (newlines + space);
    assert broken + [] == broken && f.source + [] == f.source;
  }

  lemma UnbrokenIff(s: string)
    ensures UnbrokenEnd(s) <==> |s| >= 2 && !EndsInBreak(s)
  {
    if |s| >= 2 { assert s[|s| - 2..] == [s[|s| - 2], s[|s| - 1]]; }
  }

  lemma ContinuationIff(o: Options, left: string, right: string)
    ensures IsContinuation(o, left, right) <==> InsideWord(o, left, right)
  {}

  predicate UnfoldRest(k: nat, o: Options, lex: seq<Lexeme>, i: nat, at: nat, f: Flow, separators: seq<string>) { true }

  /** What reading on from `at` gives is spread behind what there is. Unfolds only where `UnfoldRest` is mentioned. */
  ghost predicate Rest(o: Options, lex: seq<Lexeme>, i: nat, at: nat, f: Flow, separators: seq<string>) {
    forall k: nat {:trigger UnfoldRest(k, o, lex, i, at, f, separators)} ::
      UnfoldRest(k, o, lex, i, at, f, separators) ==>
      Spread(o, lex, i, f.source, Texts(o, lex, at), separators, PlainFrom(o, lex, at, f))
  }

  lemma {:induction false} NoRest(o: Options, lex: seq<Lexeme>, i: nat, at: nat, f: Flow)
    requires at >= |lex|
    ensures Rest(o, lex, i, at, f, [])
  {}

  lemma {:induction false} TextRest(o: Options, lex: seq<Lexeme>, i: nat, at: nat, f: Flow, separator: string,
                                    rest: seq<string>)
    requires at < |lex| && lex[at].token.Text? && IsSeparator(o, lex, i, at, f.source, separator)
    requires Separated(o, f, lex[at].token.value) == f.source + separator
    requires Rest(o, lex, at + 1, at + 1, Flow(f.source + separator + lex[at].token.value, false, false), rest)
    ensures Rest(o, lex, i, at, f, [separator] + rest)
  {
    var g := Flow(f.source + separator + lex[at].token.value, false, false);
    assert UnfoldRest(0, o, lex, at + 1, at + 1, g, rest);
    SpreadText(o, lex, i, at, f.source, separator, rest, PlainFrom(o, lex, at + 1, g));
    assert PlainFrom(o, lex, at, f) == PlainFrom(o, lex, at + 1, g);
  }

  lemma {:induction false} SpreadText(o: Options, lex: seq<Lexeme>, i: nat, at: nat, before: string, separator: string,
                                      rest: seq<string>, plain: string)
    requires at < |lex| && lex[at].token.Text? && IsSeparator(o, lex, i, at, before, separator)
    requires Spread(o, lex, at + 1, before + separator + lex[at].token.value, Texts(o, lex, at + 1), rest, plain)
    ensures Spread(o, lex, i, before, Texts(o, lex, at), [separator] + rest, plain)
  {
    assert Texts(o, lex, at)[1..] == Texts(o, lex, at + 1) && ([separator] + rest)[1..] == rest;
  }

  lemma {:induction false} OtherRest(o: Options, lex: seq<Lexeme>, i: nat, at: nat, f: Flow, separators: seq<string>)
    requires at < |lex| && !lex[at].token.Text?
    requires Rest(o, lex, i, After(o, lex, at), Passing(o, lex[at].token, f), separators)
    ensures Rest(o, lex, i, at, f, separators)
  {
    assert UnfoldRest(0, o, lex, i, After(o, lex, at), Passing(o, lex[at].token, f), separators);
    PassingIs(o, lex, at, f);
  }

  lemma {:induction false} FromHereOn(o: Options, lex: seq<Lexeme>, i: nat, at: nat, f: Flow)
    returns (separators: seq<string>)
    requires Due(o, lex, i, at, f)
    ensures Rest(o, lex, i, at, f, separators)
    decreases |lex| - at
  {
    if at >= |lex| {
      separators := [];
      NoRest(o, lex, i, at, f);
    } else if lex[at].token.Text? {
      var separator := SeparatorIs(o, lex, i, at, f);
      var g := Flow(f.source + separator + lex[at].token.value, false, false);
      NothingDue(o, lex, at + 1, g);
      var rest := FromHereOn(o, lex, at + 1, at + 1, g);
      TextRest(o, lex, i, at, f, separator, rest);
      separators := [separator] + rest;
    } else {
      var g := DueMore(o, lex, i, at, f);
      separators := FromHereOn(o, lex, i, After(o, lex, at), g);
      OtherRest(o, lex, i, at, f, separators);
    }
  }

  lemma {:induction false} NothingDue(o: Options, lex: seq<Lexeme>, at: nat, f: Flow)
    requires !f.sentenceBreak && !f.wordBreak
    ensures Due(o, lex, at, at, f)
  {}

  /** The plain text is the texts in order, each behind the separator that is due. */
  lemma PlainTextIs(o: Options, lex: seq<Lexeme>)
    ensures Plainly(o, lex, PlainText(o, lex))
  {
    var start := Flow("", false, false);
    NothingDue(o, lex, 0, start);
    var separators := FromHereOn(o, lex, 0, 0, start);
    assert UnfoldRest(0, o, lex, 0, 0, start, separators);
  }
}
