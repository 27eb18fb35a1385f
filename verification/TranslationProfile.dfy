/** What the Translation profile adds, withdraws, takes characters for and remembers, language by language and character
    by character. */
module TranslationProfile {
  import opened Utf
  import opened SentenceRules
  import opened Segmenter

  const ELLIPSIS: Scalar := 0x2026
  const DASHES: set<Scalar> := {0x2D, 0x2013, 0x2014}
  const QUOTES: set<Scalar> := {0x22, 0x27, 0x2019, 0x201D, 0x300D, 0x300F, 0xFF63, 0xBB}
  const OPENING: set<Scalar> := {0x28, 0x5B, 0x7B, 0xFF08, 0xFF3B, 0xFF5B}
  const CLOSING: set<Scalar> := {0x29, 0x5D, 0x7D, 0xFF09, 0xFF3D, 0xFF5D}
  const SEPARATORS: set<Kind> := {CR, LF, Sep}
  const SPACES: set<Kind> := {Sp, CR, LF, Sep}
  const TERMINATORS: set<Kind> := {ATerm, STerm}
  /** What is part of no sentence by itself. */
  const HOLLOW: set<Kind> := {Sp, CR, LF, Sep, ATerm, STerm, Close, Extend, Format}

  // ---- Single characters ----

  /** The first kind that is no space is upper case. */
  ghost predicate UpperNext(ks: seq<Kind>) {
    exists k: nat :: k < |ks| && ks[k] == Upper && forall i :: 0 <= i < k ==> ks[i] in SPACES
  }

  lemma UpperNextIff(ks: seq<Kind>)
    ensures UpperBehindSpaces(ks) <==> UpperNext(ks)
  {
    if ks != [] && Space(ks[0]) {
      UpperNextIff(ks[1..]);
      if UpperNext(ks[1..]) {
        var k: nat :| k < |ks[1..]| && ks[1..][k] == Upper && forall i :: 0 <= i < k ==> ks[1..][i] in SPACES;
        assert forall i :: 0 <= i < k + 1 ==> ks[i] in SPACES by {
          forall i | 0 <= i < k + 1 ensures ks[i] in SPACES { if i > 0 { assert ks[1..][i - 1] in SPACES; } }
        }
        assert ks[k + 1] == Upper;
      }
      if UpperNext(ks) {
        var k: nat :| k < |ks| && ks[k] == Upper && forall i :: 0 <= i < k ==> ks[i] in SPACES;
        assert k > 0;
        assert ks[1..][k - 1] == Upper;
        assert forall i :: 0 <= i < k - 1 ==> ks[1..][i] in SPACES;
      }
    } else if ks != [] && ks[0] == Upper {
      assert UpperNext(ks);
    }
  }

  /** The terminator behind which the text stands is a period, and no period stands before it. */
  ghost predicate SinglePeriod(text: seq<Byte>, t: nat) {
    t < |text| && text[t] == 0x2E && !(t > 0 && text[t - 1] == 0x2E)
  }

  /** A terminator and a space lie before the position, and no end of a paragraph. */
  ghost predicate Spaced(s: Scan) { s.active && s.afterSpace && s.rawLast !in SEPARATORS }

  /** At a dash that goes before upper case. */
  ghost predicate TurnAt(c: Scalar, p: Kind, ahead: seq<Kind>) { p == SContinue && c in DASHES && UpperNext(ahead) }

  /** Languages other than English and Russian add a boundary there and nowhere else. */
  lemma {:induction false} AddsElsewhere(o: Locale, text: seq<Byte>, at: nat, c: Scalar, ahead: seq<Kind>, p: Kind,
                                         s: Scan, x: Extra)
    requires o.language != "en" && o.language != "ru"
    ensures Adds(o, text, at, c, ahead, p, s, x) <==> Spaced(s) && TurnAt(c, p, ahead)
  {
    UpperNextIff(ahead);
  }

  /** English also adds one before lower case behind a single period. */
  lemma {:induction false} AddsInEnglish(o: Locale, text: seq<Byte>, at: nat, c: Scalar, ahead: seq<Kind>, p: Kind,
                                         s: Scan, x: Extra)
    requires o.language == "en"
    ensures Adds(o, text, at, c, ahead, p, s, x) <==>
            && Spaced(s)
            && (|| TurnAt(c, p, ahead)
                || (s.dotTail && SinglePeriod(text, x.termAt) && p == Kind.Lower))
  {
    UpperNextIff(ahead);
  }

  /** Russian also before a digit, a mention or a quotation behind a single period, before an ellipsis that goes before
      upper case, and at a dash of a dialogue. */
  lemma {:induction false} AddsInRussian(o: Locale, text: seq<Byte>, at: nat, c: Scalar, ahead: seq<Kind>, p: Kind,
                                         s: Scan, x: Extra)
    requires o.language == "ru"
    ensures Adds(o, text, at, c, ahead, p, s, x) <==>
            && Spaced(s)
            && (|| TurnAt(c, p, ahead)
                || (s.dotTail && SinglePeriod(text, x.termAt)
                    && (p in {Kind.Lower, Numeric} || c in {0x40, 0x22} || o.opening(c)))
                || (x.content && c == ELLIPSIS && ahead != [] && ahead[0] == Upper)
                || (p == SContinue && c in DASHES && o.dialogue(text, at)))
  {
    UpperNextIff(ahead);
  }

  /** The terminator is the last period of an ellipsis and the text goes on right behind it. */
  ghost predicate PauseAt(text: seq<Byte>, at: nat, s: Scan, x: Extra) {
    s.dotTail && 0 < x.termAt < |text| && at == x.termAt + 1 && text[x.termAt] == 0x2E && text[x.termAt - 1] == 0x2E
  }

  /** What withdraws a boundary in any language. */
  ghost predicate Withdrawn(o: Locale, text: seq<Byte>, at: nat, p: Kind, s: Scan, x: Extra) {
    || PauseAt(text, at, s, x)
    || (s.dotTail && o.protect(text, x.termAt, at))
    || !(x.content || s.afterSpace)
    || (x.quotedTail && (p == Kind.Lower || o.quoteSuffix(text, at)))
    || (x.bracketTail && p == Kind.Lower)
  }

  /** In Chinese, Japanese and Korean a letter without case behind a bracket's terminator withdraws it too; nothing is
      withdrawn behind the end of a paragraph. */
  lemma {:induction false} DropsIff(o: Locale, text: seq<Byte>, at: nat, p: Kind, s: Scan, x: Extra)
    ensures Drops(o, text, at, p, s, x) <==>
            && s.rawLast !in SEPARATORS
            && (|| Withdrawn(o, text, at, p, s, x)
                || (o.language in {"zh", "ja", "ko"} && x.bracketTail && p == OLetter))
  {}

  /** A character is a terminator beyond the table's only as an ellipsis in English and Russian or a question mark in
      Greek, and one of the table's is none only inside an address; an opening bracket closes nothing. */
  lemma {:induction false} TakenFor(o: Locale, c: Scalar, inUrl: bool)
    requires o.Valid()
    ensures var p, raw := TranslationKind(o, c, inUrl), o.property(c);
            && (o.language == "el" && c in {0x3B, 0x37E} ==> p == STerm)
            && (o.language in {"en", "ru"} && c == ELLIPSIS ==> p == ATerm)
            && (raw in TERMINATORS ==> p == if inUrl then Other else raw)
            && (raw == Close && o.opening(c) && c !in {0x3B, 0x37E, ELLIPSIS} ==> p == Other)
            && (raw !in TERMINATORS && c !in {0x3B, 0x37E, ELLIPSIS} && !(raw == Close && o.opening(c)) ==> p == raw)
            && (o.language != "el" && c in {0x3B, 0x37E} ==> p == SContinue)
            && (o.language !in {"en", "ru"} && c == ELLIPSIS ==> p == Other)
  {}

  /** What is remembered of a character: a terminator's place, whether there is content since the last cut, whether its
      tail holds a quotation mark, whether it stood inside a bracket, and how deep in brackets the text stands. */
  lemma {:induction false} Remembers(at: nat, c: Scalar, p: Kind, cut: bool, s: Scan, x: Extra, urlEnd: nat)
    ensures var x' := NextExtra(at, c, p, cut, s, x, urlEnd);
            && (p in TERMINATORS ==> x'.termAt == at && !x'.quotedTail && (x'.bracketTail <==> x.bracketDepth > 0))
            && (p !in TERMINATORS ==> x'.termAt == x.termAt && x'.bracketTail == x.bracketTail)
            && (p !in TERMINATORS ==> (x'.quotedTail <==>
                || x.quotedTail
                || (s.active && c in QUOTES && (p == Sp || (p == Close && !s.afterSpace)))))
            && (x'.content <==> p !in HOLLOW || (x.content && !cut))
            && (c in OPENING ==> x'.bracketDepth == x.bracketDepth + 1)
            && (c in CLOSING ==> x'.bracketDepth == if x.bracketDepth == 0 then 0 else x.bracketDepth - 1)
            && (c !in OPENING + CLOSING ==> x'.bracketDepth == x.bracketDepth)
            && x'.protectedUrlEnd == urlEnd
  {}

  // ---- Whole texts ----

  /** The kind the profile takes the character at `q` for, coming from the start of the text. */
  ghost function TakenAt(o: Locale, text: seq<Byte>, q: nat): Kind
    requires o.Valid() && ValidUtf8(text) && q < |text| && ValidFrom(text, q)
  {
    TranslationKindAt(o, text, q, StandAt(o, text, q).x)
  }

  /** The character at `q` is taken for a terminator. */
  ghost predicate TermAt(o: Locale, text: seq<Byte>, q: nat)
    requires o.Valid() && ValidUtf8(text)
  {
    q < |text| && ValidFrom(text, q) && TakenAt(o, text, q) in TERMINATORS
  }

  /** The character at `q` belongs to a sentence by itself. */
  ghost predicate ContentAt(o: Locale, text: seq<Byte>, q: nat)
    requires o.Valid() && ValidUtf8(text)
  {
    q < |text| && ValidFrom(text, q) && TakenAt(o, text, q) !in HOLLOW
  }

  ghost predicate CutAt(o: Locale, text: seq<Byte>, q: nat)
    requires o.Valid() && ValidUtf8(text)
  {
    q < |text| && ValidFrom(text, q) && TranslationCut(o, text, q)
  }

  /** An address may begin with the character at `q`. */
  ghost predicate StartAt(text: seq<Byte>, q: nat) {
    q < |text| && ValidFrom(text, q) && ScalarAt(text, q) == 'h' as int
  }

  /** Places in a text: terminators, characters of a sentence's own, cuts, and characters an address may begin with. */
  datatype Places = Places(terms: iset<nat>, contents: iset<nat>, cuts: iset<nat>, starts: iset<nat>)

  ghost function PlacesOf(o: Locale, text: seq<Byte>): Places
    requires o.Valid() && ValidUtf8(text)
  {
    Places(iset q: nat | TermAt(o, text, q), iset q: nat | ContentAt(o, text, q), iset q: nat | CutAt(o, text, q),
           iset q: nat | StartAt(text, q))
  }

  /** Something of `contents` lies before `at` with none of `cuts` behind it. */
  ghost predicate Since(contents: iset<nat>, cuts: iset<nat>, at: nat) {
    exists q: nat :: q in contents && q < at && NoneBetween(cuts, q, at)
  }

  ghost predicate NoneBetween(places: iset<nat>, q: nat, at: nat) { forall c: nat :: q < c < at ==> c !in places }

  /** `t` is the last of `terms` before `at`, or 0 when there is none. */
  ghost predicate LastOf(terms: iset<nat>, at: nat, t: nat) {
    (t == 0 || (t < at && t in terms)) && NoneBetween(terms, t, at)
  }

  /** `end` is the end of the address looked for at the last place before `at` that is not inside one, or 0 when there
      is none. */
  ghost predicate AddressOf(o: Locale, text: seq<Byte>, starts: iset<nat>, at: nat, end: nat) {
    || (end == 0 && forall q: nat :: q < at ==> q !in starts)
    || exists h: nat :: h in starts && h < at && AddressFrom(o, text, starts, h, at, end)
  }

  ghost predicate AddressFrom(o: Locale, text: seq<Byte>, starts: iset<nat>, h: nat, at: nat, end: nat) {
    end == o.urlEnd(text, h) && forall q: nat :: h < q < at && q in starts ==> q < end
  }

  /** What the profile remembers at `at` of all it has passed. */
  ghost predicate Recalls(o: Locale, text: seq<Byte>, all: Places, at: nat, x: Extra) {
    && (x.content <==> Since(all.contents, all.cuts, at)) && LastOf(all.terms, at, x.termAt)
    && AddressOf(o, text, all.starts, at, x.protectedUrlEnd)
  }

  predicate UnfoldRecalls(k: nat, o: Locale, text: seq<Byte>, all: Places, at: nat, x: Extra) { true }

  /** The same. Unfolds only where `UnfoldRecalls` is mentioned. */
  ghost predicate RecallsNow(o: Locale, text: seq<Byte>, all: Places, at: nat, x: Extra) {
    forall k: nat {:trigger UnfoldRecalls(k, o, text, all, at, x)} ::
      UnfoldRecalls(k, o, text, all, at, x) ==> Recalls(o, text, all, at, x)
  }

  predicate UnfoldStep(k: nat, all: Places, at: nat, next: nat, x: Extra, x': Extra) { true }

  // ---- Its proof, character by character ----

  lemma {:induction false} SinceMore(contents: iset<nat>, cuts: iset<nat>, at: nat, next: nat)
    requires at < next && NoneBetween(contents, at, next) && NoneBetween(cuts, at, next)
    ensures Since(contents, cuts, next) <==> at in contents || (Since(contents, cuts, at) && at !in cuts)
  {
    if Since(contents, cuts, next) && at !in contents {
      var q: nat :| q in contents && q < next && NoneBetween(cuts, q, next);
      assert q < at && NoneBetween(cuts, q, at);
    }
    if at in contents {
      assert NoneBetween(cuts, at, next);
    } else if Since(contents, cuts, at) && at !in cuts {
      var q: nat :| q in contents && q < at && NoneBetween(cuts, q, at);
      assert NoneBetween(cuts, q, next);
    }
  }

  lemma {:induction false} AddressMore(o: Locale, text: seq<Byte>, starts: iset<nat>, at: nat, next: nat, end: nat,
                                       end': nat)
    requires at < next && NoneBetween(starts, at, next) && AddressOf(o, text, starts, at, end)
    requires end' == if at in starts && end <= at then o.urlEnd(text, at) else end
    ensures AddressOf(o, text, starts, next, end')
  {
    if at in starts && end <= at {
      assert AddressFrom(o, text, starts, at, next, end');
    } else if h: nat :| h in starts && h < at && AddressFrom(o, text, starts, h, at, end) {
      assert AddressFrom(o, text, starts, h, next, end);
    }
  }

  /** From `x` to `x'` is what is remembered of the character from `at` to `next`. Unfolds only where `UnfoldStep` is
      mentioned. */
  ghost predicate Steps(o: Locale, text: seq<Byte>, all: Places, at: nat, next: nat, x: Extra, x': Extra) {
    forall k: nat {:trigger UnfoldStep(k, all, at, next, x, x')} :: UnfoldStep(k, all, at, next, x, x') ==>
      && at < next && NoneBetween(all.terms, at, next) && NoneBetween(all.contents, at, next)
      && NoneBetween(all.cuts, at, next) && NoneBetween(all.starts, at, next)
      && (x'.content <==> at in all.contents || (x.content && at !in all.cuts))
      && x'.termAt == (if at in all.terms then at else x.termAt)
      && x'.protectedUrlEnd ==
         (if at in all.starts && x.protectedUrlEnd <= at then o.urlEnd(text, at) else x.protectedUrlEnd)
  }

  lemma {:induction false} RecallsMore(o: Locale, text: seq<Byte>, all: Places, at: nat, next: nat, x: Extra, x': Extra)
    requires RecallsNow(o, text, all, at, x) && Steps(o, text, all, at, next, x, x')
    ensures RecallsNow(o, text, all, next, x')
  {
    assert UnfoldRecalls(0, o, text, all, at, x);
    assert UnfoldStep(0, all, at, next, x, x');
    SinceMore(all.contents, all.cuts, at, next);
    AddressMore(o, text, all.starts, at, next, x.protectedUrlEnd, x'.protectedUrlEnd);
  }

  lemma {:induction false} NoneInside(o: Locale, text: seq<Byte>, at: nat, q: nat)
    requires o.Valid() && ValidUtf8(text) && at < |text| && ValidFrom(text, at) && at < q < at + LengthAt(text, at)
    ensures !TermAt(o, text, q) && !ContentAt(o, text, q) && !CutAt(o, text, q) && !StartAt(text, q)
  {
    InnerTails(text, at, q);
  }

  predicate UnfoldPlaces(k: nat, o: Locale, text: seq<Byte>, all: Places) { true }

  ghost predicate AllPlaces(o: Locale, text: seq<Byte>, all: Places)
    requires o.Valid() && ValidUtf8(text)
  {
    forall k: nat {:trigger UnfoldPlaces(k, o, text, all)} ::
      UnfoldPlaces(k, o, text, all) ==> all == PlacesOf(o, text)
  }

  lemma {:induction false} StepRemembers(o: Locale, text: seq<Byte>, all: Places, at: nat)
    requires o.Valid() && ValidUtf8(text) && at < |text| && ValidFrom(text, at) && AllPlaces(o, text, all)
    ensures var next := at + LengthAt(text, at);
            Steps(o, text, all, at, next, StandAt(o, text, at).x, StandAt(o, text, next).x)
  {
    forall q: nat | at < q < at + LengthAt(text, at)
      ensures !TermAt(o, text, q) && !ContentAt(o, text, q) && !CutAt(o, text, q) && !StartAt(text, q)
    {
      NoneInside(o, text, at, q);
    }
    assert UnfoldPlaces(0, o, text, all);
    StandSnoc(o, text, at);
    var e, p := StandAt(o, text, at), TakenAt(o, text, at);
    var cut, urlEnd := CutsHere(o, text, at, e), UrlEndAt(o, text, at, e.x);
    Remembers(at, ScalarAt(text, at), p, cut, e.s, e.x, urlEnd);
    PastIsExtra(o, text, at, e);
    assert CutAt(o, text, at) <==> cut;
  }

  lemma {:induction false} PastIsExtra(o: Locale, text: seq<Byte>, at: nat, e: Stand)
    requires o.Valid() && at < |text| && ValidFrom(text, at)
    ensures Past(o, text, at, e).x
         == NextExtra(at, ScalarAt(text, at), TranslationKindAt(o, text, at, e.x), CutsHere(o, text, at, e), e.s, e.x,
                      UrlEndAt(o, text, at, e.x))
  {}

  predicate UnfoldHere(k: nat, o: Locale, text: seq<Byte>, all: Places, at: nat) { true }

  /** What is remembered at `at`, coming from the start of the text. Unfolds only where `UnfoldHere` is mentioned. */
  ghost predicate RecallsHere(o: Locale, text: seq<Byte>, all: Places, at: nat)
    requires o.Valid() && ValidUtf8(text)
  {
    forall k: nat {:trigger UnfoldHere(k, o, text, all, at)} ::
      UnfoldHere(k, o, text, all, at) ==> RecallsNow(o, text, all, at, StandAt(o, text, at).x)
  }

  lemma {:induction false} ReadUpTo(text: seq<Byte>, from: nat, at: nat) returns (next: nat)
    requires ValidFrom(text, from) && from < at <= |text| && ValidFrom(text, at)
    ensures next == from + LengthAt(text, from) && from < next <= at && ValidFrom(text, next)
  {
    next := from + LengthAt(text, from);
    if at < next { InnerTails(text, from, at); }
  }

  lemma {:induction false} RecallsOn(o: Locale, text: seq<Byte>, all: Places, from: nat, at: nat)
    requires o.Valid() && ValidUtf8(text) && from <= at <= |text| && ValidFrom(text, from) && ValidFrom(text, at)
    requires AllPlaces(o, text, all) && RecallsHere(o, text, all, from)
    ensures RecallsHere(o, text, all, at)
    decreases at - from
  {
    if from < at {
      RecallsStep(o, text, all, from);
      var next := ReadUpTo(text, from, at);
      RecallsOn(o, text, all, next, at);
    }
  }

  lemma {:induction false} RecallsStep(o: Locale, text: seq<Byte>, all: Places, at: nat)
    requires o.Valid() && ValidUtf8(text) && at < |text| && ValidFrom(text, at)
    requires AllPlaces(o, text, all) && RecallsHere(o, text, all, at)
    ensures RecallsHere(o, text, all, at + LengthAt(text, at))
  {
    assert UnfoldHere(0, o, text, all, at);
    StepRemembers(o, text, all, at);
    var next := at + LengthAt(text, at);
    RecallsMore(o, text, all, at, next, StandAt(o, text, at).x, StandAt(o, text, next).x);
  }

  /** At every position the profile knows the last terminator, whether there is content since the last cut, and where
      the address ends that was begun last. */
  lemma {:induction false} RecallsAlways(o: Locale, text: seq<Byte>, at: nat)
    requires o.Valid() && ValidUtf8(text) && at <= |text| && ValidFrom(text, at)
    ensures Recalls(o, text, PlacesOf(o, text), at, StandAt(o, text, at).x)
  {
    var all := PlacesOf(o, text);
    RecallsOn(o, text, all, 0, at);
    assert UnfoldHere(0, o, text, all, at);
    assert UnfoldRecalls(0, o, text, all, at, StandAt(o, text, at).x);
  }
}
