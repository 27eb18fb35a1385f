/** Splitting UTF-8 text into sentences: the scan over bytes, and the views it hands out. */
module Segmenter {
  import opened Utf
  import opened SentenceRules

  datatype Profile = Unicode | Translation
  datatype Mode = Paragraph | Sentence | Wrapped

  /** The tables and language-dependent helpers, as functions of the text and of positions in it. */
  datatype Locale = Locale(language: string, property: Scalar -> Kind, opening: Scalar -> bool,
                           protect: (seq<Byte>, nat, nat) -> bool, urlEnd: (seq<Byte>, nat) -> nat,
                           quoteSuffix: (seq<Byte>, nat) -> bool, dialogue: (seq<Byte>, nat) -> bool)
  {
    /** What the property table says about the few characters the code names. */
    ghost predicate Valid() {
      && property(0x0A) == LF && property(0x0D) == CR && property(0x20) == Sp && property(0x09) == Sp
      && property(0x2026) == Other && property(0x3B) == SContinue && property(0x37E) == SContinue
    }
  }

  // ---- Positions ----

  /** Not inside a scalar's octets. */
  predicate Boundary(text: seq<Byte>, at: nat) { at == |text| || (at < |text| && !Tail(text[at])) }

  lemma InnerTails(text: seq<Byte>, at: nat, q: nat)
    requires at < q < |text| && LengthAt(text, at) > 0 && q < at + LengthAt(text, at)
    ensures Tail(text[q])
  {}

  /** In valid text the places to read on from are the boundaries. */
  lemma {:induction false} ValidAtBoundary(text: seq<Byte>, from: nat, at: nat)
    requires ValidFrom(text, from) && from <= at <= |text|
    ensures ValidFrom(text, at) <==> Boundary(text, at)
    decreases |text| - from
  {
    if from < at {
      var next := from + LengthAt(text, from);
      if next <= at {
        ValidAtBoundary(text, next, at);
      } else {
        InnerTails(text, from, at);
      }
    }
  }

  function KindAt(o: Locale, text: seq<Byte>, at: nat): Kind
    requires at < |text| && LengthAt(text, at) > 0
  {
    o.property(ScalarAt(text, at))
  }

  /** Kinds of the scalars that begin in `[from, to)`. */
  function Kinds(o: Locale, text: seq<Byte>, from: nat, to: nat): (ks: seq<Kind>)
    requires ValidFrom(text, from)
    ensures from < to && from < |text| ==> ks != []
    decreases |text| - from
  {
    if from >= to || from == |text| then []
    else [KindAt(o, text, from)] + Kinds(o, text, from + LengthAt(text, from), to)
  }

  lemma {:induction false} KindsSnoc(o: Locale, text: seq<Byte>, from: nat, at: nat)
    requires ValidFrom(text, from) && from <= at < |text| && ValidFrom(text, at)
    ensures Kinds(o, text, from, at + LengthAt(text, at)) == Kinds(o, text, from, at) + [KindAt(o, text, at)]
    decreases |text| - from
  {
    var n := LengthAt(text, from);
    if from < at {
      if at < from + n { InnerTails(text, from, at); }
      KindsSnoc(o, text, from + n, at);
      assert [KindAt(o, text, from)] + (Kinds(o, text, from + n, at) + [KindAt(o, text, at)])
          == ([KindAt(o, text, from)] + Kinds(o, text, from + n, at)) + [KindAt(o, text, at)];
    } else {
      assert Kinds(o, text, from + n, from + n) == [];
    }
  }

  // ---- Reading ----

  datatype Point = Point(value: Scalar, end: nat, kind: Kind)

  /** Accepts what the codec accepts. */
  method Read(o: Locale, text: seq<Byte>, at: nat) returns (r: Result<Point>)
    requires at < |text|
    ensures r.Ok? <==> LengthAt(text, at) > 0
    ensures r.Ok? ==> r.value == Point(ScalarAt(text, at), at + LengthAt(text, at), KindAt(o, text, at))
  {
    var lead: int := text[at];
    if lead < 0x80 {
      return Ok(Point(lead, at + 1, o.property(lead)));
    }
    var count, value;
    if 0xC2 <= lead <= 0xDF {
      count, value := 2, lead % 32;
    } else if 0xE0 <= lead <= 0xEF {
      count, value := 3, lead % 16;
    } else if 0xF0 <= lead <= 0xF4 {
      count, value := 4, lead % 8;
    } else {
      return Err(BadLead);
    }
    if count > |text| - at {
      return Err(Truncated);
    }
    ghost var first := value;
    LeadBits(text[at]);
    var tails := ReadTails(text, at, value, count);
    if tails.Err? { return Err(tails.error); }
    value := tails.value;
    var minimum := if count == 2 then 0x80 else if count == 3 then 0x800 else 0x1_0000;
    ChecksAreGrammar(text, at, first, count - 1, minimum);
    if (count == 3 && value < 0x800) || (count == 4 && value < 0x1_0000) || 0xD800 <= value <= 0xDFFF
      || value > 0x10_FFFF {
      return Err(BadScalar);
    }
    assert value >= minimum by {
      if count == 2 { TwoBytes(text, at, first); }
    }
    r := Ok(Point(value, at + count, o.property(value)));
  }

  /** Adds the bits of the continuation bytes to those of the lead byte. */
  method ReadTails(text: seq<Byte>, at: nat, lead: nat, count: nat) returns (r: Result<int>)
    requires 2 <= count <= 4 && at + count <= |text|
    ensures r.Ok? ==> r.value == Bits(text, at, lead, count - 1) && forall j :: at < j < at + count ==> Tail(text[j])
    ensures r.Err? ==> exists j :: at < j < at + count && !TailAt(text, j)
  {
    var value: int := lead;
    for i := 1 to count
      invariant value == Bits(text, at, lead, i - 1)
      invariant forall j :: at < j < at + i ==> Tail(text[j])
    {
      var next := text[at + i];
      TailBits(next);
      if next / 64 != 2 {
        assert !TailAt(text, at + i);
        return Err(BadContinuation);
      }
      value := value * 64 + next % 64;
    }
    r := Ok(value);
  }

  lemma TwoBytes(text: seq<Byte>, at: nat, lead: nat)
    requires at + 1 < |text| && lead >= 2
    ensures Bits(text, at, lead, 1) >= 0x80
  {
    assert Bits(text, at, lead, 0) == lead;
  }

  /** Reads through the text once; the codec accepts the same texts. */
  method Validate(o: Locale, text: seq<Byte>) returns (r: Result<nat>)
    ensures r.Ok? <==> ValidUtf8(text)
  {
    var at := 0;
    while at < |text|
      invariant at <= |text| && (ValidUtf8(text) <==> ValidFrom(text, at))
      decreases |text| - at
    {
      var point := Read(o, text, at);
      if point.Err? {
        return Err(point.error);
      }
      at := point.value.end;
    }
    r := Ok(at);
  }

  /** Start of the last scalar before `at`. */
  method Previous(text: seq<Byte>, at: nat) returns (p: nat)
    requires 0 < at <= |text| && ValidUtf8(text) && Boundary(text, at)
    ensures p < at && Boundary(text, p) && LengthAt(text, p) > 0 && p + LengthAt(text, p) == at
  {
    p := at - 1;
    while p > 0 && 0x80 <= text[p] < 0xC0
      invariant p < at && forall q :: p < q < at ==> Tail(text[q])
    {
      p := p - 1;
    }
    ValidAtBoundary(text, 0, at);
    if p == 0 { assert Boundary(text, 0) by { ValidAtBoundary(text, 0, 0); } }
    ValidAtBoundary(text, 0, p);
    var next := p + LengthAt(text, p);
    ValidAtBoundary(text, 0, next);
    if at < next { InnerTails(text, p, at); }
  }

  /** The look-ahead of rule SB8 from `at` on. */
  method LowerAhead(o: Locale, text: seq<Byte>, at: nat) returns (r: Result<bool>)
    requires at <= |text|
    ensures ValidFrom(text, at) ==> r.Ok? && (r.value <==> LowerFollows(Kinds(o, text, at, |text|)))
  {
    var i := at;
    while i < |text|
      invariant i <= |text| && SameAhead(o, text, at, i)
      decreases |text| - i
    {
      AheadHere(o, text, at, i);
      var read := Read(o, text, i);
      if read.Err? {
        return Err(read.error);
      }
      var p := read.value.kind;
      if p == Kind.Lower {
        return Ok(true);
      }
      if p == Upper || p == OLetter || Separator(p) || Term(p) {
        return Ok(false);
      }
      i := read.value.end;
    }
    assert UnfoldAhead(0, o, text, at, i);
    r := Ok(false);
  }

  predicate UnfoldAhead(k: nat, o: Locale, text: seq<Byte>, at: nat, i: nat) { true }

  /** The look-ahead from `at` on is the one from `i` on. Unfolds only where `UnfoldAhead` is mentioned. */
  ghost predicate SameAhead(o: Locale, text: seq<Byte>, at: nat, i: nat) {
    forall k: nat {:trigger UnfoldAhead(k, o, text, at, i)} :: UnfoldAhead(k, o, text, at, i) && ValidFrom(text, at) ==>
      ValidFrom(text, i) && (LowerFollows(Kinds(o, text, at, |text|)) <==> LowerFollows(Kinds(o, text, i, |text|)))
  }

  lemma AheadHere(o: Locale, text: seq<Byte>, at: nat, i: nat)
    requires at <= |text| && i < |text| && SameAhead(o, text, at, i)
    ensures ValidFrom(text, at) ==> LengthAt(text, i) > 0
    ensures LengthAt(text, i) > 0 ==>
              var p := KindAt(o, text, i);
              && (ValidFrom(text, at) && Stops(p) ==> (LowerFollows(Kinds(o, text, at, |text|)) <==> p == Kind.Lower))
              && (!Stops(p) ==> SameAhead(o, text, at, i + LengthAt(text, i)))
  {
    assert UnfoldAhead(0, o, text, at, i);
    if ValidFrom(text, at) {
      var j := i + LengthAt(text, i);
      var right := Kinds(o, text, i, |text|);
      assert right[0] == KindAt(o, text, i) && right[1..] == Kinds(o, text, j, |text|);
      if !Stops(right[0]) {
        SkipsLower(right);
      } else if right[0] != Kind.Lower {
        StopsAtOnce(right);
      }
    }
  }

  lemma StopsAtOnce(right: seq<Kind>)
    requires right != [] && Stops(right[0]) && right[0] != Kind.Lower
    ensures !LowerFollows(right)
  {}

  // ---- The Translation profile ----

  /** What the Translation profile remembers besides. */
  datatype Extra = Extra(termAt: nat, content: bool, quotedTail: bool, bracketTail: bool, protectedUrlEnd: nat,
                         bracketDepth: nat)

  const DOT: Byte := 0x2E

  predicate Quote(c: Scalar) {
    c == 0x22 || c == 0x27 || c == 0x2019 || c == 0x201D || c == 0x300D || c == 0x300F || c == 0xFF63 || c == 0xBB
  }

  predicate OpenBracket(c: Scalar) { c == 0x28 || c == 0x5B || c == 0x7B || c == 0xFF08 || c == 0xFF3B || c == 0xFF5B }

  predicate CloseBracket(c: Scalar) { c == 0x29 || c == 0x5D || c == 0x7D || c == 0xFF09 || c == 0xFF3D || c == 0xFF5D }

  predicate Dash(c: Scalar) { c == 0x2D || c == 0x2013 || c == 0x2014 }

  predicate Cjk(language: string) { language == "zh" || language == "ja" || language == "ko" }

  predicate EnglishOrRussian(o: Locale) { o.language == "en" || o.language == "ru" }

  /** The kind the Translation profile takes a character for, in a protected address or not. */
  function TranslationKind(o: Locale, c: Scalar, inUrl: bool): (p: Kind)
    requires o.Valid()
    ensures Fits(o, c, p)
  {
    if o.language == "el" && (c == 0x3B || c == 0x37E) then STerm
    else if EnglishOrRussian(o) && c == 0x2026 then ATerm
    else if (inUrl && Term(o.property(c))) || (o.property(c) == Close && o.opening(c)) then Other
    else o.property(c)
  }

  /** Where an address that covers `at` ends: a new one begins at an `h` behind the last one. */
  function UrlEnd(o: Locale, text: seq<Byte>, at: nat, c: Scalar, before: nat): nat {
    if at >= before && c == 0x68 then o.urlEnd(text, at) else before
  }

  /** Whatever a profile makes of a character, it leaves paragraph separators alone. */
  predicate RawFits(raw: Kind, kind: Kind) { raw == kind || (!Separator(raw) && !Separator(kind)) }

  /** What a profile may take a character for. */
  predicate Fits(o: Locale, c: Scalar, p: Kind) {
    RawFits(p, o.property(c)) && (Term(p) ==> TermLike(o, c)) && (Trails(p) ==> p == o.property(c))
  }

  predicate StartsUpper(ks: seq<Kind>) { ks != [] && ks[0] == Upper }

  predicate UpperBehindSpaces(ks: seq<Kind>) {
    if ks != [] && Space(ks[0]) then UpperBehindSpaces(ks[1..]) else StartsUpper(ks)
  }

  /** A single period, not the last one of an ellipsis. */
  predicate SingleDotAt(text: seq<Byte>, t: nat) { DotAt(text, t) && (t == 0 || text[t - 1] != DOT) }

  predicate DotAt(text: seq<Byte>, t: nat) { t < |text| && text[t] == DOT }

  /** Where the Translation profile adds a boundary behind a terminator and spaces, with kinds `ahead` to come: before
      lower case after a single dot; in Russian also before digits, mentions and quotes, and before an ellipsis or a
      dialogue dash; before a dash with upper case behind it. */
  ghost predicate Adds(o: Locale, text: seq<Byte>, at: nat, c: Scalar, ahead: seq<Kind>, p: Kind, s: Scan, x: Extra) {
    && s.active && s.afterSpace && !Separator(s.rawLast)
    && (|| (EnglishOrRussian(o) && s.dotTail && SingleDotAt(text, x.termAt) && p == Kind.Lower)
        || (o.language == "ru" && s.dotTail && SingleDotAt(text, x.termAt)
            && (p == Numeric || c == 0x40 || c == 0x22 || o.opening(c)))
        || AddsAhead(o, text, at, c, ahead, p, x))
  }

  ghost predicate AddsAhead(o: Locale, text: seq<Byte>, at: nat, c: Scalar, ahead: seq<Kind>, p: Kind, x: Extra) {
    || (o.language == "ru" && x.content && c == 0x2026 && StartsUpper(ahead))
    || (p == SContinue && Dash(c) && (UpperBehindSpaces(ahead) || (o.language == "ru" && o.dialogue(text, at))))
  }

  /** Where it takes one back that is not behind a separator: behind an attached ellipsis or a protected dot, before any
      content, and where a quotation or a bracket goes on. */
  ghost predicate Drops(o: Locale, text: seq<Byte>, at: nat, p: Kind, s: Scan, x: Extra) {
    && !Separator(s.rawLast)
    && (|| (s.dotTail && at == x.termAt + 1 && DotAt(text, x.termAt) && !SingleDotAt(text, x.termAt))
        || (s.dotTail && o.protect(text, x.termAt, at))
        || (!x.content && !s.afterSpace)
        || (x.quotedTail && (o.quoteSuffix(text, at) || p == Kind.Lower))
        || (x.bracketTail && (p == Kind.Lower || (Cjk(o.language) && p == OLetter))))
  }

  /** Whether the profile cuts before a `p`: where the automaton does or it adds a boundary, unless it takes it back. */
  ghost predicate CutsBefore(o: Locale, text: seq<Byte>, at: nat, c: Scalar, ahead: seq<Kind>, p: Kind, s: Scan,
                             x: Extra) {
    ((at > 0 && Cuts(s, p)) || Adds(o, text, at, c, ahead, p, s, x)) && !Drops(o, text, at, p, s, x)
  }

  /** What makes a terminator's tail longer. */
  predicate Extends(s: Scan, p: Kind) { p == Sp || (p == Close && !s.afterSpace) }

  function Nesting(c: Scalar, depth: nat): nat {
    if OpenBracket(c) then depth + 1 else if CloseBracket(c) && depth > 0 then depth - 1 else depth
  }

  /** What the profile remembers behind a `p` at `at`. */
  function NextExtra(at: nat, c: Scalar, p: Kind, cut: bool, s: Scan, x: Extra, urlEnd: nat): Extra {
    Extra(termAt := if Term(p) then at else x.termAt,
          content := (x.content && !cut) || !(Space(p) || Term(p) || Trails(p)),
          quotedTail := !Term(p) && (x.quotedTail || (s.active && Extends(s, p) && Quote(c))),
          bracketTail := if Term(p) then x.bracketDepth > 0 else x.bracketTail,
          protectedUrlEnd := urlEnd,
          bracketDepth := Nesting(c, x.bracketDepth))
  }

  const FORGETFUL: Extra := Extra(0, false, false, false, 0, 0)

  /** Where the profile stands between two characters. */
  datatype Stand = Stand(s: Scan, x: Extra)

  function UrlEndAt(o: Locale, text: seq<Byte>, at: nat, x: Extra): nat
    requires at < |text| && LengthAt(text, at) > 0
  {
    UrlEnd(o, text, at, ScalarAt(text, at), x.protectedUrlEnd)
  }

  function TranslationKindAt(o: Locale, text: seq<Byte>, at: nat, x: Extra): Kind
    requires o.Valid() && at < |text| && LengthAt(text, at) > 0
  {
    TranslationKind(o, ScalarAt(text, at), at < UrlEndAt(o, text, at, x))
  }

  predicate UnfoldCut(k: nat, o: Locale, text: seq<Byte>, at: nat, e: Stand) { true }

  /** Whether the profile cuts before the character at `at`. Unfolds only where `UnfoldCut` is mentioned. */
  ghost predicate CutsHere(o: Locale, text: seq<Byte>, at: nat, e: Stand)
    requires o.Valid() && at < |text| && ValidFrom(text, at)
  {
    forall k: nat {:trigger UnfoldCut(k, o, text, at, e)} :: UnfoldCut(k, o, text, at, e) ==>
      CutsBefore(o, text, at, ScalarAt(text, at), Kinds(o, text, at + LengthAt(text, at), |text|),
                 TranslationKindAt(o, text, at, e.x), e.s, e.x)
  }

  ghost function Past(o: Locale, text: seq<Byte>, at: nat, e: Stand): Stand
    requires o.Valid() && at < |text| && ValidFrom(text, at)
  {
    var p := TranslationKindAt(o, text, at, e.x);
    Stand(Next(e.s, p, LowerFollows(Kinds(o, text, at + LengthAt(text, at), |text|))),
          NextExtra(at, ScalarAt(text, at), p, CutsHere(o, text, at, e), e.s, e.x, UrlEndAt(o, text, at, e.x)))
  }

  /** `e`, taken by `pass` over each scalar from `at` up to `to`. */
  ghost function Walk<E>(text: seq<Byte>, pass: (nat, E) -> E, at: nat, e: E, to: nat): E
    requires ValidFrom(text, at)
    decreases |text| - at
  {
    if at >= to || at == |text| then e else Walk(text, pass, at + LengthAt(text, at), pass(at, e), to)
  }

  lemma {:induction false} WalkSnoc<E>(text: seq<Byte>, pass: (nat, E) -> E, from: nat, e: E, at: nat)
    requires ValidFrom(text, from) && from <= at < |text| && ValidFrom(text, at)
    ensures Walk(text, pass, from, e, at + LengthAt(text, at)) == pass(at, Walk(text, pass, from, e, at))
    decreases |text| - from
  {
    if from == at {
      var next := at + LengthAt(text, at);
      assert Walk(text, pass, next, pass(at, e), next) == pass(at, e);
    } else {
      var next := ReadOn(text, from, at);
      WalkSnoc(text, pass, next, pass(from, e), at);
    }
  }

  /** Reading on from before a place to read on from does not pass it. */
  lemma ReadOn(text: seq<Byte>, from: nat, at: nat) returns (next: nat)
    requires ValidFrom(text, from) && from < at < |text| && ValidFrom(text, at)
    ensures next == from + LengthAt(text, from) && from < next <= at && ValidFrom(text, next)
  {
    next := from + LengthAt(text, from);
    if at < next { InnerTails(text, from, at); }
  }

  /** How the profile passes the characters of a text. */
  ghost function Passing(o: Locale, text: seq<Byte>): (nat, Stand) -> Stand
    requires o.Valid()
  {
    (at: nat, e: Stand) => if at < |text| && ValidFrom(text, at) then Past(o, text, at, e) else e
  }

  /** Where the profile stands at `at`, coming from the start of the text. */
  ghost function StandAt(o: Locale, text: seq<Byte>, at: nat): Stand
    requires o.Valid() && ValidUtf8(text)
  {
    Walk(text, Passing(o, text), 0, Stand(START, FORGETFUL), at)
  }

  lemma StandSnoc(o: Locale, text: seq<Byte>, at: nat)
    requires o.Valid() && ValidUtf8(text) && at < |text| && ValidFrom(text, at)
    ensures StandAt(o, text, at + LengthAt(text, at)) == Past(o, text, at, StandAt(o, text, at))
  {
    WalkSnoc(text, Passing(o, text), 0, Stand(START, FORGETFUL), at);
  }

  /** Whether the profile cuts at `at`, coming from the start of the text. */
  ghost predicate TranslationCut(o: Locale, text: seq<Byte>, at: nat)
    requires o.Valid() && ValidUtf8(text) && at < |text| && ValidFrom(text, at)
  {
    CutsHere(o, text, at, StandAt(o, text, at))
  }

  // ---- Boundaries ----

  /** What lies before and behind `at`, as the rules see it. */
  ghost predicate RuleBreaks(o: Locale, text: seq<Byte>, at: nat)
    requires ValidUtf8(text) && 0 < at < |text| && ValidFrom(text, at)
  {
    Break(Kinds(o, text, 0, at), Kinds(o, text, at, |text|))
  }

  ghost function KindBefore(o: Locale, text: seq<Byte>, at: nat): Kind
    requires ValidUtf8(text) && 0 < at < |text|
  {
    var left := Kinds(o, text, 0, at);
    left[|left| - 1]
  }

  /** What any profile takes for a terminator. */
  predicate TermLike(o: Locale, c: Scalar) {
    || Term(o.property(c)) || (EnglishOrRussian(o) && c == 0x2026) || (o.language == "el" && (c == 0x3B || c == 0x37E))
  }

  /** What may stand between a terminator and the boundary it makes. */
  predicate Trails(k: Kind) { k == Close || k == Sp || Ignored(k) }

  /** From the terminator at `t` to `at` there is nothing but what may trail it. */
  ghost predicate TermTrails(o: Locale, text: seq<Byte>, t: nat, at: nat) {
    && t < at <= |text| && LengthAt(text, t) > 0 && TermLike(o, ScalarAt(text, t))
    && forall q: nat {:trigger InnerBoundary(text, q)} :: t < q < at && InnerBoundary(text, q) ==> TrailsAt(o, text, q)
  }

  predicate TrailsAt(o: Locale, text: seq<Byte>, q: nat) {
    q < |text| && LengthAt(text, q) > 0 && Trails(KindAt(o, text, q))
  }

  ghost predicate BehindTerm(o: Locale, text: seq<Byte>, at: nat) { exists t: nat :: TermTrails(o, text, t, at) }

  lemma {:induction false} BehindNext(o: Locale, text: seq<Byte>, at: nat, p: Kind, active: bool)
    requires at < |text| && LengthAt(text, at) > 0 && Fits(o, ScalarAt(text, at), p)
    requires active ==> Term(p) || (Trails(p) && BehindTerm(o, text, at))
    ensures active ==> BehindTerm(o, text, at + LengthAt(text, at))
  {
    var next := at + LengthAt(text, at);
    if active {
      forall q: nat | at < q < next ensures !InnerBoundary(text, q) { InnerTails(text, at, q); }
      if Term(p) {
        assert TermTrails(o, text, at, next);
      } else {
        var t: nat :| TermTrails(o, text, t, at);
        assert TrailsAt(o, text, at);
        assert TermTrails(o, text, t, next);
      }
    }
  }

  /** What `boundaries` promises of a position: in the Unicode profile the rules decide, in the Translation profile the
      automaton with its additions; in both, a paragraph separator ends a sentence unless it is a CR with an LF behind
      it, and nothing else does but a terminator and what trails it. */
  ghost predicate Decided(o: Locale, text: seq<Byte>, profile: Profile, at: nat, cut: bool)
    requires o.Valid() && ValidUtf8(text) && 0 < at < |text| && ValidFrom(text, at)
  {
    && (cut <==> if profile == Unicode then RuleBreaks(o, text, at) else TranslationCut(o, text, at))
    && (if Separator(KindBefore(o, text, at))
        then cut <==> !(KindBefore(o, text, at) == CR && KindAt(o, text, at) == LF)
        else cut ==> BehindTerm(o, text, at))
  }

  ghost predicate Increasing(cuts: seq<nat>) { forall i, j :: 0 <= i < j < |cuts| ==> cuts[i] < cuts[j] }

  /** Cuts from the start of the text on, in order, at boundaries before `to`. */
  ghost predicate Ordered(text: seq<Byte>, to: nat, cuts: seq<nat>) {
    && cuts != [] && cuts[0] == 0 && Increasing(cuts)
    && (forall i :: 0 < i < |cuts| ==> cuts[i] < to)
    && (forall i :: 0 <= i < |cuts| ==> Boundary(text, cuts[i]))
  }

  ghost predicate InnerBoundary(text: seq<Byte>, q: nat) { 0 < q < |text| && Boundary(text, q) }

  /** Every boundary before `to` is a cut or not, as promised. */
  ghost predicate AllDecided(o: Locale, text: seq<Byte>, profile: Profile, to: nat, cuts: seq<nat>)
    requires o.Valid() && ValidUtf8(text)
  {
    forall q: nat {:trigger InnerBoundary(text, q)} :: q < to && InnerBoundary(text, q) ==>
      DecidedAt(o, text, profile, q, q in cuts)
  }

  predicate UnfoldDecided(k: nat, o: Locale, text: seq<Byte>, profile: Profile, q: nat, cut: bool) { true }

  /** `q` is a cut or not, as promised. Unfolds only where `UnfoldDecided` is mentioned. */
  ghost predicate DecidedAt(o: Locale, text: seq<Byte>, profile: Profile, q: nat, cut: bool)
    requires o.Valid() && ValidUtf8(text) && 0 < q < |text|
  {
    forall k: nat {:trigger UnfoldDecided(k, o, text, profile, q, cut)} ::
      UnfoldDecided(k, o, text, profile, q, cut) ==> ValidFrom(text, q) && Decided(o, text, profile, q, cut)
  }

  ghost predicate CutsTo(o: Locale, text: seq<Byte>, profile: Profile, to: nat, cuts: seq<nat>)
    requires o.Valid() && ValidUtf8(text)
  {
    Ordered(text, to, cuts) && AllDecided(o, text, profile, to, cuts)
  }

  lemma OrderedMore(text: seq<Byte>, at: nat, cuts: seq<nat>, to: nat)
    requires Ordered(text, at, cuts) && 0 < at < to && Boundary(text, at)
    ensures Ordered(text, to, cuts + [at])
  {}

  lemma {:induction false} DecidedMore(o: Locale, text: seq<Byte>, profile: Profile, at: nat, to: nat, cuts: seq<nat>,
                                       cut: bool)
    requires o.Valid() && ValidUtf8(text) && at < to && AllDecided(o, text, profile, at, cuts)
    requires at > 0 ==> at !in cuts
    requires forall q: nat :: at < q < to ==> !InnerBoundary(text, q)
    requires if at == 0 then !cut else at < |text| && DecidedAt(o, text, profile, at, cut)
    ensures AllDecided(o, text, profile, to, if cut then cuts + [at] else cuts)
  {
    var more := if cut then cuts + [at] else cuts;
    assert forall q :: q in more <==> q in cuts || (cut && q == at);
  }

  lemma {:induction false} CutsMore(o: Locale, text: seq<Byte>, profile: Profile, at: nat, cuts: seq<nat>, cut: bool)
    requires o.Valid() && ValidUtf8(text) && at < |text| && ValidFrom(text, at) && CutsTo(o, text, profile, at, cuts)
    requires if at == 0 then !cut else Decided(o, text, profile, at, cut)
    ensures CutsTo(o, text, profile, at + LengthAt(text, at), if cut then cuts + [at] else cuts)
  {
    var to := at + LengthAt(text, at);
    ValidAtBoundary(text, 0, at);
    forall q: nat | at < q < to ensures !InnerBoundary(text, q) {
      InnerTails(text, at, q);
    }
    DecidedMore(o, text, profile, at, to, cuts, cut);
    if cut { OrderedMore(text, at, cuts, to); }
  }

  /** The scan's state before the scalar at `at`. */
  ghost predicate Scanned(o: Locale, text: seq<Byte>, profile: Profile, at: nat, s: Scan)
    requires ValidUtf8(text) && ValidFrom(text, at)
  {
    var left := Kinds(o, text, 0, at);
    && (profile == Unicode ==> Means(s, left, Kinds(o, text, at, |text|)))
    && (if left == [] then s == START else RawFits(s.rawLast, left[|left| - 1]))
    && (s.active ==> BehindTerm(o, text, at))
  }

  /** What is decided before the character at `at`, if that is taken for a `p`. */
  predicate Allowed(profile: Profile, at: nat, s: Scan, p: Kind, cut: bool) {
    if at == 0 then !cut
    else if profile == Unicode || Separator(s.rawLast) then cut == Cuts(s, p)
    else cut ==> s.active
  }

  lemma ScannedStart(o: Locale, text: seq<Byte>, profile: Profile)
    requires ValidUtf8(text)
    ensures Scanned(o, text, profile, 0, START)
  {
    StartMeans(Kinds(o, text, 0, |text|));
  }

  lemma {:induction false} CutDecided(o: Locale, text: seq<Byte>, profile: Profile, at: nat, s: Scan, p: Kind,
                                      cut: bool)
    requires o.Valid() && ValidUtf8(text) && 0 < at < |text| && ValidFrom(text, at) && Scanned(o, text, profile, at, s)
    requires Fits(o, ScalarAt(text, at), p) && (profile == Unicode ==> p == KindAt(o, text, at))
    requires Allowed(profile, at, s, p, cut) && (profile == Translation ==> (cut <==> TranslationCut(o, text, at)))
    ensures Decided(o, text, profile, at, cut)
  {
    if profile == Unicode {
      CutIffBreak(s, Kinds(o, text, 0, at), Kinds(o, text, at, |text|));
    }
  }

  lemma ScannedNext(o: Locale, text: seq<Byte>, profile: Profile, at: nat, s: Scan, p: Kind)
    requires ValidUtf8(text) && at < |text| && ValidFrom(text, at) && Followed(o, text, profile, at, s)
    requires Fits(o, ScalarAt(text, at), p) && (profile == Unicode ==> p == KindAt(o, text, at))
    ensures var next := at + LengthAt(text, at);
            Followed(o, text, profile, next, Next(s, p, LowerFollows(Kinds(o, text, next, |text|))))
  {
    var ahead := LowerFollows(Kinds(o, text, at + LengthAt(text, at), |text|));
    NextActive(s, p, ahead);
    FollowedNext(o, text, profile, at, s, p, Next(s, p, ahead));
  }

  lemma NextActive(s: Scan, p: Kind, ahead: bool)
    ensures Next(s, p, ahead).rawLast == p && (Next(s, p, ahead).active ==> Term(p) || (Trails(p) && s.active))
  {}

  lemma {:induction false} FollowedNext(o: Locale, text: seq<Byte>, profile: Profile, at: nat, s: Scan, p: Kind,
                                        s': Scan)
    requires ValidUtf8(text) && at < |text| && ValidFrom(text, at) && Followed(o, text, profile, at, s)
    requires Fits(o, ScalarAt(text, at), p) && s'.rawLast == p && (s'.active ==> Term(p) || (Trails(p) && s.active))
    requires profile == Unicode ==>
               && p == KindAt(o, text, at)
               && s' == Next(s, p, LowerFollows(Kinds(o, text, at + LengthAt(text, at), |text|)))
    ensures Followed(o, text, profile, at + LengthAt(text, at), s')
  {
    assert UnfoldScan(0, at, s);
    var next := at + LengthAt(text, at);
    KindsSnoc(o, text, 0, at);
    var left, right := Kinds(o, text, 0, at), Kinds(o, text, at, |text|);
    assert right[0] == KindAt(o, text, at) && right[1..] == Kinds(o, text, next, |text|);
    BehindNext(o, text, at, p, s'.active);
    if profile == Unicode {
      NextMeans(s, left, right);
    }
  }

  /** The kind a profile takes a character for. */
  method Classify(o: Locale, text: seq<Byte>, profile: Profile, at: nat, point: Point, protectedUrlEnd: nat)
    returns (p: Kind, urlEnd: nat)
    requires o.Valid() && point.kind == o.property(point.value)
    ensures Fits(o, point.value, p) && (profile == Unicode ==> p == point.kind)
    ensures profile == Translation ==>
              && urlEnd == UrlEnd(o, text, at, point.value, protectedUrlEnd)
              && p == TranslationKind(o, point.value, at < urlEnd)
  {
    p, urlEnd := point.kind, protectedUrlEnd;
    if profile == Translation {
      if at >= urlEnd && point.value == 0x68 {
        urlEnd := o.urlEnd(text, at);
      }
      if at < urlEnd && Term(p) {
        p := Other;
      }
      if EnglishOrRussian(o) && point.value == 0x2026 {
        p := ATerm;
      }
      if o.language == "el" && (point.value == 0x3B || point.value == 0x37E) {
        p := STerm;
      }
      if p == Close && o.opening(point.value) {
        p := Other;
      }
    }
  }

  method UpperAt(o: Locale, text: seq<Byte>, at: nat) returns (r: Result<bool>)
    requires at <= |text|
    ensures ValidFrom(text, at) ==> r == Ok(StartsUpper(Kinds(o, text, at, |text|)))
  {
    if at == |text| {
      return Ok(false);
    }
    var read := Read(o, text, at);
    r := if read.Err? then Err(read.error) else Ok(read.value.kind == Upper);
  }

  method SkipSpaces(o: Locale, text: seq<Byte>, at: nat) returns (r: Result<nat>)
    requires at <= |text|
    ensures r.Ok? ==> at <= r.value <= |text|
    ensures ValidFrom(text, at) ==> r.Ok? && ValidFrom(text, r.value)
    ensures ValidFrom(text, at) ==>
              UpperBehindSpaces(Kinds(o, text, at, |text|)) == StartsUpper(Kinds(o, text, r.value, |text|))
  {
    var look := at;
    while look < |text|
      invariant at <= look <= |text| && (ValidFrom(text, at) ==> ValidFrom(text, look))
      invariant ValidFrom(text, at) ==>
                  UpperBehindSpaces(Kinds(o, text, at, |text|)) == UpperBehindSpaces(Kinds(o, text, look, |text|))
      decreases |text| - look
    {
      var read := Read(o, text, look);
      if read.Err? {
        return Err(read.error);
      }
      if !Space(read.value.kind) {
        break;
      }
      if ValidFrom(text, at) {
        assert Kinds(o, text, look, |text|)[1..] == Kinds(o, text, read.value.end, |text|);
      }
      look := read.value.end;
    }
    r := Ok(look);
  }

  /** Boundaries the Translation profile adds behind a terminator and spaces. */
  method AddCut(o: Locale, text: seq<Byte>, at: nat, point: Point, p: Kind, s: Scan, x: Extra, unicodeCut: bool)
    returns (r: Result<bool>)
    requires at < |text| && x.termAt < |text| && point.end <= |text|
    ensures ValidFrom(text, point.end) ==> r.Ok?
    ensures ValidFrom(text, point.end) ==>
              r.value == (unicodeCut || Adds(o, text, at, point.value, Kinds(o, text, point.end, |text|), p, s, x))
    ensures r.Ok? ==> (unicodeCut ==> r.value) && (r.value && !unicodeCut ==> s.active && !Separator(s.rawLast))
  {
    var cut := unicodeCut;
    if s.active && s.afterSpace && !Separator(s.rawLast) {
      var single := SingleDotAt(text, x.termAt);
      if EnglishOrRussian(o) && s.dotTail && p == Kind.Lower && single {
        cut := true;
      }
      if o.language == "ru" && s.dotTail && single
         && (p == Numeric || point.value == 0x40 || o.opening(point.value) || point.value == 0x22) {
        cut := true;
      }
      var ahead := AddAhead(o, text, at, point, p, x);
      if ahead.Err? { return ahead; }
      cut := cut || ahead.value;
    }
    r := Ok(cut);
  }

  /** Boundaries it adds for what comes behind the character. */
  method AddAhead(o: Locale, text: seq<Byte>, at: nat, point: Point, p: Kind, x: Extra) returns (r: Result<bool>)
    requires at < |text| && point.end <= |text|
    ensures ValidFrom(text, point.end) ==>
              r == Ok(AddsAhead(o, text, at, point.value, Kinds(o, text, point.end, |text|), p, x))
  {
    var cut := false;
    if o.language == "ru" && x.content && point.value == 0x2026 {
      var upper := UpperAt(o, text, point.end);
      if upper.Err? { return upper; }
      cut := upper.value;
    }
    if p == SContinue && Dash(point.value) {
      var upper := UpperBehind(o, text, point.end);
      if upper.Err? { return upper; }
      cut := cut || upper.value || (o.language == "ru" && o.dialogue(text, at));
    }
    r := Ok(cut);
  }

  method UpperBehind(o: Locale, text: seq<Byte>, at: nat) returns (r: Result<bool>)
    requires at <= |text|
    ensures ValidFrom(text, at) ==> r == Ok(UpperBehindSpaces(Kinds(o, text, at, |text|)))
  {
    var look := SkipSpaces(o, text, at);
    if look.Err? { return Err(look.error); }
    r := UpperAt(o, text, look.value);
  }

  /** Boundaries the Translation profile takes back; never one behind a paragraph separator. */
  method DropCut(o: Locale, text: seq<Byte>, at: nat, p: Kind, s: Scan, x: Extra, added: bool) returns (cut: bool)
    requires at < |text| && x.termAt < |text| && (s.dotTail && at == x.termAt + 1 ==> !Separator(s.rawLast))
    ensures cut <==> added && !Drops(o, text, at, p, s, x)
  {
    cut := added;
    if cut && s.dotTail && at == x.termAt + 1 && x.termAt > 0 && text[x.termAt] == DOT && text[x.termAt - 1] == DOT {
      cut := false;
    }
    if cut && s.dotTail && !Separator(s.rawLast) && o.protect(text, x.termAt, at) {
      cut := false;
    }
    if cut && !Separator(s.rawLast) {
      if !x.content && !s.afterSpace {
        cut := false;
      }
      if x.quotedTail && o.quoteSuffix(text, at) {
        cut := false;
      }
      if (x.quotedTail || x.bracketTail) && (p == Kind.Lower || (x.bracketTail && Cjk(o.language) && p == OLetter)) {
        cut := false;
      }
    }
  }

  predicate UnfoldTranslated(k: nat, text: seq<Byte>, at: nat, point: Point, p: Kind, s: Scan, x: Extra,
                             cut: bool) { true }

  /** The decision is the Translation profile's. Unfolds only where `UnfoldTranslated` is mentioned. */
  ghost predicate Translated(o: Locale, text: seq<Byte>, at: nat, point: Point, p: Kind, s: Scan, x: Extra, cut: bool)
    requires ValidFrom(text, point.end)
  {
    forall k: nat {:trigger UnfoldTranslated(k, text, at, point, p, s, x, cut)} ::
      UnfoldTranslated(k, text, at, point, p, s, x, cut) ==>
      (cut <==> CutsBefore(o, text, at, point.value, Kinds(o, text, point.end, |text|), p, s, x))
  }

  /** Whether to cut before the character at `at`. */
  method DecideCut(o: Locale, text: seq<Byte>, profile: Profile, at: nat, point: Point, p: Kind, s: Scan, x: Extra)
    returns (r: Result<bool>)
    requires at < |text| && x.termAt < |text| && point.end <= |text| && (at == 0 ==> !s.active)
    requires s.dotTail && at == x.termAt + 1 ==> !Separator(s.rawLast)
    ensures ValidFrom(text, point.end) ==> r.Ok?
    ensures r.Ok? ==> Allowed(profile, at, s, p, r.value)
    ensures ValidFrom(text, point.end) && profile == Translation ==> Translated(o, text, at, point, p, s, x, r.value)
  {
    var cut := AutomatonCut(at, p, s);
    if profile == Translation {
      var added := AddCut(o, text, at, point, p, s, x, cut);
      if added.Err? { return added; }
      cut := DropCut(o, text, at, p, s, x, added.value);
    }
    r := Ok(cut);
  }

  /** The automaton's decision; there is none at the start of the text. */
  method AutomatonCut(at: nat, p: Kind, s: Scan) returns (cut: bool)
    ensures cut <==> at > 0 && Cuts(s, p)
  {
    cut := false;
    if at > 0 {
      if s.rawLast == CR && p == LF {
      } else if Separator(s.rawLast) {
        cut := true;
      } else if Ignored(p) {
      } else if s.last == ATerm && p == Numeric {
      } else if s.last == ATerm && (s.beforeLast == Upper || s.beforeLast == Kind.Lower) && p == Upper {
      } else if s.active && s.dotTail && s.followedByLower {
      } else if s.active && (p == SContinue || Term(p)) {
      } else if s.active && !s.afterSpace && (p == Close || p == Sp || Separator(p)) {
      } else if s.active && (p == Sp || Separator(p)) {
      } else if s.active {
        cut := true;
      }
    }
  }

  predicate UnfoldMoves(k: nat, o: Locale, text: seq<Byte>, end: nat, p: Kind, s: Scan, s': Scan) { true }

  /** The automaton moves past a `p` that ends at `end`, with what valid text has ahead. Unfolds only where
      `UnfoldMoves` is mentioned. */
  ghost predicate Moves(o: Locale, text: seq<Byte>, end: nat, p: Kind, s: Scan, s': Scan) {
    forall k: nat {:trigger UnfoldMoves(k, o, text, end, p, s, s')} :: UnfoldMoves(k, o, text, end, p, s, s') ==>
      && (ValidFrom(text, end) ==> s' == Next(s, p, LowerFollows(Kinds(o, text, end, |text|))))
      && exists ahead :: s' == Next(s, p, ahead)
  }

  /** Moves the state past a character; only a full stop looks ahead. */
  method Advance(o: Locale, text: seq<Byte>, p: Kind, end: nat, s: Scan) returns (r: Result<Scan>)
    requires end <= |text|
    ensures ValidFrom(text, end) ==> r.Ok?
    ensures r.Ok? ==> Moves(o, text, end, p, s, r.value)
  {
    var t := s;
    ghost var ahead := false;
    if !Ignored(p) || Separator(s.rawLast) {
      if Term(p) {
        var followed := false;
        if p == ATerm {
          var look := LowerAhead(o, text, end);
          if look.Err? { return Err(look.error); }
          followed := look.value;
        }
        ahead := followed;
        t := t.(active := true, afterSpace := false, dotTail := p == ATerm, followedByLower := followed);
      } else if s.active && (p == Sp || (p == Close && !s.afterSpace)) {
        if p == Sp {
          t := t.(afterSpace := true);
        }
      } else {
        t := t.(active := false);
      }
      t := t.(beforeLast := s.last, last := p);
    }
    t := t.(rawLast := p);
    assert t == Next(s, p, ahead);
    r := Ok(t);
  }

  method AdvanceExtra(at: nat, point: Point, p: Kind, cut: bool, s: Scan, x: Extra, urlEnd: nat) returns (x': Extra)
    ensures x' == NextExtra(at, point.value, p, cut, s, x, urlEnd)
  {
    var content := x.content;
    if cut {
      content := false;
    }
    if !Space(p) && !Term(p) && p != Close && !Ignored(p) {
      content := true;
    }
    var termAt, quotedTail, bracketTail := AdvanceTails(at, point, p, s, x);
    var depth := CountBracket(point.value, x.bracketDepth);
    x' := Extra(termAt, content, quotedTail, bracketTail, urlEnd, depth);
  }

  method AdvanceTails(at: nat, point: Point, p: Kind, s: Scan, x: Extra)
    returns (termAt: nat, quotedTail: bool, bracketTail: bool)
    ensures termAt == if Term(p) then at else x.termAt
    ensures quotedTail <==> !Term(p) && (x.quotedTail || (s.active && Extends(s, p) && Quote(point.value)))
    ensures bracketTail <==> if Term(p) then x.bracketDepth > 0 else x.bracketTail
  {
    termAt, quotedTail, bracketTail := x.termAt, x.quotedTail, x.bracketTail;
    if !Ignored(p) || Separator(s.rawLast) {
      if Term(p) {
        termAt, quotedTail, bracketTail := at, false, x.bracketDepth != 0;
      } else if s.active && (p == Sp || (p == Close && !s.afterSpace)) {
        if Quote(point.value) {
          quotedTail := true;
        }
      }
    }
  }

  method CountBracket(c: Scalar, depth: nat) returns (depth': nat)
    ensures depth' == Nesting(c, depth)
  {
    depth' := depth;
    if OpenBracket(c) {
      depth' := depth' + 1;
    }
    if CloseBracket(c) && depth' > 0 {
      depth' := depth' - 1;
    }
  }

  predicate UnfoldProgress(k: nat, o: Locale, text: seq<Byte>, profile: Profile, at: nat, s: Scan, x: Extra,
                           result: seq<nat>) { true }

  /** Where the scan stands before the scalar at `at`. Unfolds only where `UnfoldProgress` is mentioned. */
  ghost predicate Progress(o: Locale, text: seq<Byte>, profile: Profile, at: nat, s: Scan, x: Extra, result: seq<nat>)
    requires o.Valid()
  {
    forall k: nat {:trigger UnfoldProgress(k, o, text, profile, at, s, x, result)} ::
      UnfoldProgress(k, o, text, profile, at, s, x, result) ==>
      && at <= |text| && (ValidUtf8(text) <==> ValidFrom(text, at)) && Positioned(at, s, x.termAt)
      && Along(o, text, profile, at, s, x) && Followed(o, text, profile, at, s) && Split(o, text, profile, at, result)
  }

  /** What the scan asks of its state. */
  lemma ProgressHere(o: Locale, text: seq<Byte>, profile: Profile, at: nat, s: Scan, x: Extra, result: seq<nat>)
    requires o.Valid() && at < |text| && Progress(o, text, profile, at, s, x, result)
    ensures x.termAt < |text| && (at == 0 ==> !s.active) && (s.dotTail && at == x.termAt + 1 ==> !Separator(s.rawLast))
    ensures ValidUtf8(text) ==> LengthAt(text, at) > 0 && ValidFrom(text, at + LengthAt(text, at))
  {
    assert UnfoldProgress(0, o, text, profile, at, s, x, result);
  }

  predicate UnfoldScan(k: nat, at: nat, s: Scan) { true }

  predicate UnfoldCuts(k: nat, at: nat, result: seq<nat>) { true }

  /** The state is what the text before `at` asks for. Unfolds only where `UnfoldScan` is mentioned. */
  ghost predicate Followed(o: Locale, text: seq<Byte>, profile: Profile, at: nat, s: Scan) {
    forall k: nat {:trigger UnfoldScan(k, at, s)} :: UnfoldScan(k, at, s) && ValidUtf8(text) ==>
      ValidFrom(text, at) && Scanned(o, text, profile, at, s)
  }

  /** The cuts are what the text before `at` asks for. Unfolds only where `UnfoldCuts` is mentioned. */
  ghost predicate Split(o: Locale, text: seq<Byte>, profile: Profile, at: nat, result: seq<nat>)
    requires o.Valid()
  {
    forall k: nat {:trigger UnfoldCuts(k, at, result)} :: UnfoldCuts(k, at, result) && ValidUtf8(text) ==>
      CutsTo(o, text, profile, at, result)
  }

  lemma FoldScan(o: Locale, text: seq<Byte>, profile: Profile, at: nat, s: Scan)
    requires ValidUtf8(text) ==> ValidFrom(text, at) && Scanned(o, text, profile, at, s)
    ensures Followed(o, text, profile, at, s)
  {}

  lemma FoldCuts(o: Locale, text: seq<Byte>, profile: Profile, at: nat, result: seq<nat>)
    requires o.Valid() && (ValidUtf8(text) ==> CutsTo(o, text, profile, at, result))
    ensures Split(o, text, profile, at, result)
  {}

  predicate UnfoldAlong(k: nat, text: seq<Byte>, at: nat, s: Scan, x: Extra) { true }

  /** In the Translation profile the scan stands where the profile does. Unfolds only where `UnfoldAlong` is
      mentioned. */
  ghost predicate Along(o: Locale, text: seq<Byte>, profile: Profile, at: nat, s: Scan, x: Extra)
    requires o.Valid()
  {
    forall k: nat {:trigger UnfoldAlong(k, text, at, s, x)} ::
      UnfoldAlong(k, text, at, s, x) && ValidUtf8(text) && profile == Translation ==>
        StandAt(o, text, at) == Stand(s, x)
  }

  ghost predicate Positioned(at: nat, s: Scan, termAt: nat) {
    && (termAt == 0 || termAt < at) && (at == 0 ==> s == START)
    && (s.dotTail ==> termAt < at) && (s.dotTail && at == termAt + 1 ==> !Separator(s.rawLast))
  }

  lemma PositionedNext(at: nat, s: Scan, termAt: nat, p: Kind, s': Scan, termAt': nat, end: nat)
    requires Positioned(at, s, termAt) && at < end && termAt' == (if Term(p) then at else termAt)
    requires exists ahead :: s' == Next(s, p, ahead)
    ensures Positioned(end, s', termAt')
  {}

  lemma ProgressStart(o: Locale, text: seq<Byte>, profile: Profile)
    requires o.Valid()
    ensures Progress(o, text, profile, 0, START, FORGETFUL, [0])
  {
    if ValidUtf8(text) {
      ScannedStart(o, text, profile);
      ValidAtBoundary(text, 0, 0);
    }
    FoldScan(o, text, profile, 0, START);
    FoldCuts(o, text, profile, 0, [0]);
  }

  predicate UnfoldChosen(k: nat, o: Locale, text: seq<Byte>, profile: Profile, at: nat, s: Scan, x: Extra, p: Kind,
                         urlEnd: nat, cut: bool)
  { true }

  /** What the scan takes the character at `at` for, and whether it cuts before it. Unfolds only where `UnfoldChosen` is
      mentioned. */
  ghost predicate Chosen(o: Locale, text: seq<Byte>, profile: Profile, at: nat, s: Scan, x: Extra, p: Kind,
                         urlEnd: nat, cut: bool)
    requires o.Valid() && at < |text| && LengthAt(text, at) > 0
  {
    forall k: nat {:trigger UnfoldChosen(k, o, text, profile, at, s, x, p, urlEnd, cut)} ::
      UnfoldChosen(k, o, text, profile, at, s, x, p, urlEnd, cut) ==>
        && Fits(o, ScalarAt(text, at), p) && (profile == Unicode ==> p == KindAt(o, text, at))
        && Allowed(profile, at, s, p, cut) && Judged(o, text, profile, at, s, x, p, urlEnd, cut)
  }

  predicate UnfoldPassed(k: nat, o: Locale, text: seq<Byte>, at: nat, s: Scan, x: Extra, p: Kind, urlEnd: nat,
                         cut: bool, s': Scan, x': Extra)
  { true }

  /** What the scan knows behind the character at `at`. Unfolds only where `UnfoldPassed` is mentioned. */
  ghost predicate Passed(o: Locale, text: seq<Byte>, at: nat, s: Scan, x: Extra, p: Kind, urlEnd: nat, cut: bool,
                         s': Scan, x': Extra)
    requires at < |text| && LengthAt(text, at) > 0
  {
    forall k: nat {:trigger UnfoldPassed(k, o, text, at, s, x, p, urlEnd, cut, s', x')} ::
      UnfoldPassed(k, o, text, at, s, x, p, urlEnd, cut, s', x') ==>
        Moves(o, text, at + LengthAt(text, at), p, s, s')
          && x' == NextExtra(at, ScalarAt(text, at), p, cut, s, x, urlEnd)
  }

  lemma {:induction false} ProgressNext(o: Locale, text: seq<Byte>, profile: Profile, at: nat, s: Scan, x: Extra,
                                        result: seq<nat>, p: Kind, urlEnd: nat, cut: bool, s': Scan, x': Extra)
    requires o.Valid() && Progress(o, text, profile, at, s, x, result) && at < |text| && LengthAt(text, at) > 0
    requires Chosen(o, text, profile, at, s, x, p, urlEnd, cut) && Passed(o, text, at, s, x, p, urlEnd, cut, s', x')
    ensures Progress(o, text, profile, at + LengthAt(text, at), s', x', if cut then result + [at] else result)
  {
    assert UnfoldProgress(0, o, text, profile, at, s, x, result);
    assert UnfoldChosen(0, o, text, profile, at, s, x, p, urlEnd, cut);
    assert UnfoldPassed(0, o, text, at, s, x, p, urlEnd, cut, s', x');
    assert UnfoldMoves(0, o, text, at + LengthAt(text, at), p, s, s');
    PositionedNext(at, s, x.termAt, p, s', x'.termAt, at + LengthAt(text, at));
    ValidOn(text, at);
    AlongNext(o, text, profile, at, s, x, p, urlEnd, cut, s', x');
    CutsFollow(o, text, profile, at, s, result, p, cut);
    ScanFollows(o, text, profile, at, s, p, s');
  }

  predicate UnfoldJudged(k: nat, text: seq<Byte>, at: nat, s: Scan, x: Extra, p: Kind, urlEnd: nat, cut: bool) { true }

  /** The Translation profile took the character at `at` for what it should and decided before it as it should. Unfolds
      only where `UnfoldJudged` is mentioned. */
  ghost predicate Judged(o: Locale, text: seq<Byte>, profile: Profile, at: nat, s: Scan, x: Extra, p: Kind,
                         urlEnd: nat, cut: bool)
    requires o.Valid() && at < |text| && LengthAt(text, at) > 0
  {
    forall k: nat {:trigger UnfoldJudged(k, text, at, s, x, p, urlEnd, cut)} ::
      UnfoldJudged(k, text, at, s, x, p, urlEnd, cut) && profile == Translation ==>
        && urlEnd == UrlEndAt(o, text, at, x) && p == TranslationKindAt(o, text, at, x)
        && (ValidFrom(text, at) ==> (cut <==> CutsHere(o, text, at, Stand(s, x))))
  }

  lemma FoldJudged(o: Locale, text: seq<Byte>, profile: Profile, at: nat, s: Scan, x: Extra, p: Kind, urlEnd: nat,
                   cut: bool)
    requires o.Valid() && at < |text| && LengthAt(text, at) > 0
    requires profile == Translation ==> urlEnd == UrlEndAt(o, text, at, x) && p == TranslationKindAt(o, text, at, x)
    requires ValidFrom(text, at + LengthAt(text, at)) && profile == Translation ==>
               Translated(o, text, at, Point(ScalarAt(text, at), at + LengthAt(text, at), KindAt(o, text, at)), p, s,
                          x, cut)
    ensures Judged(o, text, profile, at, s, x, p, urlEnd, cut)
  {
    if ValidFrom(text, at) && profile == Translation {
      CutsAsTranslated(o, text, at, Point(ScalarAt(text, at), at + LengthAt(text, at), KindAt(o, text, at)), p, s, x,
                       cut);
    }
  }

  lemma {:induction false} CutsAsTranslated(o: Locale, text: seq<Byte>, at: nat, point: Point, p: Kind, s: Scan,
                                            x: Extra, cut: bool)
    requires o.Valid() && at < |text| && ValidFrom(text, at) && p == TranslationKindAt(o, text, at, x)
    requires point.value == ScalarAt(text, at) && point.end == at + LengthAt(text, at)
    requires Translated(o, text, at, point, p, s, x, cut)
    ensures cut <==> CutsHere(o, text, at, Stand(s, x))
  {
    assert UnfoldTranslated(0, text, at, point, p, s, x, cut) && UnfoldCut(0, o, text, at, Stand(s, x));
  }

  lemma AlongNext(o: Locale, text: seq<Byte>, profile: Profile, at: nat, s: Scan, x: Extra, p: Kind, urlEnd: nat,
                  cut: bool, s': Scan, x': Extra)
    requires o.Valid() && at < |text| && LengthAt(text, at) > 0 && (ValidUtf8(text) <==> ValidFrom(text, at))
    requires Along(o, text, profile, at, s, x) && Judged(o, text, profile, at, s, x, p, urlEnd, cut)
    requires Moves(o, text, at + LengthAt(text, at), p, s, s')
    requires x' == NextExtra(at, ScalarAt(text, at), p, cut, s, x, urlEnd)
    ensures Along(o, text, profile, at + LengthAt(text, at), s', x')
    ensures ValidUtf8(text) && profile == Translation ==> (cut <==> TranslationCut(o, text, at))
  {
    if ValidUtf8(text) && profile == Translation {
      assert UnfoldAlong(0, text, at, s, x);
      StandSnoc(o, text, at);
      PastIs(o, text, profile, at, s, x, p, urlEnd, cut, s', x');
    }
  }

  lemma PastIs(o: Locale, text: seq<Byte>, profile: Profile, at: nat, s: Scan, x: Extra, p: Kind, urlEnd: nat,
               cut: bool, s': Scan, x': Extra)
    requires o.Valid() && at < |text| && ValidFrom(text, at) && profile == Translation
    requires Judged(o, text, profile, at, s, x, p, urlEnd, cut)
    requires Moves(o, text, at + LengthAt(text, at), p, s, s')
    requires x' == NextExtra(at, ScalarAt(text, at), p, cut, s, x, urlEnd)
    ensures Past(o, text, at, Stand(s, x)) == Stand(s', x') && (cut <==> CutsHere(o, text, at, Stand(s, x)))
  {
    ValidOn(text, at);
    assert UnfoldMoves(0, o, text, at + LengthAt(text, at), p, s, s')
           && UnfoldJudged(0, text, at, s, x, p, urlEnd, cut);
  }

  lemma ValidOn(text: seq<Byte>, at: nat)
    requires at < |text| && LengthAt(text, at) > 0
    ensures ValidFrom(text, at) <==> ValidFrom(text, at + LengthAt(text, at))
  {}

  lemma CutsFollow(o: Locale, text: seq<Byte>, profile: Profile, at: nat, s: Scan, result: seq<nat>, p: Kind, cut: bool)
    requires o.Valid() && at < |text| && LengthAt(text, at) > 0 && (ValidUtf8(text) <==> ValidFrom(text, at))
    requires Followed(o, text, profile, at, s) && Split(o, text, profile, at, result)
    requires ValidUtf8(text) && profile == Translation ==> (cut <==> TranslationCut(o, text, at))
    requires Fits(o, ScalarAt(text, at), p) && (profile == Unicode ==> p == KindAt(o, text, at))
    requires Allowed(profile, at, s, p, cut)
    ensures Split(o, text, profile, at + LengthAt(text, at), if cut then result + [at] else result)
  {
    if ValidUtf8(text) {
      assert UnfoldScan(0, at, s) && UnfoldCuts(0, at, result);
      if at > 0 { CutDecided(o, text, profile, at, s, p, cut); }
      CutsMore(o, text, profile, at, result, cut);
    }
    FoldCuts(o, text, profile, at + LengthAt(text, at), if cut then result + [at] else result);
  }

  lemma ScanFollows(o: Locale, text: seq<Byte>, profile: Profile, at: nat, s: Scan, p: Kind, s': Scan)
    requires at < |text| && LengthAt(text, at) > 0 && (ValidUtf8(text) <==> ValidFrom(text, at))
    requires Followed(o, text, profile, at, s)
    requires Fits(o, ScalarAt(text, at), p) && (profile == Unicode ==> p == KindAt(o, text, at))
    requires var end := at + LengthAt(text, at);
             ValidFrom(text, end) ==> s' == Next(s, p, LowerFollows(Kinds(o, text, end, |text|)))
    ensures Followed(o, text, profile, at + LengthAt(text, at), s')
  {
    ValidOn(text, at);
    if ValidUtf8(text) {
      ScannedNext(o, text, profile, at, s, p);
    }
  }

  lemma {:induction false} ProgressEnd(o: Locale, text: seq<Byte>, profile: Profile, s: Scan, x: Extra,
                                       result: seq<nat>)
    requires o.Valid() && Progress(o, text, profile, |text|, s, x, result)
    ensures ValidUtf8(text)
    ensures var cuts := if text == [] then result else result + [|text|];
            CutsTo(o, text, profile, |text| + 1, cuts) && cuts[|cuts| - 1] == |text|
  {
    assert UnfoldProgress(0, o, text, profile, |text|, s, x, result);
    assert UnfoldCuts(0, |text|, result);
    if text != [] {
      OrderedMore(text, |text|, result, |text| + 1);
      forall q: nat | q < |text| + 1 && InnerBoundary(text, q)
        ensures DecidedAt(o, text, profile, q, q in result + [|text|])
      {
        assert q in result + [|text|] <==> q in result;
        assert DecidedAt(o, text, profile, q, q in result);
      }
    }
  }

  datatype Turn = Turn(state: Scan, extra: Extra, end: nat, cuts: seq<nat>)

  /** One turn of the scan. */
  method ScanOne(o: Locale, text: seq<Byte>, profile: Profile, at: nat, s: Scan, x: Extra, result: seq<nat>)
    returns (r: Result<Turn>)
    requires o.Valid() && at < |text| && Progress(o, text, profile, at, s, x, result)
    ensures r.Ok? ==> at < r.value.end <= |text|
    ensures r.Ok? ==> Progress(o, text, profile, r.value.end, r.value.state, r.value.extra, r.value.cuts)
    ensures r.Err? ==> !ValidUtf8(text)
  {
    ProgressHere(o, text, profile, at, s, x, result);
    var read := Read(o, text, at);
    if read.Err? { return Err(read.error); }
    var point := read.value;
    var choice := Choose(o, text, profile, at, point, s, x);
    if choice.Err? { return Err(choice.error); }
    var Choice(p, urlEnd, cut) := choice.value;
    var next := Pass(o, text, at, point, p, urlEnd, cut, s, x);
    if next.Err? { return Err(next.error); }
    ProgressNext(o, text, profile, at, s, x, result, p, urlEnd, cut, next.value.s, next.value.x);
    r := Ok(Turn(next.value.s, next.value.x, point.end, if cut then result + [at] else result));
  }

  datatype Choice = Choice(kind: Kind, urlEnd: nat, cut: bool)

  lemma ChosenWhen(o: Locale, text: seq<Byte>, profile: Profile, at: nat, s: Scan, x: Extra, p: Kind, urlEnd: nat,
                   cut: bool)
    requires o.Valid() && at < |text| && LengthAt(text, at) > 0
    requires Fits(o, ScalarAt(text, at), p) && (profile == Unicode ==> p == KindAt(o, text, at))
    requires profile == Translation ==> urlEnd == UrlEndAt(o, text, at, x) && p == TranslationKindAt(o, text, at, x)
    requires ValidFrom(text, at + LengthAt(text, at)) && profile == Translation ==>
               Translated(o, text, at, Point(ScalarAt(text, at), at + LengthAt(text, at), KindAt(o, text, at)), p, s,
                          x, cut)
    requires Allowed(profile, at, s, p, cut)
    ensures Chosen(o, text, profile, at, s, x, p, urlEnd, cut)
  {
    FoldJudged(o, text, profile, at, s, x, p, urlEnd, cut);
  }

  method Choose(o: Locale, text: seq<Byte>, profile: Profile, at: nat, point: Point, s: Scan, x: Extra)
    returns (r: Result<Choice>)
    requires o.Valid() && at < |text| && LengthAt(text, at) > 0
    requires point == Point(ScalarAt(text, at), at + LengthAt(text, at), KindAt(o, text, at))
    requires x.termAt < |text| && (at == 0 ==> !s.active) && (s.dotTail && at == x.termAt + 1 ==> !Separator(s.rawLast))
    ensures ValidFrom(text, point.end) ==> r.Ok?
    ensures r.Ok? ==> Chosen(o, text, profile, at, s, x, r.value.kind, r.value.urlEnd, r.value.cut)
  {
    var p, urlEnd := Classify(o, text, profile, at, point, x.protectedUrlEnd);
    var cut := DecideCut(o, text, profile, at, point, p, s, x);
    if cut.Err? { return Err(cut.error); }
    ChosenWhen(o, text, profile, at, s, x, p, urlEnd, cut.value);
    r := Ok(Choice(p, urlEnd, cut.value));
  }

  method Pass(o: Locale, text: seq<Byte>, at: nat, point: Point, p: Kind, urlEnd: nat, cut: bool, s: Scan, x: Extra)
    returns (r: Result<Stand>)
    requires o.Valid() && at < |text| && LengthAt(text, at) > 0
    requires point == Point(ScalarAt(text, at), at + LengthAt(text, at), KindAt(o, text, at))
    ensures ValidFrom(text, point.end) ==> r.Ok?
    ensures r.Ok? ==> Passed(o, text, at, s, x, p, urlEnd, cut, r.value.s, r.value.x)
  {
    var next := Advance(o, text, p, point.end, s);
    if next.Err? { return Err(next.error); }
    var x' := AdvanceExtra(at, point, p, cut, s, x, urlEnd);
    r := Ok(Stand(next.value, x'));
  }

  /** All positions between sentences, from the start of the text to its end. Fails exactly on invalid UTF-8. */
  method Boundaries(o: Locale, text: seq<Byte>, profile: Profile) returns (r: Result<seq<nat>>)
    requires o.Valid()
    ensures r.Ok? <==> ValidUtf8(text)
    ensures r.Ok? ==> CutsTo(o, text, profile, |text| + 1, r.value) && r.value[|r.value| - 1] == |text|
  {
    var result: seq<nat> := [0];
    var s, x := START, FORGETFUL;
    var at := 0;
    ProgressStart(o, text, profile);
    while at < |text|
      invariant at <= |text| && Progress(o, text, profile, at, s, x, result)
      decreases |text| - at
    {
      var step := ScanOne(o, text, profile, at, s, x, result);
      if step.Err? { return Err(step.error); }
      s, x, at := step.value.state, step.value.extra, step.value.end;
      result := step.value.cuts;
    }
    ProgressEnd(o, text, profile, s, x, result);
    if text != [] {
      result := result + [|text|];
    }
    r := Ok(result);
  }
}
