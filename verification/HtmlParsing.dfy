/** Reading a document's tokens into plain text and spans of tag stacks. */
module HtmlParsing {
  import opened Basics
  import opened Markup

  datatype Token =
    | Error
    | Text(value: string)
    | TagStart(name: string)
    | TagEnd(name: string)
    | Attribute(name: string, value: string)
    | CommentStart
    | CommentEnd
    | InstructionStart
    | InstructionEnd
    | Data(value: string)

  /** A token and the offset in the document at which the scanner found it. */
  datatype Lexeme = Lexeme(token: Token, start: nat)

  datatype Options = Options(voidTags: set<string>, inlineTags: set<string>, inWordTags: set<string>,
                             ignoredTags: set<string>, continuationDelimiters: string,
                             substituteInlineTagsWithSpaces: bool)
  {
    /** An element copied as it is has a closing tag to stop at. */
    predicate Valid() { voidTags !! ignoredTags }
  }

  /** The part of a tag that later tokens fill in. */
  datatype Body = Body(attributes: string, data: string)

  function LowerChar(c: char): char {
    if 'A' <= c <= 'Z' then (c as int + 32) as char else c
  }

  function Lower(s: string): string {
    if s == "" then "" else [LowerChar(s[0])] + Lower(s[1..])
  }

  function AttributeText(t: Token): string
    requires t.Attribute?
  {
    " " + t.name + "=\"" + t.value + "\""
  }

  /** What the scanner guarantees: attributes follow a tag's head, data follows what it is the data of, and offsets
      never go back. */
  ghost predicate ScannerOrder(original: string, lex: seq<Lexeme>) {
    forall i :: 0 <= i < |lex| ==> InOrder(original, lex, i)
  }

  ghost predicate InOrder(original: string, lex: seq<Lexeme>, i: nat)
    requires i < |lex|
  {
    && (lex[i].token.Attribute? ==> i > 0 && (lex[i - 1].token.TagStart? || lex[i - 1].token.Attribute?))
    && (lex[i].token.Data? ==> i > 0 && Heads(lex[i - 1].token))
    && (if i > 0 then lex[i - 1].start else 0) <= lex[i].start <= |original|
  }

  lemma {:induction false} OffsetsGrow(original: string, lex: seq<Lexeme>, i: nat, j: nat)
    requires ScannerOrder(original, lex) && i <= j < |lex|
    ensures lex[i].start <= lex[j].start <= |original|
  {
    assert InOrder(original, lex, j);
    if i < j { OffsetsGrow(original, lex, i, j - 1); }
  }

  /** Tokens after which the current tag is still being filled in. */
  predicate Heads(t: Token) { t.TagStart? || t.Attribute? || t.CommentStart? || t.InstructionStart? }

  // ---- The document, read without spans or stacks ----

  function SkipAttributes(lex: seq<Lexeme>, i: nat): (j: nat)
    requires i <= |lex|
    ensures i <= j <= |lex|
    decreases |lex| - i
  {
    if i < |lex| && lex[i].token.Attribute? then SkipAttributes(lex, i + 1) else i
  }

  function AttributesFrom(lex: seq<Lexeme>, i: nat): string
    decreases |lex| - i
  {
    if i < |lex| && lex[i].token.Attribute? then AttributeText(lex[i].token) + AttributesFrom(lex, i + 1) else ""
  }

  /** Where an ignored element ends: just behind the closing tag that brings the nesting of its own name to zero. */
  function SkipNested(lex: seq<Lexeme>, i: nat, name: string, inside: nat): (j: Option<nat>)
    ensures j.Some? ==> i < j.value <= |lex|
    decreases |lex| - i
  {
    if i >= |lex| then None
    else match lex[i].token
      case Error => None
      case TagStart(n) => SkipNested(lex, i + 1, name, if Lower(n) == name then inside + 1 else inside)
      case TagEnd(n) =>
        if Lower(n) != name then SkipNested(lex, i + 1, name, inside)
        else if inside <= 1 then Some(i + 1)
        else SkipNested(lex, i + 1, name, inside - 1)
      case _ => SkipNested(lex, i + 1, name, inside)
  }

  function AfterIgnored(lex: seq<Lexeme>, i: nat, name: string): (j: Option<nat>)
    requires i <= |lex|
    ensures j.Some? ==> SkipAttributes(lex, i) < j.value <= |lex|
  {
    SkipNested(lex, SkipAttributes(lex, i), name, 1)
  }

  /** `Opened(at, ..)` is the start of the tag whose head is lexeme `at`; `Closed` is an element's end. */
  datatype DocEvent = Opened(at: nat, kind: Kind, name: string) | Closed(name: string)

  function TagKind(o: Options, name: string): Kind { if Lower(name) in o.voidTags then VoidElement else Element }

  function Prepend(es: seq<DocEvent>, rest: Option<seq<DocEvent>>): Option<seq<DocEvent>> {
    match rest
    case None => None
    case Some(fs) => Some(es + fs)
  }

  /** The start, void, comment, instruction and end events of the lexemes from `i` on, in document order. */
  function Document(o: Options, lex: seq<Lexeme>, i: nat): Option<seq<DocEvent>>
    decreases |lex| - i
  {
    if i >= |lex| then Some([])
    else match lex[i].token
      case Error => None
      case TagStart(name) =>
        if Lower(name) in o.ignoredTags then
          match AfterIgnored(lex, i + 1, Lower(name))
          case None => None
          case Some(j) => Prepend([Opened(i, TagKind(o, name), name), Closed(Lower(name))], Document(o, lex, j))
        else Prepend([Opened(i, TagKind(o, name), name)], Document(o, lex, i + 1))
      case TagEnd(name) =>
        if Lower(name) in o.voidTags then Document(o, lex, i + 1)
        else Prepend([Closed(Lower(name))], Document(o, lex, i + 1))
      case CommentStart => Prepend([Opened(i, Comment, "")], Document(o, lex, i + 1))
      case InstructionStart => Prepend([Opened(i, ProcessingInstruction, "")], Document(o, lex, i + 1))
      case _ => Document(o, lex, i + 1)
  }

  /** Matching the ends against the names of the open elements. */
  function Nest(open: seq<string>, es: seq<DocEvent>): Option<seq<string>>
    decreases es
  {
    if es == [] then Some(open)
    else match es[0]
      case Opened(_, kind, name) => Nest(if kind == Element then open + [Lower(name)] else open, es[1..])
      case Closed(name) =>
        if open != [] && open[|open| - 1] == name then Nest(open[..|open| - 1], es[1..]) else None
  }

  /** The documents that can be read: no scanner error, ignored elements closed, ends matching starts. */
  predicate Accepted(o: Options, lex: seq<Lexeme>) {
    Document(o, lex, 0).Some? && Nest([], Document(o, lex, 0).value) == Some([])
  }

  /** The text of the lexemes from `i` on. */
  function DocumentText(o: Options, lex: seq<Lexeme>, i: nat): string
    decreases |lex| - i
  {
    if i >= |lex| then ""
    else match lex[i].token
      case Text(value) => value + DocumentText(o, lex, i + 1)
      case TagStart(name) =>
        if Lower(name) in o.ignoredTags && AfterIgnored(lex, i + 1, Lower(name)).Some?
        then DocumentText(o, lex, AfterIgnored(lex, i + 1, Lower(name)).value)
        else DocumentText(o, lex, i + 1)
      case _ => DocumentText(o, lex, i + 1)
  }

  /** Whether `str` is likely to continue the word `prev` ends in. */
  predicate IsContinuation(o: Options, prev: string, str: string) {
    && o.continuationDelimiters != "" && prev != "" && str != ""
    && str[0] !in o.continuationDelimiters && prev[|prev| - 1] !in o.continuationDelimiters
  }

  /** Whether there is text to break off and no paragraph break at its end yet. */
  predicate UnbrokenEnd(source: string) { |source| >= 2 && source[|source| - 2..] != "\n\n" }

  /** The plain text with what keeps paragraphs and words apart from the text to come. */
  function Separated(o: Options, f: Flow, value: string): string {
    var broken := if f.sentenceBreak && UnbrokenEnd(f.source) then f.source + "\n\n" else f.source;
    if f.wordBreak && o.substituteInlineTagsWithSpaces && IsContinuation(o, broken, value) then broken + " " else broken
  }

  /** The plain text so far, and what is due before more text: a paragraph break, a space. */
  datatype Flow = Flow(source: string, sentenceBreak: bool, wordBreak: bool) {
    /** What a start or end tag asks for before the text that follows it. */
    function Breaking(o: Options, name: string): Flow {
      if name !in o.inlineTags then this.(sentenceBreak := true)
      else if name !in o.inWordTags then this.(wordBreak := true)
      else this
    }
  }

  /** The plain text once the lexemes from `i` on are read. */
  function PlainFrom(o: Options, lex: seq<Lexeme>, i: nat, f: Flow): string
    decreases |lex| - i
  {
    if i >= |lex| then f.source
    else match lex[i].token
      case Text(value) => PlainFrom(o, lex, i + 1, Flow(Separated(o, f, value) + value, false, false))
      case TagStart(name) =>
        if Lower(name) !in o.ignoredTags then PlainFrom(o, lex, i + 1, f.Breaking(o, Lower(name)))
        else
          (match AfterIgnored(lex, i + 1, Lower(name))
           case None => f.source
           case Some(j) => PlainFrom(o, lex, j, f.Breaking(o, Lower(name))))
      case TagEnd(name) =>
        PlainFrom(o, lex, i + 1, if Lower(name) in o.voidTags then f else f.Breaking(o, Lower(name)))
      case _ => PlainFrom(o, lex, i + 1, f)
  }

  /** A document's plain text: its text, with breaks where block elements end and spaces where inline ones would join
      words. */
  function PlainText(o: Options, lex: seq<Lexeme>): string { PlainFrom(o, lex, 0, Flow("", false, false)) }

  function DataFrom(lex: seq<Lexeme>, i: nat, otherwise: string): string {
    if i < |lex| && lex[i].token.Data? then lex[i].token.value else otherwise
  }

  /** A body once the lexemes from `i` on that still belong to it are read. */
  function Completed(body: Body, lex: seq<Lexeme>, i: nat): Body
    requires i <= |lex|
  {
    Body(body.attributes + AttributesFrom(lex, i), DataFrom(lex, SkipAttributes(lex, i), body.data))
  }

  /** Attributes and data of the tag whose head is lexeme `at`. */
  function BodyAt(o: Options, original: string, lex: seq<Lexeme>, at: nat): Body
    requires at < |lex| && ScannerOrder(original, lex)
  {
    if lex[at].token.TagStart? && Lower(lex[at].token.name) in o.ignoredTags
      && AfterIgnored(lex, at + 1, Lower(lex[at].token.name)).Some? then
      var first := SkipAttributes(lex, at + 1);
      var last := AfterIgnored(lex, at + 1, Lower(lex[at].token.name)).value - 1;
      OffsetsGrow(original, lex, first, last);
      Body(AttributesFrom(lex, at + 1), original[lex[first].start..lex[last].start])
    else
      Completed(Body("", ""), lex, at + 1)
  }

  // ---- From printed events to the document ----

  function SeenOne(e: Event): seq<DocEvent> {
    match e
    case Open(t) => if t.kind == Whitespace then [] else [Opened(t.id, t.kind, t.name)]
    case Close(t) => [Closed(Lower(t.name))]
  }

  /** Printed events as a reader of the document sees them: inserted breaks print nothing. */
  function Seen(es: seq<Event>): seq<DocEvent> {
    if es == [] then [] else SeenOne(es[0]) + Seen(es[1..])
  }

  lemma {:induction false} SeenAppend(es: seq<Event>, fs: seq<Event>)
    ensures Seen(es + fs) == Seen(es) + Seen(fs)
  {
    if es == [] {
      assert es + fs == fs;
    } else {
      assert (es + fs)[1..] == es[1..] + fs;
      SeenAppend(es[1..], fs);
    }
  }

  lemma {:induction false} NestAppend(open: seq<string>, es: seq<DocEvent>, fs: seq<DocEvent>)
    ensures Nest(open, es + fs) == match Nest(open, es) case None => None case Some(mid) => Nest(mid, fs)
    decreases es
  {
    if es == [] {
      assert es + fs == fs;
    } else {
      assert (es + fs)[1..] == es[1..] + fs;
      match es[0]
      case Opened(_, kind, name) => NestAppend(if kind == Element then open + [Lower(name)] else open, es[1..], fs);
      case Closed(name) =>
        if open != [] && open[|open| - 1] == name { NestAppend(open[..|open| - 1], es[1..], fs); }
    }
  }

  // ---- What the reader keeps while it goes through the lexemes ----

  function Names(stack: TagStack): (names: seq<string>)
    ensures |names| == |stack|
  {
    if stack == [] then [] else Names(stack[..|stack| - 1]) + [Lower(stack[|stack| - 1].name)]
  }

  /** How the open tags relate to those of the last span: a common part, then tags the span does not know. All are
      elements whose heads lie before lexeme `i`. */
  ghost predicate StackFits(last: TagStack, stack: TagStack, i: nat) {
    && (forall j :: 0 <= j < |stack| ==> stack[j].kind == Element)
    && (forall t <- stack :: t.id < i) && (forall t <- last :: t.id < i)
    && (forall j :: Common(last, stack) <= j < |stack| ==> stack[j] !in last)
  }

  /** Everything seen so far, in the recorded spans and since. */
  ghost function SoFar(spans: seq<Span>, stack: TagStack): seq<DocEvent>
    requires spans != []
  {
    Seen(Replay(spans) + Emit(spans[|spans| - 1].tags, stack))
  }

  ghost predicate InStep(o: Options, lex: seq<Lexeme>, i: nat, spans: seq<Span>, stack: TagStack) {
    && spans != [] && spans[0] == Span(0, 0, [])
    && StackFits(spans[|spans| - 1].tags, stack, i)
    && Document(o, lex, 0) == Prepend(SoFar(spans, stack), Document(o, lex, i))
    && Nest([], SoFar(spans, stack)) == Some(Names(stack))
  }

  predicate Unfold(at: nat, i: nat, spans: seq<Span>, stack: TagStack) { true }

  /** The spans and the open tags are in step with the document read up to lexeme `i`. Stated so that it unfolds only
      where `Unfold` is mentioned. */
  ghost predicate Tracked(o: Options, lex: seq<Lexeme>, i: nat, spans: seq<Span>, stack: TagStack) {
    forall at: nat {:trigger Unfold(at, i, spans, stack)} :: Unfold(at, i, spans, stack) ==>
      InStep(o, lex, i, spans, stack)
  }

  lemma Fold(o: Options, lex: seq<Lexeme>, i: nat, spans: seq<Span>, stack: TagStack)
    requires InStep(o, lex, i, spans, stack)
    ensures Tracked(o, lex, i, spans, stack)
  {}

  lemma CommonPush(last: TagStack, stack: TagStack, t: Tag, i: nat)
    requires (forall u <- last :: u.id < i) && t.id == i
    ensures Common(last, stack + [t]) == Common(last, stack) <= |stack|
  {
    CommonIsLongest(last, stack);
    var k := Common(last, stack);
    assert (stack + [t])[..k] == stack[..k];
    CommonIs(last, stack + [t], k);
  }

  lemma EmitPush(last: TagStack, stack: TagStack, t: Tag, i: nat)
    requires StackFits(last, stack, i) && t.id == i
    ensures Emit(last, stack + [t]) == Emit(last, stack) + [Open(t)]
    ensures t.kind == Element ==> StackFits(last, stack + [t], i + 1)
  {
    CommonPush(last, stack, t, i);
    CommonIsLongest(last, stack);
    var k := Common(last, stack);
    assert (stack + [t])[k..] == stack[k..] + [t];
    OpensAppend(stack[k..], [t]);
    assert Opens([t]) == [Open(t)];
    Associate(Closes(last[k..]), Opens(stack[k..]), [Open(t)]);
  }

  lemma {:induction false} OpensAppend(s: TagStack, t: TagStack)
    ensures Opens(s + t) == Opens(s) + Opens(t)
  {
    if s == [] {
      assert s + t == t;
    } else {
      assert (s + t)[1..] == s[1..] + t;
      OpensAppend(s[1..], t);
    }
  }

  /** Recording the open tags, with or without one more that is at once gone again, loses nothing. */
  lemma RecordKeeps(spans: seq<Span>, stack: TagStack, span: Span, i: nat)
    requires spans != [] && StackFits(spans[|spans| - 1].tags, stack, i) && span.tags == stack
    ensures StackFits(stack, stack, i)
    ensures SoFar(spans + [span], stack) == SoFar(spans, stack)
  {
    ReplayAppend(spans, span);
    EmitSame(stack);
    CommonIs(stack, stack, |stack|);
    var w := Replay(spans + [span]);
    assert w + [] == w;
  }

  lemma RecordExtra(spans: seq<Span>, stack: TagStack, t: Tag, span: Span, i: nat)
    requires spans != [] && StackFits(spans[|spans| - 1].tags, stack, i) && t.id == i && span.tags == stack + [t]
    ensures StackFits(stack + [t], stack, i + 1)
    ensures SoFar(spans + [span], stack)
         == SoFar(spans, stack) + SeenOne(Open(t)) + (if t.kind == Element then [Closed(Lower(t.name))] else [])
  {
    var last := spans[|spans| - 1].tags;
    var w, open, gone := Replay(spans) + Emit(last, stack), [Open(t)], Closes([t]);
    EmitPush(last, stack, t, i);
    EmitDropLast(stack, t);
    ReplayAppend(spans, span);
    Associate(Replay(spans), Emit(last, stack), open);
    SeenThree(w, open, gone);
    SeenSingles(t);
    ExtraFits(stack, t, i);
  }

  lemma SeenThree(a: seq<Event>, b: seq<Event>, c: seq<Event>)
    ensures Seen((a + b) + c) == Seen(a) + Seen(b) + Seen(c)
  {
    SeenAppend(a + b, c);
    SeenAppend(a, b);
  }

  lemma ExtraFits(stack: TagStack, t: Tag, i: nat)
    requires forall j :: 0 <= j < |stack| ==> stack[j].kind == Element
    requires (forall u <- stack :: u.id < i) && t.id == i
    ensures StackFits(stack + [t], stack, i + 1)
  {
    CommonIs(stack + [t], stack, |stack|);
  }

  lemma EmitDropLast(stack: TagStack, t: Tag)
    ensures Common(stack + [t], stack) == |stack|
    ensures Emit(stack + [t], stack) == Closes([t])
  {
    CommonIs(stack + [t], stack, |stack|);
    assert (stack + [t])[|stack|..] == [t] && stack[|stack|..] == [];
    var closed := Closes([t]);
    assert closed + [] == closed;
  }

  lemma SeenSingles(t: Tag)
    ensures Seen([Open(t)]) == SeenOne(Open(t)) && Seen([Close(t)]) == [Closed(Lower(t.name))]
    ensures Seen(Closes([t])) == if t.kind == Element then [Closed(Lower(t.name))] else []
  {
    assert Closes([t]) == if t.kind == Element then [Close(t)] else [];
    assert SeenOne(Open(t)) + [] == SeenOne(Open(t));
  }

  /** Closing the innermost tag once the last span knows it. */
  lemma EmitPop(last: TagStack, stack: TagStack, i: nat)
    requires StackFits(last, stack, i) && stack != [] && stack[|stack| - 1] in last
    ensures StackFits(last, stack[..|stack| - 1], i)
    ensures Emit(last, stack[..|stack| - 1]) == Emit(last, stack) + [Close(stack[|stack| - 1])]
  {
    CommonIsLongest(last, stack);
    var n := |stack| - 1;
    assert Common(last, stack) == |stack|;
    assert last[..n] == last[..n + 1][..n] == stack[..n];
    CommonIs(last, stack[..n], n);
    assert last[n] == stack[n] by { assert last[n] == last[..n + 1][n]; }
    assert last[n..][1..] == last[n + 1..];
    assert Closes(last[n..]) == Closes(last[n + 1..]) + [Close(stack[n])];
    assert stack[n + 1..] == [] && stack[..n][n..] == [];
  }

  /** Lexemes that neither start nor end anything: text, attributes, data, ends of comments and of void tags. */
  predicate Quiet(o: Options, lex: seq<Lexeme>, i: nat) {
    && i < |lex|
    && match lex[i].token
       case Text(_) => true
       case Attribute(_, _) => true
       case Data(_) => true
       case CommentEnd => true
       case InstructionEnd => true
       case TagEnd(name) => Lower(name) in o.voidTags
       case _ => false
  }

  lemma TrackedQuiet(o: Options, lex: seq<Lexeme>, i: nat, spans: seq<Span>, stack: TagStack)
    requires Tracked(o, lex, i, spans, stack) && Quiet(o, lex, i)
    ensures Tracked(o, lex, i + 1, spans, stack)
  {
    assert Unfold(0, i, spans, stack);
    FitsLater(spans[|spans| - 1].tags, stack, i, i + 1);
    DocumentOfQuiet(o, lex, i);
    Fold(o, lex, i + 1, spans, stack);
  }

  /** A break before a piece of text. */
  lemma TrackedBreak(o: Options, lex: seq<Lexeme>, i: nat, spans: seq<Span>, stack: TagStack, span: Span)
    requires Tracked(o, lex, i, spans, stack) && i < |lex| && lex[i].token.Text?
    requires span.tags == stack + [Tag(i, Whitespace, "")]
    ensures Tracked(o, lex, i + 1, spans + [span], stack)
  {
    assert Unfold(0, i, spans, stack);
    RecordExtra(spans, stack, Tag(i, Whitespace, ""), span, i);
    var done := SoFar(spans, stack);
    assert done + [] + [] == done;
    DocumentOfQuiet(o, lex, i);
    Fold(o, lex, i + 1, spans + [span], stack);
  }

  lemma TrackedRecord(o: Options, lex: seq<Lexeme>, i: nat, spans: seq<Span>, stack: TagStack, span: Span)
    requires Tracked(o, lex, i, spans, stack) && span.tags == stack
    ensures Tracked(o, lex, i, spans + [span], stack)
  {
    assert Unfold(0, i, spans, stack);
    RecordKeeps(spans, stack, span, i);
    Fold(o, lex, i, spans + [span], stack);
  }

  lemma NestOne(stack: TagStack, e: DocEvent)
    ensures e.Opened? ==>
            Nest(Names(stack), [e]) == Some(if e.kind == Element then Names(stack) + [Lower(e.name)] else Names(stack))
    ensures e.Closed? ==>
              Nest(Names(stack), [e]) ==
              (if stack != [] && Lower(stack[|stack| - 1].name) == e.name then Some(Names(stack[..|stack| - 1]))
               else None)
  {
    if e.Closed? && stack != [] {
      assert Names(stack)[..|stack| - 1] == Names(stack[..|stack| - 1]);
    }
  }

  lemma PrependPrepend(es: seq<DocEvent>, fs: seq<DocEvent>, rest: Option<seq<DocEvent>>)
    ensures Prepend(es, Prepend(fs, rest)) == Prepend(es + fs, rest)
  {
    if rest.Some? { assert es + (fs + rest.value) == (es + fs) + rest.value; }
  }

  /** Reading on: what lexemes `i` to `j` show is appended to what was seen. */
  lemma Advance(o: Options, lex: seq<Lexeme>, i: nat, j: nat, done: seq<DocEvent>, more: seq<DocEvent>,
                open: seq<string>)
    requires Document(o, lex, 0) == Prepend(done, Document(o, lex, i))
    requires Document(o, lex, i) == Prepend(more, Document(o, lex, j))
    requires Nest([], done) == Some(open)
    ensures Document(o, lex, 0) == Prepend(done + more, Document(o, lex, j))
    ensures Nest([], done + more) == Nest(open, more)
  {
    PrependPrepend(done, more, Document(o, lex, j));
    NestAppend([], done, more);
  }

  /** What a step must bring about for the reader to stay in step with the document. */
  lemma TrackedAdvance(o: Options, lex: seq<Lexeme>, i: nat, j: nat, spans: seq<Span>, stack: TagStack,
                       spans': seq<Span>, stack': TagStack, more: seq<DocEvent>)
    requires Tracked(o, lex, i, spans, stack) && spans != []
    requires Document(o, lex, i) == Prepend(more, Document(o, lex, j))
    requires spans' != [] && spans'[0] == Span(0, 0, []) && StackFits(spans'[|spans'| - 1].tags, stack', j)
    requires SoFar(spans', stack') == SoFar(spans, stack) + more && Nest(Names(stack), more) == Some(Names(stack'))
    ensures Tracked(o, lex, j, spans', stack')
  {
    assert Unfold(0, i, spans, stack);
    Advance(o, lex, i, j, SoFar(spans, stack), more, Names(stack));
    Fold(o, lex, j, spans', stack');
  }

  lemma FitsLater(last: TagStack, stack: TagStack, i: nat, j: nat)
    requires StackFits(last, stack, i) && i <= j
    ensures StackFits(last, stack, j)
  {}

  lemma DocumentOfQuiet(o: Options, lex: seq<Lexeme>, i: nat)
    requires Quiet(o, lex, i)
    ensures Document(o, lex, i) == Document(o, lex, i + 1)
  {}

  lemma DocumentOfEnd(o: Options, lex: seq<Lexeme>, i: nat)
    requires i < |lex| && lex[i].token.TagEnd? && Lower(lex[i].token.name) !in o.voidTags
    ensures Document(o, lex, i) == Prepend([Closed(Lower(lex[i].token.name))], Document(o, lex, i + 1))
  {}

  lemma DocumentOfElement(o: Options, lex: seq<Lexeme>, i: nat)
    requires i < |lex| && lex[i].token.TagStart? && Lower(lex[i].token.name) !in o.ignoredTags
    ensures var name := lex[i].token.name;
            Document(o, lex, i) == Prepend([Opened(i, TagKind(o, name), name)], Document(o, lex, i + 1))
  {}

  /** Void elements, comments and processing instructions. */
  predicate EmptyTag(o: Options, lex: seq<Lexeme>, i: nat, t: Tag) {
    && i < |lex|
    && match lex[i].token
       case TagStart(name) => Lower(name) !in o.ignoredTags && TagKind(o, name) == VoidElement
         && t == Tag(i, VoidElement, name)
       case CommentStart => t == Tag(i, Comment, "")
       case InstructionStart => t == Tag(i, ProcessingInstruction, "")
       case _ => false
  }

  lemma DocumentOfEmptyTag(o: Options, lex: seq<Lexeme>, i: nat, t: Tag)
    requires EmptyTag(o, lex, i, t)
    ensures Document(o, lex, i) == Prepend([Opened(i, t.kind, t.name)] + [], Document(o, lex, i + 1))
  {
    assert [Opened(i, t.kind, t.name)] + [] == [Opened(i, t.kind, t.name)];
  }

  lemma DocumentOfIgnored(o: Options, lex: seq<Lexeme>, i: nat, j: nat)
    requires i < |lex| && lex[i].token.TagStart? && Lower(lex[i].token.name) in o.ignoredTags
    requires AfterIgnored(lex, i + 1, Lower(lex[i].token.name)) == Some(j)
    ensures var name := lex[i].token.name;
            Document(o, lex, i)
              == Prepend([Opened(i, TagKind(o, name), name)] + [Closed(Lower(name))], Document(o, lex, j))
    ensures DocumentText(o, lex, i) == DocumentText(o, lex, j)
  {
    var name := lex[i].token.name;
    assert [Opened(i, TagKind(o, name), name)] + [Closed(Lower(name))]
           == [Opened(i, TagKind(o, name), name), Closed(Lower(name))];
  }

  lemma TextOfText(o: Options, lex: seq<Lexeme>, i: nat)
    requires i < |lex| && lex[i].token.Text?
    ensures DocumentText(o, lex, i) == lex[i].token.value + DocumentText(o, lex, i + 1)
  {}

  /** Only text and ignored elements hold text. */
  lemma TextOfOthers(o: Options, lex: seq<Lexeme>, i: nat)
    requires i < |lex| && !lex[i].token.Text? && (lex[i].token.TagStart? ==> Lower(lex[i].token.name) !in o.ignoredTags)
    ensures DocumentText(o, lex, i) == DocumentText(o, lex, i + 1)
  {}

  lemma PushSeen(spans: seq<Span>, stack: TagStack, t: Tag)
    requires spans != []
    requires Emit(spans[|spans| - 1].tags, stack + [t]) == Emit(spans[|spans| - 1].tags, stack) + [Open(t)]
    ensures SoFar(spans, stack + [t]) == SoFar(spans, stack) + SeenOne(Open(t))
  {
    var w := Replay(spans) + Emit(spans[|spans| - 1].tags, stack);
    assert Replay(spans) + Emit(spans[|spans| - 1].tags, stack + [t]) == w + [Open(t)];
    SeenAppend(w, [Open(t)]);
    SeenSingles(t);
  }

  /** An element's head: the tag goes onto the stack. */
  lemma TrackedOpen(o: Options, lex: seq<Lexeme>, i: nat, spans: seq<Span>, stack: TagStack, t: Tag)
    requires Tracked(o, lex, i, spans, stack) && i < |lex| && lex[i].token == TagStart(t.name)
    requires t == Tag(i, Element, t.name)
    requires TagKind(o, t.name) == Element && Lower(t.name) !in o.ignoredTags
    ensures Tracked(o, lex, i + 1, spans, stack + [t])
  {
    var e := Opened(i, Element, t.name);
    assert spans != [] && spans[0] == Span(0, 0, []) && StackFits(spans[|spans| - 1].tags, stack, i) by {
      assert Unfold(0, i, spans, stack);
    }
    assert StackFits(spans[|spans| - 1].tags, stack + [t], i + 1) by {
      EmitPush(spans[|spans| - 1].tags, stack, t, i);
    }
    assert SoFar(spans, stack + [t]) == SoFar(spans, stack) + [e] by {
      EmitPush(spans[|spans| - 1].tags, stack, t, i);
      PushSeen(spans, stack, t);
    }
    assert Nest(Names(stack), [e]) == Some(Names(stack + [t])) by {
      NestOne(stack, e);
      assert Names(stack + [t]) == Names(stack) + [Lower(t.name)];
    }
    DocumentOfElement(o, lex, i);
    TrackedAdvance(o, lex, i, i + 1, spans, stack, spans, stack + [t], [e]);
  }

  /** Tags applied to an empty span: void elements, comments, instructions, and ignored elements, which end at `j`. */
  lemma TrackedEmpty(o: Options, lex: seq<Lexeme>, i: nat, j: nat, spans: seq<Span>, stack: TagStack, t: Tag,
                     span: Span)
    requires Tracked(o, lex, i, spans, stack) && t.id == i < j && t.kind != Whitespace && span.tags == stack + [t]
    requires Document(o, lex, i)
          == Prepend([Opened(i, t.kind, t.name)] + (if t.kind == Element then [Closed(Lower(t.name))] else []),
                     Document(o, lex, j))
    ensures Tracked(o, lex, j, spans + [span], stack)
  {
    assert Unfold(0, i, spans, stack);
    EmptyTagSeen(spans, stack, t, span, i);
    var more := [Opened(i, t.kind, t.name)] + (if t.kind == Element then [Closed(Lower(t.name))] else []);
    NestEmpty(stack, t, i);
    FitsLater(stack + [t], stack, i + 1, j);
    TrackedAdvance(o, lex, i, j, spans, stack, spans + [span], stack, more);
  }

  lemma TrackedEmptyTag(o: Options, lex: seq<Lexeme>, i: nat, spans: seq<Span>, stack: TagStack, t: Tag, span: Span)
    requires Tracked(o, lex, i, spans, stack) && EmptyTag(o, lex, i, t) && span.tags == stack + [t]
    ensures Tracked(o, lex, i + 1, spans + [span], stack)
  {
    DocumentOfEmptyTag(o, lex, i, t);
    TrackedEmpty(o, lex, i, i + 1, spans, stack, t, span);
  }

  lemma TrackedIgnored(o: Options, lex: seq<Lexeme>, i: nat, spans: seq<Span>, stack: TagStack, t: Tag, j: nat,
                       span: Span)
    requires Tracked(o, lex, i, spans, stack) && i < |lex| && lex[i].token == TagStart(t.name)
    requires t == Tag(i, Element, t.name) && TagKind(o, t.name) == Element && Lower(t.name) in o.ignoredTags
    requires AfterIgnored(lex, i + 1, Lower(t.name)) == Some(j) && span.tags == stack + [t]
    ensures Tracked(o, lex, j, spans + [span], stack)
  {
    DocumentOfIgnored(o, lex, i, j);
    TrackedEmpty(o, lex, i, j, spans, stack, t, span);
  }

  lemma EmptyTagSeen(spans: seq<Span>, stack: TagStack, t: Tag, span: Span, i: nat)
    requires spans != [] && StackFits(spans[|spans| - 1].tags, stack, i) && t.id == i && t.kind != Whitespace
    requires span.tags == stack + [t]
    ensures StackFits(stack + [t], stack, i + 1)
    ensures SoFar(spans + [span], stack)
         == SoFar(spans, stack)
           + ([Opened(i, t.kind, t.name)] + (if t.kind == Element then [Closed(Lower(t.name))] else []))
  {
    RecordExtra(spans, stack, t, span, i);
    var done, e, f := SoFar(spans, stack), [Opened(i, t.kind, t.name)], if t.kind == Element
      then [Closed(Lower(t.name))] else [];
    assert done + e + f == done + (e + f);
  }

  lemma NestEmpty(stack: TagStack, t: Tag, i: nat)
    ensures Nest(Names(stack), [Opened(i, t.kind, t.name)]
                 + (if t.kind == Element then [Closed(Lower(t.name))] else []))
         == Some(Names(stack))
  {
    var e, f := Opened(i, t.kind, t.name), Closed(Lower(t.name));
    NestOne(stack, e);
    if t.kind == Element {
      NestAppend(Names(stack), [e], [f]);
      assert Names(stack + [t]) == Names(stack) + [Lower(t.name)];
      NestOne(stack + [t], f);
      assert (stack + [t])[..|stack|] == stack;
    } else {
      assert [e] + [] == [e];
    }
  }

  /** An end tag that matches: the tag leaves the stack. */
  lemma TrackedClose(o: Options, lex: seq<Lexeme>, i: nat, spans: seq<Span>, stack: TagStack)
    requires Tracked(o, lex, i, spans, stack) && i < |lex| && stack != [] && spans != []
    requires stack[|stack| - 1] in spans[|spans| - 1].tags
    requires lex[i].token.TagEnd? && Lower(lex[i].token.name) !in o.voidTags
    requires Lower(lex[i].token.name) == Lower(stack[|stack| - 1].name)
    ensures Tracked(o, lex, i + 1, spans, stack[..|stack| - 1])
  {
    var rest, e := stack[..|stack| - 1], Closed(Lower(stack[|stack| - 1].name));
    assert spans[0] == Span(0, 0, []) && StackFits(spans[|spans| - 1].tags, stack, i) by {
      assert Unfold(0, i, spans, stack);
    }
    assert StackFits(spans[|spans| - 1].tags, rest, i + 1) by {
      EmitPop(spans[|spans| - 1].tags, stack, i);
      FitsLater(spans[|spans| - 1].tags, rest, i, i + 1);
    }
    assert SoFar(spans, rest) == SoFar(spans, stack) + [e] by {
      EmitPop(spans[|spans| - 1].tags, stack, i);
      PopSeen(spans, stack);
    }
    assert Nest(Names(stack), [e]) == Some(Names(rest)) by {
      NestOne(stack, e);
    }
    DocumentOfEnd(o, lex, i);
    TrackedAdvance(o, lex, i, i + 1, spans, stack, spans, rest, [e]);
  }

  lemma PopSeen(spans: seq<Span>, stack: TagStack)
    requires spans != [] && stack != []
    requires Emit(spans[|spans| - 1].tags, stack[..|stack| - 1])
          == Emit(spans[|spans| - 1].tags, stack) + [Close(stack[|stack| - 1])]
    ensures SoFar(spans, stack[..|stack| - 1]) == SoFar(spans, stack) + [Closed(Lower(stack[|stack| - 1].name))]
  {
    var w := Replay(spans) + Emit(spans[|spans| - 1].tags, stack);
    var close := [Close(stack[|stack| - 1])];
    assert Replay(spans) + Emit(spans[|spans| - 1].tags, stack[..|stack| - 1]) == w + close;
    SeenAppend(w, close);
    SeenSingles(stack[|stack| - 1]);
  }

  /** An end tag that does not match makes the document unreadable. */
  lemma MismatchRejects(o: Options, lex: seq<Lexeme>, i: nat, spans: seq<Span>, stack: TagStack, name: string)
    requires Tracked(o, lex, i, spans, stack) && i < |lex| && lex[i].token.TagEnd?
    requires name == Lower(lex[i].token.name) && name !in o.voidTags
    requires stack == [] || Lower(stack[|stack| - 1].name) != name
    ensures !Accepted(o, lex)
  {
    assert Unfold(0, i, spans, stack);
    DocumentOfEnd(o, lex, i);
    if Document(o, lex, 0).Some? {
      var done, rest := SoFar(spans, stack), Document(o, lex, i + 1).value;
      assert Document(o, lex, 0).value == done + ([Closed(name)] + rest);
      NestAppend([], done, [Closed(name)] + rest);
      NestAppend(Names(stack), [Closed(name)], rest);
      NestOne(stack, Closed(name));
    }
  }

  lemma TrackedStart(o: Options, lex: seq<Lexeme>)
    ensures Tracked(o, lex, 0, [Span(0, 0, [])], [])
  {
    EmitSame([]);
    var spans := [Span(0, 0, [])];
    assert Replay(spans) == [];
    assert SoFar(spans, []) == [];
    assert Names([]) == [];
    if Document(o, lex, 0).Some? { assert [] + Document(o, lex, 0).value == Document(o, lex, 0).value; }
    Fold(o, lex, 0, spans, []);
  }

  /** At the end: the document is readable exactly when no tag is left open, and then the spans replay it. */
  lemma TrackedEnd(o: Options, lex: seq<Lexeme>, spans: seq<Span>, stack: TagStack, span: Span)
    requires Tracked(o, lex, |lex|, spans, stack) && span.tags == stack
    ensures spans != [] && spans[0] == Span(0, 0, [])
    ensures Accepted(o, lex) <==> stack == []
    ensures stack == [] ==> Document(o, lex, 0) == Some(Seen(Replay(spans + [span])))
  {
    assert Unfold(0, |lex|, spans, stack);
    var done := SoFar(spans, stack);
    assert done + [] == done;
    assert Document(o, lex, 0) == Some(done);
    assert Names(stack) == [] <==> stack == [] by { assert |Names(stack)| == |stack|; }
    ReplayAppend(spans, span);
  }
}
