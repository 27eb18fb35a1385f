/** The parser's loop over the tokens, proved against the document read without spans or stacks. */
module HtmlParser {
  import opened Basics
  import opened Markup
  import opened HtmlParsing
  import opened PlainTexts

  // ---- The plain text behind the spans ----

  /** Spans follow each other within the first `size` characters. */
  ghost predicate SpansFit(spans: seq<Span>, size: nat) {
    spans == [] || var last := spans[|spans| - 1];
      last.begin <= last.end <= size && SpansFit(spans[..|spans| - 1], last.begin)
  }

  lemma {:induction false} SpansInOrder(spans: seq<Span>, size: nat, j: nat, k: nat)
    requires SpansFit(spans, size) && j <= k < |spans|
    ensures spans[j].begin <= spans[j].end <= size && (j < k ==> spans[j].end <= spans[k].begin)
    decreases |spans|
  {
    var n := |spans| - 1;
    if j < n {
      SpansInOrder(spans[..n], spans[n].begin, j, if k < n then k else j);
    }
  }

  /** The text the spans cover, in order. Inserted breaks are between spans. */
  ghost function Plain(source: string, spans: seq<Span>): string
    requires SpansFit(spans, |source|)
  {
    if spans == [] then "" else
      var n := |spans| - 1;
      FitsMore(spans[..n], spans[n].begin, |source|);
      Plain(source, spans[..n]) + source[spans[n].begin..spans[n].end]
  }

  lemma {:induction false} FitsMore(spans: seq<Span>, size: nat, more: nat)
    requires SpansFit(spans, size) && size <= more
    ensures SpansFit(spans, more)
  {}

  lemma {:induction false} PlainGrow(source: string, more: string, spans: seq<Span>)
    requires SpansFit(spans, |source|)
    ensures SpansFit(spans, |source + more|) && Plain(source + more, spans) == Plain(source, spans)
  {
    FitsMore(spans, |source|, |source + more|);
    if spans != [] {
      var n := |spans| - 1;
      FitsMore(spans[..n], spans[n].begin, |source|);
      PlainGrow(source, more, spans[..n]);
      assert (source + more)[spans[n].begin..spans[n].end] == source[spans[n].begin..spans[n].end];
    }
  }

  ghost predicate Covered(o: Options, lex: seq<Lexeme>, i: nat, source: string, spans: seq<Span>) {
    && SpansFit(spans, |source|)
    && Plain(source, spans) + DocumentText(o, lex, i) == DocumentText(o, lex, 0)
  }

  predicate UnfoldText(at: nat, i: nat, source: string, spans: seq<Span>) { true }

  /** The spans cover the text of the document read so far. Unfolds only where `UnfoldText` is mentioned. */
  ghost predicate Texted(o: Options, lex: seq<Lexeme>, i: nat, source: string, spans: seq<Span>) {
    forall at: nat {:trigger UnfoldText(at, i, source, spans)} :: UnfoldText(at, i, source, spans) ==>
      Covered(o, lex, i, source, spans)
  }

  lemma FoldText(o: Options, lex: seq<Lexeme>, i: nat, source: string, spans: seq<Span>)
    requires Covered(o, lex, i, source, spans)
    ensures Texted(o, lex, i, source, spans)
  {}

  lemma TextedSpan(o: Options, lex: seq<Lexeme>, i: nat, source: string, spans: seq<Span>, span: Span)
    requires Texted(o, lex, i, source, spans) && span.begin == span.end == |source|
    ensures Texted(o, lex, i, source, spans + [span])
  {
    assert UnfoldText(0, i, source, spans);
    assert (spans + [span])[..|spans|] == spans;
    assert source[|source|..|source|] == "";
    assert Plain(source, spans) + "" == Plain(source, spans);
    FoldText(o, lex, i, source, spans + [span]);
  }

  /** Only text and ignored elements hold text. */
  lemma TextedOther(o: Options, lex: seq<Lexeme>, i: nat, source: string, spans: seq<Span>)
    requires Texted(o, lex, i, source, spans) && i < |lex|
    requires !lex[i].token.Text? && (lex[i].token.TagStart? ==> Lower(lex[i].token.name) !in o.ignoredTags)
    ensures Texted(o, lex, i + 1, source, spans)
  {
    assert UnfoldText(0, i, source, spans);
    TextOfOthers(o, lex, i);
    FoldText(o, lex, i + 1, source, spans);
  }

  lemma TextedIgnored(o: Options, lex: seq<Lexeme>, i: nat, j: nat, source: string, spans: seq<Span>)
    requires Texted(o, lex, i, source, spans) && i < |lex| && lex[i].token.TagStart?
    requires Lower(lex[i].token.name) in o.ignoredTags
    requires AfterIgnored(lex, i + 1, Lower(lex[i].token.name)) == Some(j)
    ensures Texted(o, lex, j, source, spans)
  {
    assert UnfoldText(0, i, source, spans);
    DocumentOfIgnored(o, lex, i, j);
    FoldText(o, lex, j, source, spans);
  }

  lemma TextedAppend(o: Options, lex: seq<Lexeme>, i: nat, source: string, spans: seq<Span>, value: string, span: Span)
    requires Texted(o, lex, i, source, spans) && i < |lex| && lex[i].token == Text(value)
    requires span.begin == |source| && span.end == |source + value|
    ensures Texted(o, lex, i + 1, source + value, spans + [span])
  {
    assert SpansFit(spans, |source|) && Plain(source, spans) + DocumentText(o, lex, i) == DocumentText(o, lex, 0) by {
      assert UnfoldText(0, i, source, spans);
    }
    PlainMore(source, value, spans, span);
    TextOfText(o, lex, i);
    Associate(Plain(source, spans), value, DocumentText(o, lex, i + 1));
    FoldText(o, lex, i + 1, source + value, spans + [span]);
  }

  lemma PlainMore(source: string, value: string, spans: seq<Span>, span: Span)
    requires SpansFit(spans, |source|) && span.begin == |source| && span.end == |source + value|
    ensures SpansFit(spans + [span], |source + value|)
    ensures Plain(source + value, spans + [span]) == Plain(source, spans) + value
  {
    PlainGrow(source, value, spans);
    assert (spans + [span])[..|spans|] == spans;
    assert (source + value)[|source|..|source + value|] == value;
  }

  // ---- Attributes and data ----

  type Pool = map<nat, Body>

  predicate UnfoldBody(at: nat, id: nat, body: Body) { true }

  /** A tag's final body. Unfolds only where `UnfoldBody` is mentioned. */
  ghost predicate IsBody(o: Options, original: string, lex: seq<Lexeme>, id: nat, body: Body)
    requires id < |lex| && ScannerOrder(original, lex)
  {
    forall at: nat {:trigger UnfoldBody(at, id, body)} :: UnfoldBody(at, id, body) ==>
      body == BodyAt(o, original, lex, id)
  }

  lemma FoldBody(o: Options, original: string, lex: seq<Lexeme>, id: nat, body: Body)
    requires id < |lex| && ScannerOrder(original, lex) && body == BodyAt(o, original, lex, id)
    ensures IsBody(o, original, lex, id, body)
  {}

  /** Tags whose lexemes have been read have their final body, the current one all but what still follows. */
  ghost predicate BodiesFit(o: Options, original: string, lex: seq<Lexeme>, i: nat, pool: Pool, tag: Option<nat>) {
    && ScannerOrder(original, lex) && i <= |lex|
    && (forall id <- pool ::
        id < i && IsBody(o, original, lex, id, if tag == Some(id) then Completed(pool[id], lex, i) else pool[id]))
    && (tag.Some? ==> tag.value in pool)
    && (i > 0 && Heads(lex[i - 1].token) ==> tag.Some?)
  }

  predicate UnfoldBodies(at: nat, i: nat, pool: Pool, tag: Option<nat>) { true }

  /** The same, but it unfolds only where `UnfoldBodies` is mentioned. */
  ghost predicate Bodied(o: Options, original: string, lex: seq<Lexeme>, i: nat, pool: Pool, tag: Option<nat>) {
    forall at: nat {:trigger UnfoldBodies(at, i, pool, tag)} :: UnfoldBodies(at, i, pool, tag) ==>
      BodiesFit(o, original, lex, i, pool, tag)
  }

  lemma FoldBodies(o: Options, original: string, lex: seq<Lexeme>, i: nat, pool: Pool, tag: Option<nat>)
    requires BodiesFit(o, original, lex, i, pool, tag)
    ensures Bodied(o, original, lex, i, pool, tag)
  {}

  /** Every tag that prints something has a body. */
  ghost predicate Known(tags: TagStack, pool: Pool) {
    forall t <- tags :: t.kind != Whitespace ==> t.id in pool
  }

  ghost predicate AllKnown(spans: seq<Span>, stack: TagStack, pool: Pool) {
    Known(stack, pool) && forall k :: 0 <= k < |spans| ==> Known(spans[k].tags, pool)
  }

  predicate UnfoldPool(at: nat, spans: seq<Span>, stack: TagStack, pool: Pool) { true }

  /** The same, but it unfolds only where `UnfoldPool` is mentioned. */
  ghost predicate Pooled(spans: seq<Span>, stack: TagStack, pool: Pool) {
    forall at: nat {:trigger UnfoldPool(at, spans, stack, pool)} :: UnfoldPool(at, spans, stack, pool) ==>
      AllKnown(spans, stack, pool)
  }

  lemma FoldPool(spans: seq<Span>, stack: TagStack, pool: Pool)
    requires AllKnown(spans, stack, pool)
    ensures Pooled(spans, stack, pool)
  {}

  lemma PooledGrow(spans: seq<Span>, stack: TagStack, pool: Pool, pool': Pool)
    requires Pooled(spans, stack, pool) && pool.Keys <= pool'.Keys
    ensures Pooled(spans, stack, pool')
  {
    assert UnfoldPool(0, spans, stack, pool);
    forall k | 0 <= k < |spans| ensures Known(spans[k].tags, pool') {
      assert Known(spans[k].tags, pool);
    }
    FoldPool(spans, stack, pool');
  }

  lemma PooledPush(spans: seq<Span>, stack: TagStack, pool: Pool, t: Tag)
    requires Pooled(spans, stack, pool) && t.id in pool
    ensures Pooled(spans, stack + [t], pool)
  {
    assert UnfoldPool(0, spans, stack, pool);
    FoldPool(spans, stack + [t], pool);
  }

  lemma PooledPop(spans: seq<Span>, stack: TagStack, pool: Pool)
    requires Pooled(spans, stack, pool) && stack != []
    ensures Pooled(spans, stack[..|stack| - 1], pool)
  {
    assert UnfoldPool(0, spans, stack, pool);
    FoldPool(spans, stack[..|stack| - 1], pool);
  }

  lemma PooledRecord(spans: seq<Span>, stack: TagStack, pool: Pool, span: Span)
    requires Pooled(spans, stack, pool) && span.tags == stack
    ensures Pooled(spans + [span], stack, pool)
  {
    assert UnfoldPool(0, spans, stack, pool);
    FoldPool(spans + [span], stack, pool);
  }

  lemma PooledExtra(spans: seq<Span>, stack: TagStack, pool: Pool, span: Span, t: Tag)
    requires Pooled(spans, stack, pool) && span.tags == stack + [t] && (t.kind != Whitespace ==> t.id in pool)
    ensures Pooled(spans + [span], stack, pool)
  {
    assert UnfoldPool(0, spans, stack, pool);
    FoldPool(spans + [span], stack, pool);
  }

  lemma NothingFollows(original: string, lex: seq<Lexeme>, i: nat, body: Body)
    requires ScannerOrder(original, lex) && 0 < i <= |lex| && !Heads(lex[i - 1].token)
    ensures Completed(body, lex, i) == body
  {
    if i < |lex| { assert InOrder(original, lex, i); }
    assert body.attributes + "" == body.attributes;
  }

  /** A lexeme that neither starts a tag nor fills one in. */
  lemma BodiedNext(o: Options, original: string, lex: seq<Lexeme>, i: nat, pool: Pool, tag: Option<nat>,
                   tag': Option<nat>)
    requires Bodied(o, original, lex, i, pool, tag) && i < |lex| && !Heads(lex[i].token) && !lex[i].token.Data?
    requires tag' == tag || tag' == None
    ensures Bodied(o, original, lex, i + 1, pool, tag')
  {
    assert UnfoldBodies(0, i, pool, tag);
    if tag.Some? { NothingFollows(original, lex, i + 1, pool[tag.value]); }
    FoldBodies(o, original, lex, i + 1, pool, tag');
  }

  lemma BodiedNew(o: Options, original: string, lex: seq<Lexeme>, i: nat, pool: Pool, tag: Option<nat>)
    requires Bodied(o, original, lex, i, pool, tag) && i < |lex| && Heads(lex[i].token) && !lex[i].token.Attribute?
    requires lex[i].token.TagStart? ==> Lower(lex[i].token.name) !in o.ignoredTags
    ensures Bodied(o, original, lex, i + 1, pool[i := Body("", "")], Some(i))
  {
    assert UnfoldBodies(0, i, pool, tag);
    FoldBody(o, original, lex, i, Completed(Body("", ""), lex, i + 1));
    FoldBodies(o, original, lex, i + 1, pool[i := Body("", "")], Some(i));
  }

  /** The body of an ignored element that ends just before lexeme `j`. */
  ghost predicate RawBody(original: string, lex: seq<Lexeme>, i: nat, j: nat, body: Body)
    requires i <= |lex| && SkipAttributes(lex, i) < j <= |lex|
  {
    var first, last := lex[SkipAttributes(lex, i)].start, lex[j - 1].start;
    first <= last <= |original| && body == Body(AttributesFrom(lex, i), original[first..last])
  }

  lemma BodiedIgnored(o: Options, original: string, lex: seq<Lexeme>, i: nat, j: nat, pool: Pool, tag: Option<nat>,
                      body: Body)
    requires Bodied(o, original, lex, i, pool, tag) && i + 1 < j <= |lex| && lex[i].token.TagStart?
    requires lex[j - 1].token.TagEnd?
    requires Lower(lex[i].token.name) in o.ignoredTags && AfterIgnored(lex, i + 1, Lower(lex[i].token.name)) == Some(j)
    requires RawBody(original, lex, i + 1, j, body)
    ensures Bodied(o, original, lex, j, pool[i := body], Some(i))
  {
    assert UnfoldBodies(0, i, pool, tag);
    NothingFollows(original, lex, j, body);
    FoldBody(o, original, lex, i, body);
    FoldBodies(o, original, lex, j, pool[i := body], Some(i));
  }

  lemma BodiedAttribute(o: Options, original: string, lex: seq<Lexeme>, i: nat, pool: Pool, tag: Option<nat>)
    requires Bodied(o, original, lex, i, pool, tag) && i < |lex| && lex[i].token.Attribute?
    ensures tag.Some? && tag.value in pool
    ensures var body := pool[tag.value];
            Bodied(o, original, lex, i + 1,
                   pool[tag.value := body.(attributes := body.attributes + AttributeText(lex[i].token))], tag)
  {
    assert UnfoldBodies(0, i, pool, tag);
    assert InOrder(original, lex, i);
    var body := pool[tag.value];
    var a, b := AttributeText(lex[i].token), AttributesFrom(lex, i + 1);
    assert body.attributes + (a + b) == (body.attributes + a) + b;
    FoldBodies(o, original, lex, i + 1, pool[tag.value := body.(attributes := body.attributes + a)], tag);
  }

  lemma BodiedData(o: Options, original: string, lex: seq<Lexeme>, i: nat, pool: Pool, tag: Option<nat>)
    requires Bodied(o, original, lex, i, pool, tag) && i < |lex| && lex[i].token.Data?
    ensures tag.Some? && tag.value in pool
    ensures Bodied(o, original, lex, i + 1, pool[tag.value := pool[tag.value].(data := lex[i].token.value)], tag)
  {
    assert UnfoldBodies(0, i, pool, tag);
    assert InOrder(original, lex, i);
    var body := pool[tag.value];
    NothingFollows(original, lex, i + 1, body.(data := lex[i].token.value));
    FoldBodies(o, original, lex, i + 1, pool[tag.value := body.(data := lex[i].token.value)], tag);
  }

  method ConsumeAttributes(lex: seq<Lexeme>, i: nat) returns (j: nat, attributes: string)
    requires i <= |lex|
    ensures j == SkipAttributes(lex, i) && attributes == AttributesFrom(lex, i)
  {
    j, attributes := i, "";
    while j < |lex| && lex[j].token.Attribute?
      invariant i <= j <= |lex| && SkipAttributes(lex, j) == SkipAttributes(lex, i)
      invariant attributes + AttributesFrom(lex, j) == AttributesFrom(lex, i)
    {
      Associate(attributes, AttributeText(lex[j].token), AttributesFrom(lex, j + 1));
      attributes := attributes + AttributeText(lex[j].token);
      j := j + 1;
    }
  }

  /** Skips an ignored element whose head has just been read, keeping its attributes and everything up to its final
      closing tag as raw data. */
  method ConsumeIgnoredTag(original: string, lex: seq<Lexeme>, i: nat, name: string)
    returns (next: Option<nat>, attributes: string, data: string)
    requires i <= |lex| && ScannerOrder(original, lex)
    ensures next == AfterIgnored(lex, i, name)
    ensures next.Some? ==> i < next.value <= |lex|
    ensures next.Some? ==>
            lex[next.value - 1].token.TagEnd? && RawBody(original, lex, i, next.value, Body(attributes, data))
  {
    var first;
    first, attributes := ConsumeAttributes(lex, i);
    var j := first;
    data := "";
    var inside := 1;
    while inside > 0
      invariant first <= j <= |lex| && inside >= 0
      invariant inside > 0 ==> SkipNested(lex, j, name, inside) == AfterIgnored(lex, i, name)
      invariant inside == 0 ==> j < |lex| && lex[j].token.TagEnd? && AfterIgnored(lex, i, name) == Some(j + 1)
      decreases |lex| - j, inside
    {
      if j >= |lex| || lex[j].token.Error? {
        return None, attributes, data;
      }
      match lex[j].token {
        case TagStart(n) => if Lower(n) == name { inside := inside + 1; }
        case TagEnd(n) => if Lower(n) == name { inside := inside - 1; }
        case _ =>
      }
      if inside > 0 {
        j := j + 1;
      }
    }
    OffsetsGrow(original, lex, first, j);
    data := original[lex[first].start..lex[j].start];
    next := Some(j + 1);
  }

  /** The parser's local variables: plain text so far, open tags, the tag attributes and data go to, whether a break
      is due before the next text, and the next lexeme. */
  datatype Reader = Reader(source: string, stack: TagStack, tag: Option<nat>, sentenceBreak: bool, wordBreak: bool,
                           i: nat) {
    function ToFlow(): Flow { Flow(source, sentenceBreak, wordBreak) }

    function Breaking(o: Options, name: string): Reader {
      var flow := ToFlow().Breaking(o, name);
      this.(sentenceBreak := flow.sentenceBreak, wordBreak := flow.wordBreak)
    }
  }

  /** The reader behind a start tag: an ignored element is passed over, an element's tag goes onto the stack. */
  function Started(o: Options, lex: seq<Lexeme>, r: Reader): Option<Reader>
    requires r.i < |lex| && lex[r.i].token.TagStart?
  {
    var start := lex[r.i].token.name;
    var t := Tag(r.i, TagKind(o, start), start);
    if Lower(start) in o.ignoredTags then
      match AfterIgnored(lex, r.i + 1, Lower(start))
      case None => None
      case Some(j) => Some(r.(tag := Some(r.i), i := j).Breaking(o, Lower(start)))
    else if t.kind == VoidElement then Some(r.(tag := Some(r.i), i := r.i + 1).Breaking(o, Lower(start)))
    else Some(r.(stack := r.stack + [t], tag := Some(r.i), i := r.i + 1).Breaking(o, Lower(start)))
  }

  /** The reader behind an end tag, if that matches; the end of a void element is passed over. */
  function Ended(o: Options, lex: seq<Lexeme>, r: Reader): Option<Reader>
    requires r.i < |lex| && lex[r.i].token.TagEnd?
  {
    var name := Lower(lex[r.i].token.name);
    if name in o.voidTags then Some(r.(i := r.i + 1))
    else if r.stack == [] || Lower(r.stack[|r.stack| - 1].name) != name then None
    else Some(r.(stack := r.stack[..|r.stack| - 1], i := r.i + 1).Breaking(o, name))
  }

  /** Spans, open tags, text and tag bodies all agree with the document read so far. */
  ghost predicate Reading(o: Options, original: string, lex: seq<Lexeme>, r: Reader, spans: seq<Span>, pool: Pool) {
    && spans != [] && Tracked(o, lex, r.i, spans, r.stack) && Texted(o, lex, r.i, r.source, spans)
    && Bodied(o, original, lex, r.i, pool, r.tag) && Pooled(spans, r.stack, pool)
  }

  predicate UnfoldPlain(k: nat, lex: seq<Lexeme>, r: Reader, r': Reader) { true }

  /** Both stand at places of the document from which it has the same plain text. Unfolds only where `UnfoldPlain` is
      mentioned. */
  ghost predicate SamePlain(o: Options, lex: seq<Lexeme>, r: Reader, r': Reader) {
    forall k: nat {:trigger UnfoldPlain(k, lex, r, r')} :: UnfoldPlain(k, lex, r, r') ==>
      PlainFrom(o, lex, r'.i, r'.ToFlow()) == PlainFrom(o, lex, r.i, r.ToFlow())
  }

  lemma SamePlainOn(o: Options, lex: seq<Lexeme>, r: Reader, r': Reader, r'': Reader)
    requires SamePlain(o, lex, r, r') && SamePlain(o, lex, r', r'')
    ensures SamePlain(o, lex, r, r'')
  {
    assert UnfoldPlain(0, lex, r, r') && UnfoldPlain(0, lex, r', r'');
  }

  lemma PlainAtEnd(o: Options, lex: seq<Lexeme>, r: Reader)
    requires SamePlain(o, lex, Reader("", [], None, false, false, 0), r) && r.i >= |lex|
    ensures r.source == PlainText(o, lex)
  {
    assert UnfoldPlain(0, lex, Reader("", [], None, false, false, 0), r);
  }

  lemma TextPlain(o: Options, lex: seq<Lexeme>, r: Reader, r': Reader)
    requires r.i < |lex| && lex[r.i].token.Text? && r'.i == r.i + 1
    requires r'.ToFlow() == Flow(Separated(o, r.ToFlow(), lex[r.i].token.value) + lex[r.i].token.value, false, false)
    ensures SamePlain(o, lex, r, r')
  {}

  lemma StartPlain(o: Options, lex: seq<Lexeme>, r: Reader, r': Reader)
    requires r.i < |lex| && lex[r.i].token.TagStart? && Started(o, lex, r) == Some(r')
    ensures SamePlain(o, lex, r, r')
  {}

  lemma EndPlain(o: Options, lex: seq<Lexeme>, r: Reader, r': Reader)
    requires r.i < |lex| && lex[r.i].token.TagEnd? && Ended(o, lex, r) == Some(r')
    ensures SamePlain(o, lex, r, r')
  {}

  /** Other lexemes have no part in the plain text. */
  lemma OtherPlain(o: Options, lex: seq<Lexeme>, r: Reader, r': Reader)
    requires r.i < |lex| && r'.i == r.i + 1 && r'.ToFlow() == r.ToFlow()
    requires !lex[r.i].token.Text? && !lex[r.i].token.TagStart? && !lex[r.i].token.TagEnd?
    ensures SamePlain(o, lex, r, r')
  {}

  // ---- One step of the reader for each kind of lexeme ----

  function EmptySpan(r: Reader, tags: TagStack): Span { Span(|r.source|, |r.source|, tags) }

  /** A paragraph break that is put in has an empty span of its own, where it begins. */
  function BreakSpans(spans: seq<Span>, r: Reader): seq<Span> {
    if r.sentenceBreak && |r.source| >= 2 && !EndsInBreak(r.source)
    then spans + [EmptySpan(r, r.stack + [Tag(r.i, Whitespace, "")])] else spans
  }

  /** Events up to and with the next lexeme, which is text, are in step; the text itself is still to come. */
  ghost predicate Ready(o: Options, original: string, lex: seq<Lexeme>, r: Reader, source: string, spans: seq<Span>,
                        pool: Pool) {
    && spans != [] && Tracked(o, lex, r.i + 1, spans, r.stack) && Texted(o, lex, r.i, source, spans)
    && Bodied(o, original, lex, r.i + 1, pool, r.tag) && Pooled(spans, r.stack, pool)
  }

  lemma PlainReady(o: Options, original: string, lex: seq<Lexeme>, r: Reader, spans: seq<Span>, pool: Pool)
    requires r.i < |lex| && lex[r.i].token.Text? && Reading(o, original, lex, r, spans, pool)
    ensures Ready(o, original, lex, r, r.source, spans, pool)
  {
    TrackedQuiet(o, lex, r.i, spans, r.stack);
    BodiedNext(o, original, lex, r.i, pool, r.tag, r.tag);
  }

  /** A paragraph break is a tag of its own, before the newlines. */
  lemma BreakReady(o: Options, original: string, lex: seq<Lexeme>, r: Reader, spans: seq<Span>, pool: Pool,
                   newlines: string)
    requires r.i < |lex| && lex[r.i].token.Text? && Reading(o, original, lex, r, spans, pool)
    ensures Ready(o, original, lex, r, r.source + newlines,
                  spans + [EmptySpan(r, r.stack + [Tag(r.i, Whitespace, "")])], pool)
  {
    var span := EmptySpan(r, r.stack + [Tag(r.i, Whitespace, "")]);
    TrackedBreak(o, lex, r.i, spans, r.stack, span);
    TextedSpan(o, lex, r.i, r.source, spans, span);
    TextedGrow(o, lex, r.i, r.source, newlines, spans + [span]);
    BodiedNext(o, original, lex, r.i, pool, r.tag, r.tag);
    PooledExtra(spans, r.stack, pool, span, Tag(r.i, Whitespace, ""));
  }

  lemma SpaceReady(o: Options, original: string, lex: seq<Lexeme>, r: Reader, source: string, spans: seq<Span>,
                   pool: Pool, space: string)
    requires Ready(o, original, lex, r, source, spans, pool)
    ensures Ready(o, original, lex, r, source + space, spans, pool)
  {
    TextedGrow(o, lex, r.i, source, space, spans);
  }

  /** The text itself gets a span with the open tags. */
  lemma TextStep(o: Options, original: string, lex: seq<Lexeme>, r: Reader, source: string, spans: seq<Span>,
                 pool: Pool, value: string)
    requires r.i < |lex| && lex[r.i].token == Text(value) && Ready(o, original, lex, r, source, spans, pool)
    ensures Reading(o, original, lex, Reader(source + value, r.stack, r.tag, false, false, r.i + 1),
                    spans + [Span(|source|, |source| + |value|, r.stack)], pool)
  {
    var span := Span(|source|, |source| + |value|, r.stack);
    TrackedRecord(o, lex, r.i + 1, spans, r.stack, span);
    TextedAppend(o, lex, r.i, source, spans, value, span);
    PooledRecord(spans, r.stack, pool, span);
  }

  lemma TextedGrow(o: Options, lex: seq<Lexeme>, i: nat, source: string, more: string, spans: seq<Span>)
    requires Texted(o, lex, i, source, spans)
    ensures Texted(o, lex, i, source + more, spans)
  {
    assert UnfoldText(0, i, source, spans);
    PlainGrow(source, more, spans);
    FoldText(o, lex, i, source + more, spans);
  }

  lemma ElementStep(o: Options, original: string, lex: seq<Lexeme>, r: Reader, spans: seq<Span>, pool: Pool, t: Tag)
    requires r.i < |lex| && lex[r.i].token == TagStart(t.name) && Reading(o, original, lex, r, spans, pool)
    requires t == Tag(r.i, Element, t.name) && TagKind(o, t.name) == Element && Lower(t.name) !in o.ignoredTags
    ensures Reading(o, original, lex, r.(stack := r.stack + [t], tag := Some(r.i), i := r.i + 1), spans,
                    pool[r.i := Body("", "")])
  {
    var r', pool' := r.(stack := r.stack + [t], tag := Some(r.i), i := r.i + 1), pool[r.i := Body("", "")];
    TrackedOpen(o, lex, r.i, spans, r.stack, t);
    TextedOther(o, lex, r.i, r.source, spans);
    BodiedNew(o, original, lex, r.i, pool, r.tag);
    PooledGrow(spans, r.stack, pool, pool');
    PooledPush(spans, r.stack, pool', t);
  }

  /** A tag without content is applied to an empty span and leaves the stack at once. */
  lemma EmptyTagStep(o: Options, original: string, lex: seq<Lexeme>, r: Reader, spans: seq<Span>, pool: Pool, t: Tag)
    requires EmptyTag(o, lex, r.i, t) && Reading(o, original, lex, r, spans, pool)
    ensures Reading(o, original, lex, r.(tag := Some(r.i), i := r.i + 1),
                    spans + [EmptySpan(r, r.stack + [t])], pool[r.i := Body("", "")])
  {
    var span := EmptySpan(r, r.stack + [t]);
    var r', pool' := r.(tag := Some(r.i), i := r.i + 1), pool[r.i := Body("", "")];
    TrackedEmptyTag(o, lex, r.i, spans, r.stack, t, span);
    TextedOther(o, lex, r.i, r.source, spans);
    TextedSpan(o, lex, r.i + 1, r.source, spans, span);
    BodiedNew(o, original, lex, r.i, pool, r.tag);
    PooledGrow(spans, r.stack, pool, pool');
    PooledExtra(spans, r.stack, pool', span, t);
  }

  /** An ignored element moves around like a tag without content. */
  lemma IgnoredStep(o: Options, original: string, lex: seq<Lexeme>, r: Reader, spans: seq<Span>, pool: Pool, t: Tag,
                    j: nat, body: Body)
    requires r.i < |lex| && lex[r.i].token == TagStart(t.name) && Reading(o, original, lex, r, spans, pool)
    requires t == Tag(r.i, Element, t.name) && TagKind(o, t.name) == Element && Lower(t.name) in o.ignoredTags
    requires AfterIgnored(lex, r.i + 1, Lower(t.name)) == Some(j) && lex[j - 1].token.TagEnd?
    requires RawBody(original, lex, r.i + 1, j, body)
    ensures Reading(o, original, lex, r.(tag := Some(r.i), i := j), spans + [EmptySpan(r, r.stack + [t])],
                    pool[r.i := body])
  {
    var span := EmptySpan(r, r.stack + [t]);
    var r', pool' := r.(tag := Some(r.i), i := j), pool[r.i := body];
    TrackedIgnored(o, lex, r.i, spans, r.stack, t, j, span);
    TextedIgnored(o, lex, r.i, j, r.source, spans);
    TextedSpan(o, lex, j, r.source, spans, span);
    BodiedIgnored(o, original, lex, r.i, j, pool, r.tag, body);
    PooledGrow(spans, r.stack, pool, pool');
    PooledExtra(spans, r.stack, pool', span, t);
  }

  /** The open tags get an empty span, so that an element without text is recorded too. */
  lemma RecordStep(o: Options, original: string, lex: seq<Lexeme>, r: Reader, spans: seq<Span>, pool: Pool)
    requires Reading(o, original, lex, r, spans, pool)
    ensures Reading(o, original, lex, r, spans + [EmptySpan(r, r.stack)], pool)
  {
    var span := EmptySpan(r, r.stack);
    TrackedRecord(o, lex, r.i, spans, r.stack, span);
    TextedSpan(o, lex, r.i, r.source, spans, span);
    PooledRecord(spans, r.stack, pool, span);
  }

  lemma EndStep(o: Options, original: string, lex: seq<Lexeme>, r: Reader, spans: seq<Span>, pool: Pool)
    requires r.i < |lex| && lex[r.i].token.TagEnd? && Lower(lex[r.i].token.name) !in o.voidTags
    requires Reading(o, original, lex, r, spans, pool) && r.stack != []
    requires r.stack[|r.stack| - 1] in spans[|spans| - 1].tags
    requires Lower(r.stack[|r.stack| - 1].name) == Lower(lex[r.i].token.name)
    ensures Reading(o, original, lex, r.(stack := r.stack[..|r.stack| - 1], i := r.i + 1), spans, pool)
  {
    var r' := r.(stack := r.stack[..|r.stack| - 1], i := r.i + 1);
    TrackedClose(o, lex, r.i, spans, r.stack);
    TextedOther(o, lex, r.i, r.source, spans);
    BodiesOfEnd(o, original, lex, r, spans, pool);
  }

  lemma BodiesOfEnd(o: Options, original: string, lex: seq<Lexeme>, r: Reader, spans: seq<Span>, pool: Pool)
    requires r.i < |lex| && lex[r.i].token.TagEnd? && r.stack != []
    requires Bodied(o, original, lex, r.i, pool, r.tag) && Pooled(spans, r.stack, pool)
    ensures Bodied(o, original, lex, r.i + 1, pool, r.tag) && Pooled(spans, r.stack[..|r.stack| - 1], pool)
  {
    BodiedNext(o, original, lex, r.i, pool, r.tag, r.tag);
    PooledPop(spans, r.stack, pool);
  }

  /** Lexemes that show nothing of their own. */
  lemma QuietStep(o: Options, original: string, lex: seq<Lexeme>, r: Reader, spans: seq<Span>, pool: Pool,
                  tag': Option<nat>)
    requires Quiet(o, lex, r.i) && Reading(o, original, lex, r, spans, pool)
    requires !Heads(lex[r.i].token) && !lex[r.i].token.Data? && !lex[r.i].token.Text?
    requires tag' == r.tag || tag' == None
    ensures Reading(o, original, lex, r.(tag := tag', i := r.i + 1), spans, pool)
  {
    TrackedQuiet(o, lex, r.i, spans, r.stack);
    TextedOther(o, lex, r.i, r.source, spans);
    BodiedNext(o, original, lex, r.i, pool, r.tag, tag');
  }

  /** What an attribute or data lexeme adds to a body. */
  function Filled(body: Body, t: Token): Body {
    if t.Attribute? then body.(attributes := body.attributes + AttributeText(t))
    else if t.Data? then body.(data := t.value)
    else body
  }

  lemma FillStep(o: Options, original: string, lex: seq<Lexeme>, r: Reader, spans: seq<Span>, pool: Pool)
    requires r.i < |lex| && (lex[r.i].token.Attribute? || lex[r.i].token.Data?)
    requires Reading(o, original, lex, r, spans, pool)
    ensures r.tag.Some? && r.tag.value in pool
    ensures Reading(o, original, lex, r.(i := r.i + 1), spans,
                    pool[r.tag.value := Filled(pool[r.tag.value], lex[r.i].token)])
  {
    FillBody(o, original, lex, r, spans, pool);
    TrackedQuiet(o, lex, r.i, spans, r.stack);
    TextedOther(o, lex, r.i, r.source, spans);
  }

  lemma FillBody(o: Options, original: string, lex: seq<Lexeme>, r: Reader, spans: seq<Span>, pool: Pool)
    requires r.i < |lex| && (lex[r.i].token.Attribute? || lex[r.i].token.Data?)
    requires Reading(o, original, lex, r, spans, pool)
    ensures r.tag.Some? && r.tag.value in pool
    ensures var pool' := pool[r.tag.value := Filled(pool[r.tag.value], lex[r.i].token)];
            Bodied(o, original, lex, r.i + 1, pool', r.tag) && Pooled(spans, r.stack, pool')
  {
    BodiedFill(o, original, lex, r.i, pool, r.tag);
    PooledGrow(spans, r.stack, pool, pool[r.tag.value := Filled(pool[r.tag.value], lex[r.i].token)]);
  }

  lemma BodiedFill(o: Options, original: string, lex: seq<Lexeme>, i: nat, pool: Pool, tag: Option<nat>)
    requires Bodied(o, original, lex, i, pool, tag) && i < |lex| && (lex[i].token.Attribute? || lex[i].token.Data?)
    ensures tag.Some? && tag.value in pool
    ensures Bodied(o, original, lex, i + 1, pool[tag.value := Filled(pool[tag.value], lex[i].token)], tag)
  {
    if lex[i].token.Attribute? {
      BodiedAttribute(o, original, lex, i, pool, tag);
    } else {
      BodiedData(o, original, lex, i, pool, tag);
    }
  }

  lemma Rejected(o: Options, original: string, lex: seq<Lexeme>, r: Reader, spans: seq<Span>, pool: Pool)
    requires r.i < |lex| && Reading(o, original, lex, r, spans, pool)
    requires Document(o, lex, r.i) == None
          || (lex[r.i].token.TagEnd? && Lower(lex[r.i].token.name) !in o.voidTags
              && (r.stack == [] || Lower(r.stack[|r.stack| - 1].name) != Lower(lex[r.i].token.name)))
    ensures !Accepted(o, lex)
  {
    if Document(o, lex, r.i) == None {
      NoneRejects(o, lex, r.i, spans, r.stack);
    } else {
      MismatchRejects(o, lex, r.i, spans, r.stack, Lower(lex[r.i].token.name));
    }
  }

  lemma NoneRejects(o: Options, lex: seq<Lexeme>, i: nat, spans: seq<Span>, stack: TagStack)
    requires Tracked(o, lex, i, spans, stack) && Document(o, lex, i) == None
    ensures !Accepted(o, lex)
  {
    assert Unfold(0, i, spans, stack);
  }

  lemma FinalStep(o: Options, original: string, lex: seq<Lexeme>, r: Reader, spans: seq<Span>, pool: Pool)
    requires r.i == |lex| && Reading(o, original, lex, r, spans, pool)
    ensures Accepted(o, lex) <==> r.stack == []
    ensures r.stack == [] ==> Parsed(o, original, lex, r.source, spans + [EmptySpan(r, [])], pool)
  {
    var span := EmptySpan(r, r.stack);
    assert (Accepted(o, lex) <==> r.stack == []) && (r.stack == [] ==> Replayed(o, lex, spans + [span])) by {
      TrackedEnd(o, lex, spans, r.stack, span);
    }
    if r.stack == [] {
      RecordStep(o, original, lex, r, spans, pool);
      assert SpansFit(spans + [span], |r.source|) && Plain(r.source, spans + [span]) == DocumentText(o, lex, 0) by {
        assert UnfoldText(0, r.i, r.source, spans + [span]);
        var p := Plain(r.source, spans + [span]);
        assert p + "" == p;
      }
      assert AllKnown(spans + [span], [], pool) && AllFilled(o, original, lex, pool) by {
        assert UnfoldBodies(0, r.i, pool, r.tag) && UnfoldPool(0, spans + [span], r.stack, pool);
        forall id | id in pool ensures id < |lex| && pool[id] == BodyAt(o, original, lex, id) {
          assert UnfoldBody(0, id, Completed(pool[id], lex, r.i)) && UnfoldBody(0, id, pool[id]);
          assert pool[id].attributes + "" == pool[id].attributes;
        }
      }
    }
  }

  class HTML {
    const options: Options
    var spans: seq<Span>
    var pool: Pool

    constructor (options: Options)
      ensures this.options == options && spans == [] && pool == map[]
    {
      this.options := options;
      spans, pool := [], map[];
    }

    ghost predicate Reads(original: string, lex: seq<Lexeme>, r: Reader)
      reads this
    {
      Reading(options, original, lex, r, spans, pool)
    }

    /** Text gets a span with the open tags, after whatever break is due. */
    method ReadText(ghost original: string, lex: seq<Lexeme>, r: Reader) returns (r': Reader)
      requires r.i < |lex| && lex[r.i].token.Text? && Reads(original, lex, r)
      modifies this`spans
      ensures Reads(original, lex, r')
      ensures var value := lex[r.i].token.value;
              r' == Reader(Separated(options, r.ToFlow(), value) + value, r.stack, r.tag, false, false, r.i + 1)
      ensures var value := lex[r.i].token.value;
              spans == BreakSpans(old(spans), r) + [Span(|r'.source| - |value|, |r'.source|, r.stack)]
    {
      var value := lex[r.i].token.value;
      var source := BreakBefore(original, lex, r, value);
      TextStep(options, original, lex, r, source, spans, pool, value);
      spans := spans + [Span(|source|, |source| + |value|, r.stack)];
      r' := Reader(source + value, r.stack, r.tag, false, false, r.i + 1);
    }

    /** Puts in the paragraph break and the space that are due before some text. */
    method BreakBefore(ghost original: string, ghost lex: seq<Lexeme>, r: Reader, value: string)
      returns (source: string)
      requires r.i < |lex| && lex[r.i].token.Text? && Reads(original, lex, r)
      modifies this`spans
      ensures Ready(options, original, lex, r, source, spans, pool)
      ensures source == Separated(options, r.ToFlow(), value) && spans == BreakSpans(old(spans), r)
    {
      source := r.source;
      UnbrokenIff(source);
      if r.sentenceBreak && UnbrokenEnd(source) {
        BreakReady(options, original, lex, r, spans, pool, "\n\n");
        spans := spans + [EmptySpan(r, r.stack + [Tag(r.i, Whitespace, "")])];
        source := source + "\n\n";
      } else {
        PlainReady(options, original, lex, r, spans, pool);
      }
      if r.wordBreak && options.substituteInlineTagsWithSpaces && IsContinuation(options, source, value) {
        SpaceReady(options, original, lex, r, source, spans, pool, " ");
        source := source + " ";
      }
    }

    /** Void elements, comments and processing instructions. */
    method ReadEmptyTag(ghost original: string, ghost lex: seq<Lexeme>, r: Reader, t: Tag) returns (r': Reader)
      requires EmptyTag(options, lex, r.i, t) && Reads(original, lex, r)
      modifies this
      ensures Reads(original, lex, r') && r' == r.(tag := Some(r.i), i := r.i + 1)
      ensures spans == old(spans) + [EmptySpan(r, r.stack + [t])] && pool == old(pool)[r.i := Body("", "")]
    {
      EmptyTagStep(options, original, lex, r, spans, pool, t);
      spans, pool := spans + [EmptySpan(r, r.stack + [t])], pool[r.i := Body("", "")];
      r' := r.(tag := Some(r.i), i := r.i + 1);
    }

    /** A start tag. An element's tag stays on the stack; an ignored element is skipped. */
    method ReadStart(original: string, lex: seq<Lexeme>, r: Reader) returns (r': Option<Reader>)
      requires options.Valid() && ScannerOrder(original, lex) && r.i < |lex| && lex[r.i].token.TagStart?
      requires Reads(original, lex, r)
      modifies this
      ensures r' == Started(options, lex, r) && (r' == None ==> Document(options, lex, r.i) == None)
      ensures r'.Some? ==> Reads(original, lex, r'.value) && r.i < r'.value.i <= |lex|
      ensures r'.Some? ==>
                var start := lex[r.i].token.name;
                spans == if Lower(start) in options.ignoredTags + options.voidTags
                         then old(spans) + [EmptySpan(r, r.stack + [Tag(r.i, TagKind(options, start), start)])]
                         else old(spans)
    {
      var start := lex[r.i].token.name;
      var t := Tag(r.i, TagKind(options, start), start);
      var next;
      if Lower(start) in options.ignoredTags {
        var after, attributes, data := ConsumeIgnoredTag(original, lex, r.i + 1, Lower(start));
        if after == None {
          return None;
        }
        IgnoredStep(options, original, lex, r, spans, pool, t, after.value, Body(attributes, data));
        spans, pool := spans + [EmptySpan(r, r.stack + [t])], pool[r.i := Body(attributes, data)];
        next := r.(tag := Some(r.i), i := after.value);
      } else if t.kind == VoidElement {
        next := ReadEmptyTag(original, lex, r, t);
      } else {
        ElementStep(options, original, lex, r, spans, pool, t);
        pool := pool[r.i := Body("", "")];
        next := r.(stack := r.stack + [t], tag := Some(r.i), i := r.i + 1);
      }
      BreakingKeeps(options, original, lex, next, spans, pool, Lower(start));
      r' := Some(next.Breaking(options, Lower(start)));
    }

    /** An end tag must match the innermost element, which gets an empty span if no span knows it yet. */
    method ReadEnd(ghost original: string, lex: seq<Lexeme>, r: Reader) returns (r': Option<Reader>)
      requires r.i < |lex| && lex[r.i].token.TagEnd? && Reads(original, lex, r)
      modifies this`spans
      ensures r' == Ended(options, lex, r) && (r' == None ==> !Accepted(options, lex))
      ensures r'.Some? ==> Reads(original, lex, r'.value)
      ensures r'.Some? ==>
                spans == if Lower(lex[r.i].token.name) !in options.voidTags
                            && r.stack[|r.stack| - 1] !in old(spans)[|old(spans)| - 1].tags
                         then old(spans) + [EmptySpan(r, r.stack)] else old(spans)
    {
      var name := Lower(lex[r.i].token.name);
      if name in options.voidTags {
        QuietStep(options, original, lex, r, spans, pool, r.tag);
        return Some(r.(i := r.i + 1));
      }
      if r.stack == [] || Lower(r.stack[|r.stack| - 1].name) != name {
        Rejected(options, original, lex, r, spans, pool);
        return None;
      }
      if r.stack[|r.stack| - 1] !in spans[|spans| - 1].tags {
        RecordStep(options, original, lex, r, spans, pool);
        spans := spans + [EmptySpan(r, r.stack)];
      }
      EndStep(options, original, lex, r, spans, pool);
      var next := r.(stack := r.stack[..|r.stack| - 1], i := r.i + 1);
      BreakingKeeps(options, original, lex, next, spans, pool, name);
      r' := Some(next.Breaking(options, name));
    }

    /** One turn of the loop. */
    method ReadOne(original: string, lex: seq<Lexeme>, r: Reader) returns (r': Option<Reader>)
      requires options.Valid() && ScannerOrder(original, lex) && r.i < |lex| && Reads(original, lex, r)
      modifies this
      ensures r' == None ==> !Accepted(options, lex)
      ensures r'.Some? ==> Reads(original, lex, r'.value) && r.i < r'.value.i <= |lex|
      ensures r'.Some? ==> SamePlain(options, lex, r, r'.value)
    {
      ghost var before, bodies := spans, pool;
      var token := lex[r.i].token;
      if token.TagEnd? {
        r' := ReadEnd(original, lex, r);
        if r'.Some? { EndPlain(options, lex, r, r'.value); }
        return;
      }
      var next := r;
      if token.Error? {
        Rejected(options, original, lex, r, before, bodies);
        return None;
      } else if token.Text? {
        next := ReadText(original, lex, r);
        TextPlain(options, lex, r, next);
      } else if token.TagStart? {
        var start := ReadStart(original, lex, r);
        if start == None {
          Rejected(options, original, lex, r, before, bodies);
          return None;
        }
        next := start.value;
        StartPlain(options, lex, r, next);
      } else if token.CommentStart? {
        next := ReadEmptyTag(original, lex, r, Tag(r.i, Comment, ""));
      } else if token.InstructionStart? {
        next := ReadEmptyTag(original, lex, r, Tag(r.i, ProcessingInstruction, ""));
      } else if token.Attribute? || token.Data? {
        FillStep(options, original, lex, r, spans, pool);
        pool := pool[r.tag.value := Filled(pool[r.tag.value], token)];
        next := r.(i := r.i + 1);
      } else {
        QuietStep(options, original, lex, r, spans, pool, None);
        next := r.(tag := None, i := r.i + 1);
      }
      if !token.Text? && !token.TagStart? { OtherPlain(options, lex, r, next); }
      r' := Some(next);
    }

    /** Reads the whole token stream. `None` stands for an abort, which happens exactly on unreadable documents.
        Otherwise the spans replay the document's events in order, cover its text, and their tags carry the attributes
        and data the document gives them. */
    method Parse(original: string, lex: seq<Lexeme>) returns (result: Option<string>)
      requires options.Valid() && ScannerOrder(original, lex)
      modifies this
      ensures result.Some? <==> Accepted(options, lex)
      ensures result.Some? ==> Parsed(options, original, lex, result.value, spans, pool)
      ensures result.Some? ==> result.value == PlainText(options, lex) && Plainly(options, lex, result.value)
    {
      PlainTextIs(options, lex);
      var r := Reader("", [], None, false, false, 0);
      spans, pool := [Span(0, 0, [])], map[];
      StartReading(options, original, lex);
      while r.i < |lex|
        invariant r.i <= |lex| && Reads(original, lex, r)
        invariant SamePlain(options, lex, Reader("", [], None, false, false, 0), r)
        decreases |lex| - r.i
      {
        var next := ReadOne(original, lex, r);
        if next == None {
          return None;
        }
        SamePlainOn(options, lex, Reader("", [], None, false, false, 0), r, next.value);
        r := next.value;
      }
      PlainAtEnd(options, lex, r);
      FinalStep(options, original, lex, r, spans, pool);
      if r.stack != [] {
        return None;
      }
      spans := spans + [EmptySpan(r, r.stack)];
      result := Some(r.source);
    }
  }

  lemma StartReading(o: Options, original: string, lex: seq<Lexeme>)
    requires ScannerOrder(original, lex)
    ensures Reading(o, original, lex, Reader("", [], None, false, false, 0), [Span(0, 0, [])], map[])
  {
    var r, spans := Reader("", [], None, false, false, 0), [Span(0, 0, [])];
    TrackedStart(o, lex);
    assert Plain("", spans[..0]) == "" && Plain("", spans) == "";
    FoldText(o, lex, 0, "", spans);
    FoldBodies(o, original, lex, 0, map[], None);
    FoldPool(spans, [], map[]);
  }

  lemma BreakingKeeps(o: Options, original: string, lex: seq<Lexeme>, r: Reader, spans: seq<Span>, pool: Pool,
                      name: string)
    requires Reading(o, original, lex, r, spans, pool)
    ensures Reading(o, original, lex, r.Breaking(o, name), spans, pool)
  {
  }

  /** The spans start with the empty stack and replay the document. */
  ghost predicate Replayed(o: Options, lex: seq<Lexeme>, spans: seq<Span>) {
    |spans| >= 2 && spans[0] == Span(0, 0, []) && Document(o, lex, 0) == Some(Seen(Replay(spans)))
  }

  ghost predicate AllFilled(o: Options, original: string, lex: seq<Lexeme>, pool: Pool)
    requires ScannerOrder(original, lex)
  {
    forall id <- pool :: id < |lex| && pool[id] == BodyAt(o, original, lex, id)
  }

  /** What a successful parse leaves behind. */
  ghost predicate Parsed(o: Options, original: string, lex: seq<Lexeme>, source: string, spans: seq<Span>, pool: Pool) {
    && Replayed(o, lex, spans) && spans[|spans| - 1] == Span(|source|, |source|, [])
    && SpansFit(spans, |source|) && Plain(source, spans) == DocumentText(o, lex, 0)
    && AllKnown(spans, [], pool) && ScannerOrder(original, lex) && AllFilled(o, original, lex, pool)
  }
}
