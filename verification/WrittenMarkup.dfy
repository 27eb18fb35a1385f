/** Reading back the tags that were written: a reader that knows nothing of how they are written. */
module WrittenMarkup {
  import opened Basics
  import opened Markup
  import opened HtmlParsing
  import opened HtmlParser
  import opened TokenFormatting

  // ---- Finding things in text ----

  predicate At(s: string, p: string, k: nat) { k + |p| <= |s| && s[k..k + |p|] == p }

  /** The first place from `i` on where `p` stands, or the end of the text. */
  function FirstAt(s: string, p: string, i: nat): (k: nat)
    requires i <= |s|
    ensures i <= k <= |s| && (k < |s| ==> At(s, p, k))
    decreases |s| - i
  {
    if i == |s| || At(s, p, i) then i else FirstAt(s, p, i + 1)
  }

  lemma {:induction false} FirstAtIs(s: string, p: string, i: nat, k: nat)
    requires i <= k <= |s| && (k < |s| ==> At(s, p, k)) && forall j :: i <= j < k ==> !At(s, p, j)
    ensures FirstAt(s, p, i) == k
    decreases k - i
  {
    if i < k { FirstAtIs(s, p, i + 1, k); }
  }

  lemma {:induction false} AtShift(a: string, b: string, p: string, k: nat)
    ensures At(a + b, p, |a| + k) <==> At(b, p, k)
  {
    if k + |p| <= |b| { assert (a + b)[|a| + k..|a| + k + |p|] == b[k..k + |p|]; }
  }

  lemma {:induction false} AtInside(a: string, b: string, p: string, k: nat)
    requires k + |p| <= |a|
    ensures At(a + b, p, k) <==> At(a, p, k)
  {
    assert (a + b)[k..k + |p|] == a[k..k + |p|];
  }

  /** `p` does not stand in `data`, nor begin in it when it follows. */
  ghost predicate EndsAt(data: string, p: string) { forall k :: 0 <= k < |data| ==> !At(data + p, p, k) }

  /** Behind `head`, `data` is what comes before the first `p`. */
  lemma {:induction false} FoundBehind(head: string, data: string, p: string, more: string)
    requires p != "" && EndsAt(data, p)
    ensures FirstAt(head + (data + (p + more)), p, |head|) == |head| + |data|
  {
    var s := head + (data + (p + more));
    assert At(s, p, |head| + |data|) by {
      AtShift(head, data + (p + more), p, |data|);
      AtShift(data, p + more, p, 0);
      AtInside(p, more, p, 0);
      assert p[0..|p|] == p;
    }
    forall j | |head| <= j < |head| + |data| ensures !At(s, p, j) {
      AtShift(head, data + (p + more), p, j - |head|);
      assert data + (p + more) == (data + p) + more;
      AtInside(data + p, more, p, j - |head|);
    }
    FirstAtIs(s, p, |head|, |head| + |data|);
  }

  // ---- The reader ----

  /** A tag as a reader sees it. */
  datatype Shown =
    | EndTag(name: string)
    | StartTag(name: string, attributes: string, data: string)
    | CommentTag(data: string)
    | InstructionTag(data: string)

  /** Where a tag's name ends: before white space or the end of the tag. */
  function NameEnd(s: string, i: nat): (k: nat)
    requires i <= |s|
    ensures i <= k <= |s|
    decreases |s| - i
  {
    if i == |s| || s[i] == ' ' || s[i] == '>' then i else NameEnd(s, i + 1)
  }

  /** Where a tag ends: at the first `>` that is not quoted. */
  function TagEnds(s: string, i: nat, quoted: bool): (k: nat)
    requires i <= |s|
    ensures i <= k <= |s|
    decreases |s| - i
  {
    if i == |s| || (!quoted && s[i] == '>') then i else TagEnds(s, i + 1, if s[i] == '"' then !quoted else quoted)
  }

  datatype Found = Found(shown: Shown, length: nat)

  /** One tag at the start of the text, and how long it is. The data of an element goes up to the next tag; that of a
      `raw` one, like a script, up to the next end tag. */
  function ReadTag(raw: set<string>, s: string): Option<Found> {
    if At(s, ['<', '/'], 0) then
      var end := FirstAt(s, ['>'], 2);
      if end == |s| then None else Some(Found(EndTag(s[2..end]), end + 1))
    else if At(s, ['<', '!', '-', '-'], 0) then
      var end := FirstAt(s, ['-', '-', '>'], 4);
      if end == |s| then None else Some(Found(CommentTag(s[4..end]), end + 3))
    else if At(s, ['<', '?'], 0) then
      var end := FirstAt(s, ['?', '>'], 2);
      if end == |s| then None else Some(Found(InstructionTag(s[2..end]), end + 2))
    else if s != "" && s[0] == '<' then
      var name := NameEnd(s, 1);
      var end := TagEnds(s, name, false);
      if end == |s| then None
      else
        var next := FirstAt(s, if Lower(s[1..name]) in raw then ['<', '/'] else ['<'], end + 1);
        Some(Found(StartTag(s[1..name], s[name..end], s[end + 1..next]), next))
    else None
  }

  /** All tags of a text that consists of tags. */
  function ReadTags(raw: set<string>, s: string): Option<seq<Shown>>
    decreases |s|
  {
    if s == "" then Some([])
    else match ReadTag(raw, s)
      case None => None
      case Some(Found(shown, n)) =>
        if n == 0 || n > |s| then None
        else match ReadTags(raw, s[n..])
          case None => None
          case Some(rest) => Some([shown] + rest)
  }

  // ---- What is to be read ----

  /** What an event shows: an inserted break nothing. */
  function ShownOf(pool: Pool, e: Event): seq<Shown>
    requires Prints(e) ==> e.tag.id in pool
  {
    match e
    case Close(t) => [EndTag(t.name)]
    case Open(t) =>
      match t.kind
      case Whitespace => []
      case Comment => [CommentTag(pool[t.id].data)]
      case ProcessingInstruction => [InstructionTag(pool[t.id].data)]
      case _ => [StartTag(t.name, pool[t.id].attributes, pool[t.id].data)]
  }

  function ShownAll(pool: Pool, es: seq<Event>): seq<Shown>
    requires forall e <- es :: Prints(e) ==> e.tag.id in pool
  {
    if es == [] then [] else ShownOf(pool, es[0]) + ShownAll(pool, es[1..])
  }

  /** A name as markup allows it. */
  predicate IsName(name: string) {
    && name != "" && name[0] != '/' && name[0] != '!' && name[0] != '?'
    && ' ' !in name && '>' !in name
  }

  /** Nothing in the tag can be mistaken for its end. */
  ghost predicate Legible(raw: set<string>, pool: Pool, e: Event)
    requires Prints(e) ==> e.tag.id in pool
  {
    match e
    case Close(t) => '>' !in t.name
    case Open(t) =>
      match t.kind
      case Whitespace => true
      case Comment => EndsAt(pool[t.id].data, ['-', '-', '>'])
      case ProcessingInstruction => EndsAt(pool[t.id].data, ['?', '>'])
      case _ =>
        var Body(attributes, data) := pool[t.id];
        && IsName(t.name) && (attributes == "" || attributes[0] == ' ')
        && TagEnds(attributes + ['>'], 0, false) == |attributes|
        && if Lower(t.name) in raw then EndsAt(data, ['<', '/']) else '<' !in data
  }

  predicate IsRaw(raw: set<string>, e: Event) {
    e.Open? && (e.tag.kind == Element || e.tag.kind == VoidElement) && Lower(e.tag.name) in raw
  }

  /** Each event is legible, and behind a raw element's data comes an end tag, if anything. */
  ghost predicate AllLegible(raw: set<string>, pool: Pool, es: seq<Event>) {
    && (forall e <- es :: (Prints(e) ==> e.tag.id in pool) && Legible(raw, pool, e))
    && (forall i {:trigger IsRaw(raw, es[i])} :: 0 <= i < |es| - 1 && IsRaw(raw, es[i]) ==> es[i + 1].Close?)
  }

  // ---- Reading back one tag ----

  predicate UnfoldReads(k: nat, raw: set<string>, s: string, found: Found) { true }

  /** The text begins with this tag. Unfolds only where `UnfoldReads` is mentioned. */
  ghost predicate ReadsAs(raw: set<string>, s: string, found: Found) {
    forall k: nat {:trigger UnfoldReads(k, raw, s, found)} :: UnfoldReads(k, raw, s, found) ==>
      ReadTag(raw, s) == Some(found)
  }

  lemma {:induction false} NotHere(head: string, data: string, p: string, j: nat)
    requires p != "" && EndsAt(data, p) && |head| <= j < |head| + |data|
    ensures !At(head + data, p, j)
  {
    var k := j - |head|;
    AtShift(head, data, p, k);
    if k + |p| <= |data| {
      AtInside(data, p, p, k);
      assert !At(data + p, p, k);
    }
  }

  lemma {:induction false} NoneLeft(head: string, data: string, p: string)
    requires p != "" && EndsAt(data, p)
    ensures FirstAt(head + data, p, |head|) == |head| + |data|
  {
    forall j | |head| <= j < |head| + |data| ensures !At(head + data, p, j) { NotHere(head, data, p, j); }
    FirstAtIs(head + data, p, |head|, |head| + |data|);
  }

  /** Behind `head`, `data` is all there is before the first `p` or the end of the text. */
  lemma {:induction false} DataEnds(head: string, data: string, p: string, more: string)
    requires p != "" && EndsAt(data, p) && (more == "" || (|p| <= |more| && more[..|p|] == p))
    ensures FirstAt(head + (data + more), p, |head|) == |head| + |data|
  {
    if more == "" {
      NoneLeft(head, data, p);
      assert data + more == data;
    } else {
      FoundBehind(head, data, p, more[|p|..]);
      assert more == p + more[|p|..];
    }
  }

  lemma {:induction false} NoneInside(data: string, c: char)
    requires c !in data
    ensures EndsAt(data, [c])
  {
    forall k | 0 <= k < |data| ensures !At(data + [c], [c], k) {
      assert (data + [c])[k..k + 1] == [data[k]] && data[k] in data;
    }
  }

  lemma {:induction false} ReadsEnd(raw: set<string>, name: string, more: string)
    requires '>' !in name
    ensures ReadsAs(raw, ['<', '/'] + (name + (['>'] + more)), Found(EndTag(name), |name| + 3))
  {
    var s := ['<', '/'] + (name + (['>'] + more));
    NoneInside(name, '>');
    FoundBehind(['<', '/'], name, ['>'], more);
    assert s[0..2] == ['<', '/'] && s[2..|name| + 2] == name;
  }

  lemma {:induction false} ReadsComment(raw: set<string>, data: string, more: string)
    requires EndsAt(data, ['-', '-', '>'])
    ensures ReadsAs(raw, ['<', '!', '-', '-'] + (data + (['-', '-', '>'] + more)), Found(CommentTag(data), |data| + 7))
  {
    var s := ['<', '!', '-', '-'] + (data + (['-', '-', '>'] + more));
    FoundBehind(['<', '!', '-', '-'], data, ['-', '-', '>'], more);
    assert s[0..2] == ['<', '!'] && s[0..4] == ['<', '!', '-', '-'] && s[4..|data| + 4] == data;
  }

  lemma {:induction false} ReadsInstruction(raw: set<string>, data: string, more: string)
    requires EndsAt(data, ['?', '>'])
    ensures ReadsAs(raw, ['<', '?'] + (data + (['?', '>'] + more)), Found(InstructionTag(data), |data| + 4))
  {
    var s := ['<', '?'] + (data + (['?', '>'] + more));
    FoundBehind(['<', '?'], data, ['?', '>'], more);
    assert s[0..2] == ['<', '?'] && s[2..|data| + 2] == data && s[1] == '?';
  }

  lemma {:induction false} NameEndIs(s: string, i: nat, k: nat)
    requires i <= k < |s| && (s[k] == ' ' || s[k] == '>') && forall j :: i <= j < k ==> s[j] != ' ' && s[j] != '>'
    ensures NameEnd(s, i) == k
    decreases k - i
  {
    if i < k { NameEndIs(s, i + 1, k); }
  }

  lemma {:induction false} TagEndsIs(head: string, body: string, more: string, i: nat, quoted: bool)
    requires i <= |body| && TagEnds(body, i, quoted) < |body|
    ensures TagEnds(head + (body + more), |head| + i, quoted) == |head| + TagEnds(body, i, quoted)
    decreases |body| - i
  {
    var s := head + (body + more);
    assert i < |body| && s[|head| + i] == body[i];
    if quoted || body[i] != '>' { TagEndsIs(head, body, more, i + 1, if body[i] == '"' then !quoted else quoted); }
  }

  lemma {:induction false} ReadsStart(raw: set<string>, name: string, attributes: string, data: string, more: string)
    requires IsName(name) && (attributes == "" || attributes[0] == ' ')
    requires TagEnds(attributes + ['>'], 0, false) == |attributes|
    requires if Lower(name) in raw then EndsAt(data, ['<', '/']) && (more == "" || At(more, ['<', '/'], 0))
             else '<' !in data && (more == "" || more[0] == '<')
    ensures ReadsAs(raw, (['<'] + name) + ((attributes + ['>']) + (data + more)),
                    Found(StartTag(name, attributes, data), |name| + |attributes| + |data| + 2))
  {
    var s := (['<'] + name) + ((attributes + ['>']) + (data + more));
    var n, a := |name| + 1, |attributes|;
    StartsThere(raw, name, attributes, data, more);
    StartSlices(name, attributes, data, more);
    StartRead(raw, s, n, n + a, n + a + 1 + |data|);
  }

  lemma {:induction false} HeadEnds(name: string, attributes: string, tail: string)
    requires IsName(name) && (attributes == "" || attributes[0] == ' ')
    requires TagEnds(attributes + ['>'], 0, false) == |attributes|
    ensures var s := (['<'] + name) + ((attributes + ['>']) + tail);
            && |s| >= 2 && s[0] == '<' && s[1] != '/' && s[1] != '!' && s[1] != '?'
            && NameEnd(s, 1) == |name| + 1 && TagEnds(s, |name| + 1, false) == |name| + 1 + |attributes| < |s|
  {
    var head := ['<'] + name;
    var s := head + ((attributes + ['>']) + tail);
    NameEndsThere(name, attributes, tail);
    NameEndIs(s, 1, |head|);
    TagEndsIs(head, attributes + ['>'], tail, 0, false);
  }

  predicate UnfoldStart(k: nat, raw: set<string>, s: string, name: nat, end: nat, next: nat) { true }

  /** The text begins with a start tag whose name, attributes and data end at these places. Unfolds only where
      `UnfoldStart` is mentioned. */
  ghost predicate StartsWith(raw: set<string>, s: string, name: nat, end: nat, next: nat)
    requires 1 <= name <= end < next <= |s|
  {
    forall k: nat {:trigger UnfoldStart(k, raw, s, name, end, next)} :: UnfoldStart(k, raw, s, name, end, next) ==>
      && |s| >= 2 && s[0] == '<' && s[1] != '/' && s[1] != '!' && s[1] != '?'
      && NameEnd(s, 1) == name && TagEnds(s, name, false) == end < |s|
      && FirstAt(s, if Lower(s[1..name]) in raw then ['<', '/'] else ['<'], end + 1) == next
  }

  lemma {:induction false} StartsThere(raw: set<string>, name: string, attributes: string, data: string, more: string)
    requires IsName(name) && (attributes == "" || attributes[0] == ' ')
    requires TagEnds(attributes + ['>'], 0, false) == |attributes|
    requires if Lower(name) in raw then EndsAt(data, ['<', '/']) && (more == "" || At(more, ['<', '/'], 0))
             else '<' !in data && (more == "" || more[0] == '<')
    ensures var s, n := (['<'] + name) + ((attributes + ['>']) + (data + more)), |name| + 1;
            n + |attributes| + 1 + |data| <= |s|
              && StartsWith(raw, s, n, n + |attributes|, n + |attributes| + 1 + |data|)
  {
    HeadEnds(name, attributes, data + more);
    StartDataEnds(raw, name, attributes, data, more);
    assert ((['<'] + name) + ((attributes + ['>']) + (data + more)))[1..|name| + 1] == name;
  }

  lemma {:induction false} StartRead(raw: set<string>, s: string, name: nat, end: nat, next: nat)
    requires 1 <= name <= end < next <= |s| && StartsWith(raw, s, name, end, next)
    ensures ReadsAs(raw, s, Found(StartTag(s[1..name], s[name..end], s[end + 1..next]), next))
  {
    assert UnfoldStart(0, raw, s, name, end, next);
    NotOther(s);
  }

  lemma {:induction false} StartDataEnds(raw: set<string>, name: string, attributes: string, data: string, more: string)
    requires if Lower(name) in raw then EndsAt(data, ['<', '/']) && (more == "" || At(more, ['<', '/'], 0))
             else '<' !in data && (more == "" || more[0] == '<')
    ensures var s, at := (['<'] + name) + ((attributes + ['>']) + (data + more)), |name| + |attributes| + 2;
            FirstAt(s, if Lower(name) in raw then ['<', '/'] else ['<'], at) == at + |data|
  {
    var front := (['<'] + name) + (attributes + ['>']);
    Associate(['<'] + name, attributes + ['>'], data + more);
    if Lower(name) in raw {
      if more != "" { assert more[..2] == more[0..2]; }
      DataEnds(front, data, ['<', '/'], more);
    } else {
      NoneInside(data, '<');
      if more != "" { assert more[..1] == ['<']; }
      DataEnds(front, data, ['<'], more);
    }
  }

  lemma {:induction false} NotOther(s: string)
    requires |s| >= 2 && s[0] == '<' && s[1] != '/' && s[1] != '!' && s[1] != '?'
    ensures !At(s, ['<', '/'], 0) && !At(s, ['<', '!', '-', '-'], 0) && !At(s, ['<', '?'], 0)
  {
    assert s[0..2][1] == s[1];
    if |s| >= 4 { assert s[0..4][1] == s[1]; }
  }

  lemma {:induction false} NameEndsThere(name: string, attributes: string, tail: string)
    requires IsName(name) && (attributes == "" || attributes[0] == ' ')
    ensures var s := (['<'] + name) + ((attributes + ['>']) + tail);
            && (s[|name| + 1] == ' ' || s[|name| + 1] == '>')
            && forall j :: 1 <= j < |name| + 1 ==> s[j] != ' ' && s[j] != '>'
  {
    var s := (['<'] + name) + ((attributes + ['>']) + tail);
    forall j | 1 <= j < |name| + 1 ensures s[j] != ' '
      && s[j] != '>' { assert s[j] == name[j - 1] && name[j - 1] in name; }
  }

  lemma {:induction false} StartSlices(name: string, attributes: string, data: string, more: string)
    ensures var s := (['<'] + name) + ((attributes + ['>']) + (data + more)); var n, a := |name|, |attributes|;
            && n + a + 2 + |data| <= |s| && s[1..n + 1] == name && s[n + 1..n + 1 + a] == attributes
            && s[n + a + 2..n + a + 2 + |data|] == data
  {}

  // ---- Reading back everything ----

  /** The event, printed in front of text that may follow it, is read as what it shows. */
  lemma {:induction false} ReadsEvent(raw: set<string>, pool: Pool, e: Event, more: string)
    requires (Prints(e) ==> e.tag.id in pool) && Legible(raw, pool, e) && ShownOf(pool, e) != []
    requires more == "" || (more[0] == '<' && (IsRaw(raw, e) ==> At(more, ['<', '/'], 0)))
    ensures ReadsAs(raw, RenderOne(pool, e) + more, Found(ShownOf(pool, e)[0], |RenderOne(pool, e)|))
  {
    if e.Close? {
      ReadsClose(raw, pool, e, more);
    } else if e.tag.kind == Comment || e.tag.kind == ProcessingInstruction {
      ReadsOther(raw, pool, e, more);
    } else {
      ReadsOpen(raw, pool, e, more);
    }
  }

  lemma {:induction false} ReadsClose(raw: set<string>, pool: Pool, e: Event, more: string)
    requires e.Close? && Legible(raw, pool, e)
    ensures ReadsAs(raw, RenderOne(pool, e) + more, Found(ShownOf(pool, e)[0], |RenderOne(pool, e)|))
  {
    ReadsEnd(raw, e.tag.name, more);
    EndText(e.tag.name, more);
  }

  lemma {:induction false} ReadsOther(raw: set<string>, pool: Pool, e: Event, more: string)
    requires e.Open? && (e.tag.kind == Comment || e.tag.kind == ProcessingInstruction)
    requires e.tag.id in pool && Legible(raw, pool, e)
    ensures ReadsAs(raw, RenderOne(pool, e) + more, Found(ShownOf(pool, e)[0], |RenderOne(pool, e)|))
  {
    var data := pool[e.tag.id].data;
    if e.tag.kind == Comment {
      ReadsComment(raw, data, more);
      CommentText(data, more);
    } else {
      ReadsInstruction(raw, data, more);
      InstructionText(data, more);
    }
  }

  lemma {:induction false} ReadsOpen(raw: set<string>, pool: Pool, e: Event, more: string)
    requires e.Open? && (e.tag.kind == Element || e.tag.kind == VoidElement)
    requires e.tag.id in pool && Legible(raw, pool, e)
    requires more == "" || (more[0] == '<' && (IsRaw(raw, e) ==> At(more, ['<', '/'], 0)))
    ensures ReadsAs(raw, RenderOne(pool, e) + more, Found(ShownOf(pool, e)[0], |RenderOne(pool, e)|))
  {
    var Body(attributes, data) := pool[e.tag.id];
    ReadsStart(raw, e.tag.name, attributes, data, more);
    StartText(e.tag.name, attributes, data, more);
  }

  lemma {:induction false} EndText(name: string, more: string)
    ensures ("</" + name + ">") + more == ['<', '/'] + (name + (['>'] + more))
    ensures |"</" + name + ">"| == |name| + 3
  {}

  lemma {:induction false} CommentText(data: string, more: string)
    ensures ("<!--" + data + "-->") + more == ['<', '!', '-', '-'] + (data + (['-', '-', '>'] + more))
    ensures |"<!--" + data + "-->"| == |data| + 7
  {}

  lemma {:induction false} InstructionText(data: string, more: string)
    ensures ("<?" + data + "?>") + more == ['<', '?'] + (data + (['?', '>'] + more))
    ensures |"<?" + data + "?>"| == |data| + 4
  {}

  lemma {:induction false} StartText(name: string, attributes: string, data: string, more: string)
    ensures ("<" + name + attributes + ">" + data) + more
            == (['<'] + name) + ((attributes + ['>']) + (data + more))
    ensures |"<" + name + attributes + ">" + data| == |name| + |attributes| + |data| + 2
  {}

  lemma {:induction false} ReadTagsStep(raw: set<string>, s: string, found: Found, rest: seq<Shown>)
    requires ReadsAs(raw, s, found) && 0 < found.length <= |s| && ReadTags(raw, s[found.length..]) == Some(rest)
    ensures ReadTags(raw, s) == Some([found.shown] + rest)
  {
    assert UnfoldReads(0, raw, s, found);
  }

  /** What printed events begin with. */
  lemma {:induction false} RenderBegins(pool: Pool, e: Event)
    requires Prints(e) ==> e.tag.id in pool
    ensures ShownOf(pool, e) == [] ==> RenderOne(pool, e) == ""
    ensures ShownOf(pool, e) != [] ==>
            |ShownOf(pool, e)| == 1 && RenderOne(pool, e) != "" && RenderOne(pool, e)[0] == '<'
    ensures e.Close? ==> At(RenderOne(pool, e), ['<', '/'], 0)
  {}

  lemma {:induction false} RenderFirst(pool: Pool, es: seq<Event>)
    requires es != [] && Printable(pool, es)
    ensures Printable(pool, es[1..]) && (Prints(es[0]) ==> es[0].tag.id in pool)
    ensures Render(pool, es) == RenderOne(pool, es[0]) + Render(pool, es[1..])
  {
    assert es == [es[0]] + es[1..];
    RenderAppend(pool, [es[0]], es[1..]);
    RenderSingle(pool, es[0]);
  }

  lemma {:induction false} RenderSingle(pool: Pool, e: Event)
    requires Printable(pool, [e])
    ensures (Prints(e) ==> e.tag.id in pool) && Render(pool, [e]) == RenderOne(pool, e)
  {
    assert e in [e] && [e][..0] == [] && [e][|[e]| - 1] == e;
  }

  lemma {:induction false} RestLegible(raw: set<string>, pool: Pool, es: seq<Event>)
    requires es != [] && AllLegible(raw, pool, es)
    ensures AllLegible(raw, pool, es[1..]) && (Prints(es[0]) ==> es[0].tag.id in pool) && Legible(raw, pool, es[0])
    ensures IsRaw(raw, es[0]) && |es| > 1 ==> es[1].Close?
  {
    var rest := es[1..];
    assert es[0] in es;
    forall i | 0 <= i < |rest| - 1 && IsRaw(raw, rest[i]) ensures rest[i + 1].Close? { assert IsRaw(raw, es[i + 1]); }
  }

  /** What is printed begins with a tag, and with an end tag if its first event is one. */
  lemma {:induction false} MoreBegins(pool: Pool, es: seq<Event>)
    requires Printable(pool, es)
    ensures var more := Render(pool, es);
            && (more == "" || more[0] == '<')
            && (es != [] && es[0].Close? ==> At(more, ['<', '/'], 0))
  {
    if es != [] {
      RenderFirst(pool, es);
      RenderBegins(pool, es[0]);
      var one, rest := RenderOne(pool, es[0]), Render(pool, es[1..]);
      if one == "" {
        MoreBegins(pool, es[1..]);
        assert one + rest == rest;
      } else if es[0].Close? {
        AtInside(one, rest, ['<', '/'], 0);
      }
    }
  }

  /** Tags that are printed are read back, with their names, attributes and data, in order, and nothing else is. */
  lemma {:induction false} TagsReadBack(raw: set<string>, pool: Pool, es: seq<Event>)
    requires AllLegible(raw, pool, es)
    ensures Printable(pool, es) && ReadTags(raw, Render(pool, es)) == Some(ShownAll(pool, es))
    decreases |es|
  {
    if es != [] {
      RestLegible(raw, pool, es);
      TagsReadBack(raw, pool, es[1..]);
      RenderFirst(pool, es);
      RenderBegins(pool, es[0]);
      MoreBegins(pool, es[1..]);
      FirstReadBack(raw, pool, es[0], Render(pool, es[1..]), ShownAll(pool, es[1..]));
    }
  }

  lemma {:induction false} FirstReadBack(raw: set<string>, pool: Pool, e: Event, more: string, rest: seq<Shown>)
    requires (Prints(e) ==> e.tag.id in pool) && Legible(raw, pool, e)
    requires more == "" || (more[0] == '<' && (IsRaw(raw, e) ==> At(more, ['<', '/'], 0)))
    requires ReadTags(raw, more) == Some(rest)
    ensures ReadTags(raw, RenderOne(pool, e) + more) == Some(ShownOf(pool, e) + rest)
  {
    RenderBegins(pool, e);
    var one, shown := RenderOne(pool, e), ShownOf(pool, e);
    if shown == [] {
      assert one + more == more && shown + rest == rest;
    } else {
      ReadsEvent(raw, pool, e, more);
      assert (one + more)[|one|..] == more && shown == [shown[0]];
      ReadTagsStep(raw, one + more, Found(shown[0], |one|), rest);
    }
  }

  /** So what is printed determines names, attributes and data. */
  lemma TagsDetermine(raw: set<string>, pool: Pool, es: seq<Event>, pool': Pool, es': seq<Event>)
    requires AllLegible(raw, pool, es) && AllLegible(raw, pool', es')
    requires (forall e <- es :: Prints(e) ==> e.tag.id in pool) && (forall e <- es' :: Prints(e) ==> e.tag.id in pool')
    requires Render(pool, es) == Render(pool', es')
    ensures ShownAll(pool, es) == ShownAll(pool', es')
  {
    TagsReadBack(raw, pool, es);
    TagsReadBack(raw, pool', es');
  }

  // ---- Attributes ----

  datatype Pair = Pair(name: string, value: string)

  /** The attributes from lexeme `i` on. */
  function Pairs(lex: seq<Lexeme>, i: nat): seq<Pair>
    decreases |lex| - i
  {
    if i < |lex| && lex[i].token.Attribute? then [Pair(lex[i].token.name, lex[i].token.value)] + Pairs(lex, i + 1)
    else []
  }

  /** One attribute at the start of the text, and how long it is: a space, a name, and a value in double quotes. */
  function ReadPair(s: string): Option<(Pair, int)> {
    if s == "" || s[0] != ' ' then None
    else
      var equals := FirstAt(s, ['=', '"'], 1);
      if equals == |s| then None
      else
        var quote := FirstAt(s, ['"'], equals + 2);
        if quote == |s| then None else Some((Pair(s[1..equals], s[equals + 2..quote]), quote + 1))
  }

  function ReadPairs(s: string): Option<seq<Pair>>
    decreases |s|
  {
    if s == "" then Some([])
    else match ReadPair(s)
      case None => None
      case Some((pair, n)) =>
        if n <= 0 || n > |s| then None
        else match ReadPairs(s[n..])
          case None => None
          case Some(rest) => Some([pair] + rest)
  }

  lemma {:induction false} NameEndsAtEquals(name: string)
    requires '=' !in name
    ensures EndsAt(name, ['=', '"'])
  {
    forall k | 0 <= k < |name| ensures !At(name + ['=', '"'], ['=', '"'], k) {
      assert (name + ['=', '"'])[k..k + 2][0] == name[k] && name[k] in name;
    }
  }

  lemma {:induction false} PairText(name: string, value: string, more: string)
    ensures AttributeText(Attribute(name, value)) + more == [' '] + (name + (['=', '"'] + (value + (['"'] + more))))
  {}

  predicate UnfoldPair(k: nat, s: string, pair: Pair, n: int) { true }

  /** The text begins with this attribute. Unfolds only where `UnfoldPair` is mentioned. */
  ghost predicate PairIs(s: string, pair: Pair, n: int) {
    forall k: nat {:trigger UnfoldPair(k, s, pair, n)} :: UnfoldPair(k, s, pair, n) ==> ReadPair(s) == Some((pair, n))
  }

  /** Whatever its value, an attribute is read as the part of it before the first double quote. */
  lemma {:induction false} ReadsPair(name: string, value: string, more: string)
    requires '=' !in name
    ensures var text, quote := AttributeText(Attribute(name, value)) + more, FirstAt(value, ['"'], 0);
            PairIs(text, Pair(name, value[..quote]), |name| + quote + 4)
  {
    PairText(name, value, more);
    FindsPair(name, value, more, FirstAt(value, ['"'], 0));
  }

  lemma {:induction false} FindsPair(name: string, value: string, more: string, quote: nat)
    requires '=' !in name && quote == FirstAt(value, ['"'], 0)
    ensures PairIs([' '] + (name + (['=', '"'] + (value + (['"'] + more)))), Pair(name, value[..quote]),
                   |name| + quote + 4)
  {
    PairEnds(name, value, more);
    PairSlices(name, value, more, quote);
    PairAt([' '] + (name + (['=', '"'] + (value + (['"'] + more)))), |name| + 1, |name| + 3 + quote);
  }

  lemma {:induction false} PairAt(s: string, equals: nat, quote: nat)
    requires 1 <= equals && equals + 2 <= quote < |s| && s[0] == ' '
    requires FirstAt(s, ['=', '"'], 1) == equals && FirstAt(s, ['"'], equals + 2) == quote
    ensures PairIs(s, Pair(s[1..equals], s[equals + 2..quote]), quote + 1)
  {}

  lemma {:induction false} PairEnds(name: string, value: string, more: string)
    requires '=' !in name
    ensures var s, quote := [' '] + (name + (['=', '"'] + (value + (['"'] + more)))), FirstAt(value, ['"'], 0);
            && |name| + 3 + quote < |s| && s[0] == ' ' && FirstAt(s, ['=', '"'], 1) == |name| + 1
            && FirstAt(s, ['"'], |name| + 3) == |name| + 3 + quote
  {
    var tail := value + (['"'] + more);
    NameEndsAtEquals(name);
    FoundBehind([' '], name, ['=', '"'], tail);
    QuoteEnds([' '] + name + ['=', '"'], value, more);
    assert [' '] + (name + (['=', '"'] + tail)) == ([' '] + name + ['=', '"']) + tail;
  }

  lemma {:induction false} PairSlices(name: string, value: string, more: string, quote: nat)
    requires quote <= |value|
    ensures var s := [' '] + (name + (['=', '"'] + (value + (['"'] + more))));
            s[1..|name| + 1] == name && s[|name| + 3..|name| + 3 + quote] == value[..quote]
  {}

  lemma {:induction false} QuoteEnds(head: string, value: string, more: string)
    ensures FirstAt(head + (value + (['"'] + more)), ['"'], |head|) == |head| + FirstAt(value, ['"'], 0)
  {
    var quote := FirstAt(value, ['"'], 0);
    var before := value[..quote];
    FirstQuote(value, 0);
    NoneInside(before, '"');
    if quote == |value| {
      FoundBehind(head, before, ['"'], more);
      assert before == value;
    } else {
      var rest := value[quote + 1..] + (['"'] + more);
      PartsAt(value, quote, '"', ['"'] + more);
      FoundBehind(head, before, ['"'], rest);
    }
  }

  lemma {:induction false} PartsAt(s: string, i: nat, c: char, more: string)
    requires i < |s| && s[i] == c
    ensures s + more == s[..i] + ([c] + (s[i + 1..] + more))
  {
    assert s == s[..i] + [c] + s[i + 1..];
  }

  lemma {:induction false} FirstQuote(s: string, i: nat)
    requires i <= |s|
    ensures var k := FirstAt(s, ['"'], i);
            (k < |s| ==> s[k] == '"') && (forall j :: i <= j < k ==> s[j] != '"') && (i == 0 ==> '"' !in s[..k])
    decreases |s| - i
  {
    if i < |s| {
      assert s[i..i + 1] == [s[i]];
      if s[i] != '"' { FirstQuote(s, i + 1); }
    }
  }

  lemma {:induction false} QuoteIff(value: string)
    ensures FirstAt(value, ['"'], 0) == |value| <==> '"' !in value
  {
    var quote := FirstAt(value, ['"'], 0);
    FirstQuote(value, 0);
    assert value[..|value|] == value;
    if quote < |value| { assert value[quote] in value; }
  }

  lemma {:induction false} PairThen(s: string, pair: Pair, n: nat, rest: seq<Pair>)
    requires PairIs(s, pair, n) && 0 < n <= |s| && ReadPairs(s[n..]) == Some(rest)
    ensures ReadPairs(s) == Some([pair] + rest)
  {
    assert UnfoldPair(0, s, pair, n);
  }

  lemma {:induction false} OtherPair(s: string, pair: Pair, n: nat, other: Pair)
    requires PairIs(s, pair, n) && pair != other
    ensures ReadPairs(s) != Some([other])
  {
    assert UnfoldPair(0, s, pair, n);
    if 0 < n <= |s| && ReadPairs(s[n..]).Some? { assert ([pair] + ReadPairs(s[n..]).value)[0] == pair; }
  }

  lemma {:induction false} PairThenRest(name: string, value: string, more: string, rest: seq<Pair>)
    requires '=' !in name && '"' !in value && ReadPairs(more) == Some(rest)
    ensures ReadPairs(AttributeText(Attribute(name, value)) + more) == Some([Pair(name, value)] + rest)
  {
    var text := AttributeText(Attribute(name, value));
    ReadsPair(name, value, more);
    QuoteIff(value);
    assert |text| == |name| + |value| + 4 && (text + more)[|text|..] == more && value[..|value|] == value;
    PairThen(text + more, Pair(name, value), |text|, rest);
  }

  /** An attribute is read back exactly if its value has no double quote. */
  lemma {:induction false} PairReadBackIff(name: string, value: string)
    requires '=' !in name
    ensures ReadPairs(AttributeText(Attribute(name, value))) == Some([Pair(name, value)]) <==> '"' !in value
  {
    var text := AttributeText(Attribute(name, value));
    assert text + "" == text;
    if '"' in value {
      ReadsPair(name, value, "");
      QuoteIff(value);
      var quote := FirstAt(value, ['"'], 0);
      assert |value[..quote]| < |value|;
      OtherPair(text, Pair(name, value[..quote]), |name| + quote + 4, Pair(name, value));
    } else {
      PairThenRest(name, value, "", []);
      assert [Pair(name, value)] + [] == [Pair(name, value)];
    }
  }

  /** So are a tag's attributes, all of them in order. */
  lemma {:induction false} PairsReadBack(lex: seq<Lexeme>, i: nat)
    requires forall pair <- Pairs(lex, i) :: '=' !in pair.name && '"' !in pair.value
    ensures ReadPairs(AttributesFrom(lex, i)) == Some(Pairs(lex, i))
    decreases |lex| - i
  {
    if i < |lex| && lex[i].token.Attribute? {
      var Attribute(name, value) := lex[i].token;
      var pair, rest := Pair(name, value), AttributesFrom(lex, i + 1);
      assert Pairs(lex, i)[0] == pair && Pairs(lex, i)[1..] == Pairs(lex, i + 1);
      PairsReadBack(lex, i + 1);
      PairThenRest(name, value, rest, Pairs(lex, i + 1));
    }
  }

  /** Such attributes do not end their tag, whatever else is in their values. */
  lemma {:induction false} PairsStayInside(lex: seq<Lexeme>, i: nat)
    requires forall pair <- Pairs(lex, i) :: '>' !in pair.name && '"' !in pair.name && '"' !in pair.value
    ensures var attributes := AttributesFrom(lex, i);
            (attributes == "" || attributes[0] == ' ') && TagEnds(attributes + ['>'], 0, false) == |attributes|
    decreases |lex| - i
  {
    if i < |lex| && lex[i].token.Attribute? {
      var Attribute(name, value) := lex[i].token;
      assert Pairs(lex, i)[0] == Pair(name, value) && Pairs(lex, i)[1..] == Pairs(lex, i + 1);
      PairsStayInside(lex, i + 1);
      PairStaysInside(name, value, AttributesFrom(lex, i + 1));
    }
  }

  lemma {:induction false} PairStaysInside(name: string, value: string, more: string)
    requires '>' !in name && '"' !in name && '"' !in value && TagEnds(more + ['>'], 0, false) == |more|
    ensures var text := AttributeText(Attribute(name, value)) + more; TagEnds(text + ['>'], 0, false) == |text|
  {
    var one := AttributeText(Attribute(name, value));
    var s := (one + more) + ['>'];
    PairText(name, value, more + ['>']);
    assert s == one + (more + ['>']);
    var n := |name| + 3;
    forall j | 0 <= j < n - 1 ensures s[j] != '"'
      && s[j] != '>' { if 1 <= j < |name| + 1 { assert s[j] == name[j - 1]; } }
    OnTo(s, 0, n - 1, false);
    assert s[n - 1] == '"';
    forall j | n <= j < n + |value| ensures s[j] != '"' { assert s[j] == value[j - n]; }
    OnTo(s, n, n + |value|, true);
    assert s[n + |value|] == '"';
    TagEndsIs(one, more + ['>'], "", 0, false);
    assert one + ((more + ['>']) + "") == s;
  }

  /** Where there is no quote nor, outside quotes, an end, a tag goes on. */
  lemma {:induction false} OnTo(s: string, i: nat, j: nat, quoted: bool)
    requires i <= j <= |s| && forall k :: i <= k < j ==> s[k] != '"' && (quoted || s[k] != '>')
    ensures TagEnds(s, i, quoted) == TagEnds(s, j, quoted)
    decreases j - i
  {
    if i < j { OnTo(s, i + 1, j, quoted); }
  }
}
