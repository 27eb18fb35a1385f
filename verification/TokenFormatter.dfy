/** Writing tags into the text of one token. */
module TokenFormatting {
  import opened Basics
  import opened Markup
  import opened HtmlParser

  // ---- Text ----

  function EncodeChar(c: char): string {
    if c == '&' then "&amp;" else if c == '<' then "&lt;" else if c == '>' then "&gt;" else [c]
  }

  function Encode(s: string): string {
    if s == "" then "" else EncodeChar(s[0]) + Encode(s[1..])
  }

  method EncodeEntities(input: string) returns (output: string)
    ensures output == Encode(input)
  {
    output := "";
    assert input[0..] == input;
    for i := 0 to |input|
      invariant output + Encode(input[i..]) == Encode(input)
    {
      EncodeStep(output, input, i);
      match input[i] {
        case '&' => output := output + "&amp;";
        case '<' => output := output + "&lt;";
        case '>' => output := output + "&gt;";
        case c => output := output + [c];
      }
    }
  }

  lemma EncodeStep(output: string, input: string, i: nat)
    requires i < |input|
    ensures output + Encode(input[i..]) == (output + EncodeChar(input[i])) + Encode(input[i + 1..])
  {
    assert input[i..][1..] == input[i + 1..];
    Associate(output, EncodeChar(input[i]), Encode(input[i + 1..]));
  }

  predicate IsSpace(c: char) { c == ' ' || '\t' <= c <= '\r' }

  ghost predicate AllSpace(s: string) { forall i :: 0 <= i < |s| ==> IsSpace(s[i]) }

  /** Number of white-space characters a token starts with. */
  function PrefixSpaces(s: string): (n: nat)
    ensures n <= |s| && AllSpace(s[..n]) && (n < |s| ==> !IsSpace(s[n]))
  {
    if s == "" || !IsSpace(s[0]) then 0
    else
      var n := PrefixSpaces(s[1..]);
      assert s[..n + 1] == [s[0]] + s[1..][..n];
      n + 1
  }

  lemma EncodeSpace(c: char)
    requires IsSpace(c)
    ensures EncodeChar(c) == [c]
  {}

  lemma {:induction false} EncodeSpaces(s: string, n: nat)
    requires n <= |s| && AllSpace(s[..n])
    ensures Encode(s) == s[..n] + Encode(s[n..])
  {
    if n == 0 {
      assert s[0..] == s;
    } else {
      assert IsSpace(s[..n][0]) && s[1..][..n - 1] == s[..n][1..];
      EncodeSpace(s[0]);
      EncodeSpaces(s[1..], n - 1);
      EncodeKept(s, n);
    }
  }

  /** A character that stands for itself goes in front of what does. */
  lemma {:induction false} EncodeKept(s: string, n: nat)
    requires 0 < n <= |s| && EncodeChar(s[0]) == [s[0]]
    requires var t := s[1..]; Encode(t) == t[..n - 1] + Encode(t[n - 1..])
    ensures Encode(s) == s[..n] + Encode(s[n..])
  {
    var t := s[1..];
    assert s[..n] == [s[0]] + t[..n - 1] && t[n - 1..] == s[n..];
    Associate([s[0]], t[..n - 1], Encode(s[n..]));
  }

  lemma EncodeStart(s: string)
    requires s != "" && !IsSpace(s[0])
    ensures Encode(s) != "" && !IsSpace(Encode(s)[0])
  {}

  // ---- Paragraph breaks ----

  const WHITE: set<char> := {' ', '\t', '\n', '\U{0B}', '\U{0C}', '\r'}

  /** The leading white space ends before the first character that is none. */
  lemma {:induction false} PrefixSpacesIs(s: string, n: nat)
    requires n <= |s|
    ensures PrefixSpaces(s) == n <==> (forall k :: 0 <= k < n ==> s[k] in WHITE) && (n < |s| ==> s[n] !in WHITE)
  {
    if s != "" && s[0] in WHITE {
      if n > 0 {
        PrefixSpacesIs(s[1..], n - 1);
        assert forall k :: 0 < k < n ==> s[k] == s[1..][k - 1];
      }
    }
  }

  predicate BreakAt(s: string, p: nat) { p + 1 < |s| && s[p] == '\n' && s[p + 1] == '\n' }

  /** Position of the first "\n\n" at or after `from`, or the length of the string. */
  function FindBreak(s: string, from: nat): (p: nat)
    requires from <= |s|
    ensures from <= p <= |s| && (p < |s| ==> BreakAt(s, p))
    ensures forall q :: from <= q < p ==> !BreakAt(s, q)
    decreases |s| - from
  {
    if from >= |s| then |s| else if BreakAt(s, from) then from else FindBreak(s, from + 1)
  }

  /** White space without its first paragraph break. */
  function EatBreak(s: string): string {
    var p := FindBreak(s, 0);
    if p < |s| then s[..p] + s[p + 2..] else s
  }

  ghost predicate TwoLineFeeds(s: string, q: nat) { q + 2 <= |s| && s[q..q + 2] == ['\n', '\n'] }

  /** What is taken out is the first "\n\n", if there is one. */
  lemma {:induction false} EatBreakIs(s: string)
    ensures (forall q: nat :: !TwoLineFeeds(s, q)) ==> EatBreak(s) == s
    ensures forall p: nat :: TwoLineFeeds(s, p) && (forall q: nat :: q < p ==> !TwoLineFeeds(s, q)) ==>
              EatBreak(s) == s[..p] + s[p + 2..]
  {
    assert forall q: nat :: q < |s| ==> (TwoLineFeeds(s, q) <==> BreakAt(s, q)) by {
      forall q: nat | q < |s| ensures TwoLineFeeds(s, q) <==> BreakAt(s, q) {
        if q + 2 <= |s| { assert s[q..q + 2] == [s[q], s[q + 1]]; }
      }
    }
  }

  function EatBreaks(s: string, n: nat): string {
    if n == 0 then s else EatBreak(EatBreaks(s, n - 1))
  }

  // ---- Tags as text ----

  function RenderOne(pool: Pool, e: Event): string
    requires e.Open? && e.tag.kind != Whitespace ==> e.tag.id in pool
  {
    match e
    case Close(t) => "</" + t.name + ">"
    case Open(t) =>
      match t.kind
      case Element => "<" + t.name + pool[t.id].attributes + ">" + pool[t.id].data
      case VoidElement => "<" + t.name + pool[t.id].attributes + ">" + pool[t.id].data
      case Comment => "<!--" + pool[t.id].data + "-->"
      case ProcessingInstruction => "<?" + pool[t.id].data + "?>"
      case Whitespace => ""
  }

  ghost predicate Printable(pool: Pool, es: seq<Event>) {
    forall e <- es :: e.Open? && e.tag.kind != Whitespace ==> e.tag.id in pool
  }

  function Render(pool: Pool, es: seq<Event>): string
    requires Printable(pool, es)
  {
    if es == [] then "" else Render(pool, es[..|es| - 1]) + RenderOne(pool, es[|es| - 1])
  }

  /** How many inserted breaks the events take back. */
  function Breaks(es: seq<Event>): nat {
    if es == [] then 0
    else Breaks(es[..|es| - 1]) + (if es[|es| - 1].Open? && es[|es| - 1].tag.kind == Whitespace then 1 else 0)
  }

  lemma RenderSnoc(pool: Pool, es: seq<Event>, e: Event)
    requires Printable(pool, es + [e])
    ensures Printable(pool, es) && Printable(pool, [e])
    ensures Render(pool, es + [e]) == Render(pool, es) + RenderOne(pool, e)
    ensures Breaks(es + [e]) == Breaks(es) + (if e.Open? && e.tag.kind == Whitespace then 1 else 0)
  {
    assert (es + [e])[..|es|] == es;
    forall f | f in es ensures f in es + [e] {}
    assert e in es + [e];
  }

  /** An opening tag that shows. */
  ghost function BreakPlaces(es: seq<Event>): set<nat> {
    set i: nat | i < |es| && es[i].Open? && es[i].tag.kind == Whitespace
  }

  /** Every inserted break counts. */
  lemma {:induction false} BreaksIs(es: seq<Event>)
    ensures Breaks(es) == |BreakPlaces(es)|
  {
    if es != [] {
      var n := |es| - 1;
      BreaksIs(es[..n]);
      assert BreakPlaces(es)
          == if es[n].Open? && es[n].tag.kind == Whitespace then BreakPlaces(es[..n]) + {n} else BreakPlaces(es[..n]);
    }
  }

  predicate Prints(e: Event) { e.Open? && e.tag.kind != Whitespace }

  /** Where in the events the first opening tag that shows is. What comes before it stands left of the white space. */
  function Turn(es: seq<Event>): (k: nat)
    ensures k <= |es|
  {
    if es == [] then 0
    else
      var n := |es| - 1;
      var k := Turn(es[..n]);
      if k < n || Prints(es[n]) then k else |es|
  }

  lemma {:induction false} TurnIsFirst(es: seq<Event>)
    ensures (Turn(es) < |es| ==> Prints(es[Turn(es)])) && forall j :: 0 <= j < Turn(es) ==> !Prints(es[j])
  {
    if es != [] { TurnIsFirst(es[..|es| - 1]); }
  }

  lemma TurnSnoc(es: seq<Event>, e: Event)
    ensures Turn(es + [e]) == if Turn(es) < |es| || Prints(e) then Turn(es) else |es| + 1
  {
    assert (es + [e])[..|es|] == es;
  }

  lemma {:induction false} RenderAppend(pool: Pool, a: seq<Event>, b: seq<Event>)
    requires Printable(pool, a + b)
    ensures Printable(pool, a) && Printable(pool, b) && Render(pool, a + b) == Render(pool, a) + Render(pool, b)
    decreases |b|
  {
    if b == [] {
      assert a + b == a;
    } else {
      var n := |b| - 1;
      assert a + b == (a + b[..n]) + [b[n]] && b == b[..n] + [b[n]];
      RenderSnoc(pool, a + b[..n], b[n]);
      RenderAppend(pool, a, b[..n]);
      RenderLast(pool, b[..n], b[n]);
      Associate(Render(pool, a), Render(pool, b[..n]), RenderOne(pool, b[n]));
    }
  }

  lemma RenderLast(pool: Pool, es: seq<Event>, e: Event)
    requires Printable(pool, es) && Printable(pool, [e])
    ensures Printable(pool, es + [e]) && Render(pool, es + [e]) == Render(pool, es) + RenderOne(pool, e)
  {
    assert e in [e];
    RenderSnoc(pool, es, e);
  }

  /** What a token looks like once the events are written into it: what comes before the first opening tag, the token's
      white space less the breaks taken back, the other tags, and the encoded rest of the token. */
  ghost predicate Formatted(html: string, token: string, pool: Pool, events: seq<Event>) {
    forall k: nat {:trigger UnfoldFormatted(k, html, token, pool, events)} ::
      UnfoldFormatted(k, html, token, pool, events) ==>
      FormattedNow(html, token, pool, events)
  }

  predicate UnfoldFormatted(k: nat, html: string, token: string, pool: Pool, events: seq<Event>) { true }

  ghost predicate FormattedNow(html: string, token: string, pool: Pool, events: seq<Event>) {
    var n, k := PrefixSpaces(token), Turn(events);
    && Printable(pool, events) && Printable(pool, events[..k]) && Printable(pool, events[k..])
    && html == Render(pool, events[..k]) + EatBreaks(token[..n], Breaks(events)) + Render(pool, events[k..])
       + Encode(token[n..])
  }

  // ---- Splicing ----

  function InsertAt(s: string, p: nat, x: string): string
    requires p <= |s|
  {
    s[..p] + x + s[p..]
  }

  /** The parts of the text under construction: closings to the left, white space, everything opened since, the rest. */
  datatype Layout = Layout(left: string, space: string, right: string, body: string) {
    function Text(): string { left + space + right + body }

    predicate Sound() { (right == "" || right[0] == '<') && (body == "" || !IsSpace(body[0])) }
  }

  lemma SpliceLeft(l: Layout, x: string)
    ensures InsertAt(l.Text(), |l.left|, x) == l.(left := l.left + x).Text()
  {
    var s := l.Text();
    assert s[..|l.left|] == l.left && s[|l.left|..] == l.space + l.right + l.body;
  }

  lemma SpliceRight(l: Layout, x: string)
    ensures InsertAt(l.Text(), |l.left| + |l.space| + |l.right|, x) == l.(right := l.right + x).Text()
  {
    var s := l.Text();
    var p := |l.left| + |l.space| + |l.right|;
    assert s[..p] == l.left + l.space + l.right && s[p..] == l.body;
  }

  lemma BreakIff(l: Layout, k: nat)
    requires l.Sound() && k < |l.space|
    ensures BreakAt(l.Text(), |l.left| + k) <==> BreakAt(l.space, k)
  {
    var s := l.Text();
    assert s[|l.left| + k] == l.space[k];
    if k + 1 < |l.space| {
      assert s[|l.left| + k + 1] == l.space[k + 1];
    } else if |l.left| + |l.space| < |s| {
      assert s[|l.left| + |l.space|] == (l.right + l.body)[0];
    }
  }

  /** A break that starts in the white space lies in it, because neither markup nor the rest of the token starts with
      a newline. */
  lemma BreakInSpace(l: Layout)
    requires l.Sound()
    ensures var p := FindBreak(l.Text(), |l.left|);
            if p < |l.left| + |l.space| then p == |l.left| + FindBreak(l.space, 0) < |l.Text()|
              && FindBreak(l.space, 0) < |l.space|
            else FindBreak(l.space, 0) == |l.space|
  {
    var p, q := FindBreak(l.Text(), |l.left|), FindBreak(l.space, 0);
    if p < |l.left| + |l.space| {
      BreakIff(l, p - |l.left|);
    }
    if q < |l.space| {
      BreakIff(l, q);
    }
  }

  lemma CutBreak(l: Layout, q: nat)
    requires q + 2 <= |l.space|
    ensures l.Text()[..|l.left| + q] + l.Text()[|l.left| + q + 2..]
            == l.(space := l.space[..q] + l.space[q + 2..]).Text()
  {
    var s := l.Text();
    assert s[..|l.left| + q] == l.left + l.space[..q];
    assert s[|l.left| + q + 2..] == l.space[q + 2..] + l.right + l.body;
  }

  /** Where the break is found decides between taking it out and leaving the white space as it is. */
  lemma {:induction false} BreakTaken(l: Layout, pos: nat)
    requires l.Sound() && pos == FindBreak(l.Text(), |l.left|)
    ensures if pos < |l.Text()| && pos < |l.left| + |l.space| then
              && pos + 2 <= |l.Text()| && |EatBreak(l.space)| == |l.space| - 2
              && l.Text()[..pos] + l.Text()[pos + 2..] == l.(space := EatBreak(l.space)).Text()
            else EatBreak(l.space) == l.space
  {
    BreakInSpace(l);
    BreakCut(l, pos, FindBreak(l.space, 0), EatBreak(l.space));
  }

  lemma BreakCut(l: Layout, pos: nat, q: nat, eaten: string)
    requires pos <= |l.Text()|
    requires if pos < |l.left| + |l.space|
             then pos == |l.left| + q < |l.Text()| && q + 2 <= |l.space| && eaten == l.space[..q] + l.space[q + 2..]
             else eaten == l.space
    ensures if pos < |l.Text()| && pos < |l.left| + |l.space| then
              && pos + 2 <= |l.Text()| && |eaten| == |l.space| - 2
              && l.Text()[..pos] + l.Text()[pos + 2..] == l.(space := eaten).Text()
            else eaten == l.space
  {
    if pos < |l.left| + |l.space| { CutBreak(l, q); }
  }

  /** `events` were written into `token`, in their order. */
  ghost predicate Laid(l: Layout, token: string, pool: Pool, events: seq<Event>) {
    InParts(l, token, pool, events) && StandsLeft(l.left, pool, events)
  }

  ghost predicate InParts(l: Layout, token: string, pool: Pool, events: seq<Event>) {
    PartsOf(l, token[..PrefixSpaces(token)], Encode(token[PrefixSpaces(token)..]), pool, events)
  }

  ghost predicate PartsOf(l: Layout, spaces: string, body: string, pool: Pool, events: seq<Event>) {
    Printable(pool, events) && Shows(l, Render(pool, events), EatBreaks(spaces, Breaks(events)), body)
  }

  ghost predicate Shows(l: Layout, rendered: string, space: string, body: string) {
    l.Sound() && l.left + l.right == rendered && l.space == space && l.body == body
  }

  /** Left of the white space is what comes before the first opening tag. */
  ghost predicate StandsLeft(left: string, pool: Pool, events: seq<Event>) {
    Printable(pool, events[..Turn(events)]) && left == Render(pool, events[..Turn(events)])
  }

  predicate UnfoldComposed(k: nat, l: Layout, closeLeft: bool, token: string, pool: Pool, events: seq<Event>) { true }

  /** Laid out, and `closeLeft` as long as nothing showed. Unfolds only where `UnfoldComposed` is mentioned. */
  ghost predicate Composed(l: Layout, closeLeft: bool, token: string, pool: Pool, events: seq<Event>) {
    forall k: nat {:trigger UnfoldComposed(k, l, closeLeft, token, pool, events)} ::
      UnfoldComposed(k, l, closeLeft, token, pool, events) ==>
      Laid(l, token, pool, events) && (closeLeft <==> Turn(events) == |events|)
  }

  lemma NothingRight(l: Layout, token: string, pool: Pool, events: seq<Event>)
    requires Laid(l, token, pool, events) && Turn(events) == |events|
    ensures l.left == Render(pool, events) && l.right == ""
  {
    assert events[..|events|] == events;
    assert |l.left + l.right| == |l.left| + |l.right|;
  }

  /** Whatever goes right does not change what stands left. */
  lemma {:induction false} LeftStays(left: string, pool: Pool, events: seq<Event>, e: Event)
    requires StandsLeft(left, pool, events) && Printable(pool, events + [e]) && (Turn(events) == |events| ==> e.Open?)
    ensures StandsLeft(left, pool, events + [e])
  {
    TurnSnoc(events, e);
    if Turn(events) < |events| || Prints(e) {
      assert (events + [e])[..Turn(events)] == events[..Turn(events)];
    } else {
      BreakShowsNothing(pool, events, e);
      assert events[..|events|] == events;
      assert (events + [e])[..|events| + 1] == events + [e];
    }
  }

  lemma BreakShowsNothing(pool: Pool, events: seq<Event>, e: Event)
    requires Printable(pool, events + [e]) && e.Open? && !Prints(e)
    ensures Printable(pool, events) && Render(pool, events + [e]) == Render(pool, events)
  {
    RenderSnoc(pool, events, e);
    assert Render(pool, events) + "" == Render(pool, events);
  }

  lemma {:induction false} LaidLeft(l: Layout, token: string, pool: Pool, events: seq<Event>, e: Event)
    requires Laid(l, token, pool, events) && Turn(events) == |events| && e.Close?
    ensures Printable(pool, [e]) && Laid(l.(left := l.left + RenderOne(pool, e)), token, pool, events + [e])
  {
    RenderMore(pool, events, e);
    TurnSnoc(events, e);
    NothingRight(l, token, pool, events);
    assert (events + [e])[..|events| + 1] == events + [e];
    var more := l.left + RenderOne(pool, e);
    assert more + l.right == more;
  }

  lemma LaidRight(l: Layout, token: string, pool: Pool, events: seq<Event>, e: Event)
    requires Laid(l, token, pool, events) && (Prints(e) ==> e.tag.id in pool) && (Turn(events) == |events| ==> e.Open?)
    ensures var text := RenderOne(pool, e);
            var space := if e.Open? && e.tag.kind == Whitespace then EatBreak(l.space) else l.space;
            Laid(l.(space := space, right := l.right + text), token, pool, events + [e])
  {
    PartsRight(l, token, pool, events, e);
    LeftStays(l.left, pool, events, e);
  }

  lemma {:induction false} PartsRight(l: Layout, token: string, pool: Pool, events: seq<Event>, e: Event)
    requires InParts(l, token, pool, events) && (Prints(e) ==> e.tag.id in pool)
    ensures var text := RenderOne(pool, e);
            var space := if e.Open? && e.tag.kind == Whitespace then EatBreak(l.space) else l.space;
            InParts(l.(space := space, right := l.right + text), token, pool, events + [e])
  {
    RenderMore(pool, events, e);
    MoreRight(l, token[..PrefixSpaces(token)], Encode(token[PrefixSpaces(token)..]), Render(pool, events),
              Breaks(events),
              RenderOne(pool, e), e.Open? && e.tag.kind == Whitespace);
  }

  lemma {:induction false} MoreRight(l: Layout, spaces: string, body: string, rendered: string, n: nat, text: string,
                                     eats: bool)
    requires Shows(l, rendered, EatBreaks(spaces, n), body) && (text == "" || text[0] == '<')
    ensures Shows(l.(space := if eats then EatBreak(l.space) else l.space, right := l.right + text), rendered + text,
                  EatBreaks(spaces, if eats then n + 1 else n), body)
  {
    TextRight(l, rendered, EatBreaks(spaces, n), body, text, EatBreaks(spaces, if eats then n + 1 else n));
    if eats { EatOne(spaces, n); }
  }

  lemma TextRight(l: Layout, rendered: string, space: string, body: string, text: string, space': string)
    requires Shows(l, rendered, space, body) && (text == "" || text[0] == '<')
    ensures Shows(l.(space := space', right := l.right + text), rendered + text, space', body)
  {
    Associate(l.left, l.right, text);
    FirstOf(l.right, text);
  }

  lemma {:induction false} EatOne(s: string, n: nat)
    ensures EatBreaks(s, n + 1) == EatBreak(EatBreaks(s, n))
  {}

  lemma FirstOf(a: string, b: string)
    ensures a != "" ==> (a + b)[0] == a[0]
    ensures a == "" ==> a + b == b
  {}

  lemma OpenComposed(l: Layout, closeLeft: bool, token: string, pool: Pool, events: seq<Event>, tag: Tag)
    requires Composed(l, closeLeft, token, pool, events) && (tag.kind != Whitespace ==> tag.id in pool)
    ensures l.Sound()
    ensures var text := RenderOne(pool, Event.Open(tag));
            var space := if tag.kind == Whitespace then EatBreak(l.space) else l.space;
            Composed(l.(space := space, right := l.right + text), closeLeft
                     && text == "", token, pool, events + [Event.Open(tag)])
  {
    assert UnfoldComposed(0, l, closeLeft, token, pool, events);
    LaidRight(l, token, pool, events, Event.Open(tag));
    TurnSnoc(events, Event.Open(tag));
    OpenPrints(pool, tag);
  }

  lemma OpenPrints(pool: Pool, tag: Tag)
    requires tag.kind != Whitespace ==> tag.id in pool
    ensures RenderOne(pool, Event.Open(tag)) == "" <==> !Prints(Event.Open(tag))
  {}

  lemma CloseComposed(l: Layout, closeLeft: bool, token: string, pool: Pool, events: seq<Event>, tag: Tag)
    requires Composed(l, closeLeft, token, pool, events)
    ensures var text := RenderOne(pool, Event.Close(tag));
            && (closeLeft ==> l.right == "")
            && Composed(if closeLeft then l.(left := l.left + text)
                        else l.(right := l.right + text), closeLeft, token, pool,
                        events + [Event.Close(tag)])
  {
    assert UnfoldComposed(0, l, closeLeft, token, pool, events);
    TurnSnoc(events, Event.Close(tag));
    if closeLeft {
      NothingRight(l, token, pool, events);
      LaidLeft(l, token, pool, events, Event.Close(tag));
    } else {
      LaidRight(l, token, pool, events, Event.Close(tag));
    }
  }

  lemma {:induction false} LaidIs(l: Layout, token: string, pool: Pool, events: seq<Event>)
    requires Laid(l, token, pool, events)
    ensures Formatted(l.Text(), token, pool, events)
  {
    var k := Turn(events);
    assert events == events[..k] + events[k..];
    RenderAppend(pool, events[..k], events[k..]);
    Cancel(l.left, l.right, Render(pool, events[k..]));
  }

  lemma Cancel(a: string, b: string, c: string)
    requires a + b == a + c
    ensures b == c
  {
    assert b == (a + b)[|a|..] && c == (a + c)[|a|..];
  }

  lemma LaidStart(token: string, pool: Pool)
    ensures var n := PrefixSpaces(token);
            Laid(Layout("", token[..n], "", Encode(token[n..])), token, pool, [])
    ensures var n := PrefixSpaces(token);
            Encode(token) == Layout("", token[..n], "", Encode(token[n..])).Text()
  {
    var n := PrefixSpaces(token);
    NothingLaid(token, pool, n, token[..n], Encode(token[n..]));
    EncodeSpaces(token, n);
    BareText(token[..n], Encode(token[n..]));
  }

  lemma NothingLaid(token: string, pool: Pool, n: nat, space: string, body: string)
    requires n == PrefixSpaces(token) && space == token[..n] && body == Encode(token[n..])
    ensures Laid(Layout("", space, "", body), token, pool, [])
  {
    if n < |token| { EncodeStart(token[n..]); }
  }

  lemma BareText(space: string, body: string)
    ensures Layout("", space, "", body).Text() == space + body
  {}

  /** `s'` is `s` with `x` put in at `at`. */
  ghost predicate Inserted(s: string, at: nat, x: string, s': string) {
    at <= |s| && s' == s[..at] + x + s[at..]
  }

  class TokenFormatter {
    var html: string
    var offset: nat
    var whitespaceOffset: nat
    var whitespaceSize: nat
    var closeLeft: bool
    /** The parts the fields describe. */
    ghost var layout: Layout

    ghost predicate Valid()
      reads this
    {
      && html == layout.Text()
      && offset == |layout.left| + |layout.right|
      && whitespaceOffset == |layout.left| && whitespaceSize == |layout.space|
    }

    ghost predicate Wrote(token: string, pool: Pool, events: seq<Event>)
      reads this
    {
      Valid() && Composed(layout, closeLeft, token, pool, events)
    }

    constructor (token: string, ghost pool: Pool)
      ensures Wrote(token, pool, [])
    {
      var n := PrefixSpaces(token);
      offset, whitespaceOffset, whitespaceSize, closeLeft := 0, 0, n, true;
      layout := Layout("", token[..n], "", Encode(token[n..]));
      new;
      html := EncodeEntities(token);
      LaidStart(token, pool);
    }

    /** A closing tag goes left of the white space until something was opened. */
    method Close(ghost token: string, pool: Pool, tag: Tag, ghost events: seq<Event>)
      requires Wrote(token, pool, events)
      modifies this
      ensures Wrote(token, pool, events + [Event.Close(tag)])
      ensures Inserted(old(html), old(offset) + if old(closeLeft) then 0 else old(whitespaceSize),
                       ['<', '/'] + tag.name + ['>'], html)
    {
      CloseComposed(layout, closeLeft, token, pool, events, tag);
      var closeTag := RenderOne(pool, Event.Close(tag));
      if closeLeft {
        SpliceLeft(layout, closeTag);
      } else {
        SpliceRight(layout, closeTag);
      }
      html := InsertAt(html, offset + (if closeLeft then 0 else whitespaceSize), closeTag);
      offset := offset + |closeTag|;
      if closeLeft {
        whitespaceOffset := whitespaceOffset + |closeTag|;
        layout := layout.(left := layout.left + closeTag);
      } else {
        layout := layout.(right := layout.right + closeTag);
      }
    }

    /** An inserted break takes a paragraph break out of the white space, if there is one. */
    method TakeBreak()
      requires Valid() && layout.Sound()
      modifies this`html, this`whitespaceSize, this`layout
      ensures Valid() && layout == old(layout).(space := EatBreak(old(layout).space))
    {
      var pos := FindBreak(html, whitespaceOffset);
      BreakTaken(layout, pos);
      if pos < |html| && pos < whitespaceOffset + whitespaceSize {
        html := html[..pos] + html[pos + 2..];
        whitespaceSize := whitespaceSize - 2;
      }
      layout := layout.(space := EatBreak(layout.space));
    }

    /** An opening tag goes behind the white space. */
    method Open(ghost token: string, pool: Pool, tag: Tag, ghost events: seq<Event>)
      requires Wrote(token, pool, events) && (tag.kind != Whitespace ==> tag.id in pool)
      modifies this
      ensures Wrote(token, pool, events + [Event.Open(tag)])
      ensures tag.kind == Element || tag.kind == VoidElement ==>
                Inserted(old(html), old(offset) + old(whitespaceSize),
                         ['<'] + tag.name + pool[tag.id].attributes + ['>'] + pool[tag.id].data, html)
      ensures tag.kind == Comment ==>
                Inserted(old(html), old(offset) + old(whitespaceSize),
                         ['<', '!', '-', '-'] + pool[tag.id].data + ['-', '-', '>'], html)
      ensures tag.kind == ProcessingInstruction ==>
                Inserted(old(html), old(offset) + old(whitespaceSize), ['<', '?'] + pool[tag.id].data + ['?', '>'],
                         html)
    {
      OpenComposed(layout, closeLeft, token, pool, events, tag);
      var openTag := RenderOne(pool, Event.Open(tag));
      if tag.kind == Whitespace {
        TakeBreak();
      }
      WriteRight(openTag);
      closeLeft := closeLeft && openTag == "";
    }

    method WriteRight(openTag: string)
      requires Valid()
      modifies this`html, this`offset, this`layout
      ensures Valid() && layout == old(layout).(right := old(layout).right + openTag)
      ensures Inserted(old(html), old(offset) + whitespaceSize, openTag, html)
    {
      SpliceRight(layout, openTag);
      html := InsertAt(html, offset + whitespaceSize, openTag);
      offset := offset + |openTag|;
      layout := layout.(right := layout.right + openTag);
    }

    /** Writes the markup that leads from one stack to another. */
    method Append(ghost token: string, pool: Pool, prev: TagStack, curr: TagStack, ghost events: seq<Event>)
      requires Wrote(token, pool, events) && Known(curr, pool)
      modifies this
      ensures Wrote(token, pool, events + Emit(prev, curr))
    {
      var opening, closing := DiffTags(prev, curr);
      EmitParts(prev, curr, opening, closing, events);
      KnownSuffix(curr, pool, Common(prev, curr));
      CloseAll(token, pool, closing, events);
      OpenAll(token, pool, opening, events + Closes(closing));
    }

    method CloseAll(ghost token: string, pool: Pool, closing: TagStack, ghost events: seq<Event>)
      requires Wrote(token, pool, events) && forall t <- closing :: t.kind == Element
      modifies this
      ensures Wrote(token, pool, events + Closes(closing))
    {
      ghost var done := events;
      var j := |closing|;
      assert closing[..j] == closing;
      while j > 0
        invariant 0 <= j <= |closing|
        invariant Wrote(token, pool, done) && done + Closes(closing[..j]) == events + Closes(closing)
      {
        j := j - 1;
        ClosesSnoc(closing[..j], closing[j]);
        assert closing[..j + 1] == closing[..j] + [closing[j]];
        assert (done + [Event.Close(closing[j])]) + Closes(closing[..j]) == done + Closes(closing[..j + 1]);
        Close(token, pool, closing[j], done);
        done := done + [Event.Close(closing[j])];
      }
      assert done + [] == done;
    }

    method OpenAll(ghost token: string, pool: Pool, opening: TagStack, ghost events: seq<Event>)
      requires Wrote(token, pool, events) && Known(opening, pool)
      modifies this
      ensures Wrote(token, pool, events + Opens(opening))
    {
      ghost var done := events;
      for i := 0 to |opening|
        invariant Wrote(token, pool, done) && done + Opens(opening[i..]) == events + Opens(opening)
      {
        assert opening[i..][1..] == opening[i + 1..];
        assert (done + [Event.Open(opening[i])]) + Opens(opening[i + 1..]) == done + Opens(opening[i..]);
        Open(token, pool, opening[i], done);
        done := done + [Event.Open(opening[i])];
      }
      assert done + [] == done;
    }

    method Html(ghost token: string, ghost pool: Pool, ghost events: seq<Event>) returns (result: string)
      requires Wrote(token, pool, events)
      ensures Formatted(result, token, pool, events)
    {
      result := html;
      assert UnfoldComposed(0, layout, closeLeft, token, pool, events);
      LaidIs(layout, token, pool, events);
    }
  }

  lemma {:induction false} RenderMore(pool: Pool, es: seq<Event>, e: Event)
    requires Printable(pool, es) && (e.Open? && e.tag.kind != Whitespace ==> e.tag.id in pool)
    ensures Printable(pool, es + [e]) && Render(pool, es + [e]) == Render(pool, es) + RenderOne(pool, e)
    ensures Breaks(es + [e]) == Breaks(es) + (if e.Open? && e.tag.kind == Whitespace then 1 else 0)
    ensures !(e.Open? && e.tag.kind == Whitespace) ==> RenderOne(pool, e) != "" && RenderOne(pool, e)[0] == '<'
  {
    RenderSnoc(pool, es, e);
  }

  lemma EmitParts(prev: TagStack, curr: TagStack, opening: TagStack, closing: TagStack, before: seq<Event>)
    requires var k := Common(prev, curr);
             k <= |prev| && k <= |curr| && opening == curr[k..] && closing == OnlyElements(prev[k..])
    ensures (before + Closes(closing)) + Opens(opening) == before + Emit(prev, curr)
    ensures forall t <- closing :: t.kind == Element
  {
    var k := Common(prev, curr);
    ClosesOnlyElements(prev[k..]);
    OnlyElementsAre(prev[k..]);
    Associate(before, Closes(closing), Opens(opening));
  }

  lemma KnownSuffix(s: TagStack, pool: Pool, k: nat)
    requires k <= |s| && Known(s, pool)
    ensures Known(s[k..], pool)
  {}

  lemma {:induction false} ClosesOnlyElements(s: TagStack)
    ensures Closes(OnlyElements(s)) == Closes(s)
  {
    if s != [] {
      ClosesOnlyElements(s[1..]);
      var rest := OnlyElements(s[1..]);
      assert OnlyElements(s) == if s[0].kind == Element then [s[0]] + rest else rest;
      assert s[0].kind == Element ==> ([s[0]] + rest)[1..] == rest;
      assert Closes(s[1..]) + [] == Closes(s[1..]);
    }
  }

  lemma {:induction false} OnlyElementsAre(s: TagStack)
    ensures forall t <- OnlyElements(s) :: t.kind == Element
  {
    if s != [] { OnlyElementsAre(s[1..]); }
  }

  lemma {:induction false} ClosesSnoc(s: TagStack, t: Tag)
    requires t.kind == Element
    ensures Closes(s + [t]) == [Event.Close(t)] + Closes(s)
  {
    if s == [] {
      assert [] + [t] == [t];
      assert [t][1..] == [];
    } else {
      assert (s + [t])[1..] == s[1..] + [t];
      ClosesSnoc(s[1..], t);
    }
  }
}
