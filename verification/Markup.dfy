/** Tag stacks, the difference between two of them, and the words of tag events such differences spell. */
module Markup {
  import opened Basics

  datatype Kind = Element | VoidElement | Comment | ProcessingInstruction | Whitespace

  /** A tag of the pool. `id` is its identity; what is never rewritten after its creation is kept here. */
  datatype Tag = Tag(id: nat, kind: Kind, name: string)

  /** The tags around a piece of text, outermost first. */
  type TagStack = seq<Tag>

  /** Text `[begin, end)` of the plain source and the tags applied to it. */
  datatype Span = Span(begin: nat, end: nat, tags: TagStack)

  /** Printing a tag's opening (for anything but an element, all of it) or an element's closing. */
  datatype Event = Open(tag: Tag) | Close(tag: Tag)

  function Common(prev: TagStack, curr: TagStack): nat {
    if prev != [] && curr != [] && prev[0] == curr[0] then 1 + Common(prev[1..], curr[1..]) else 0
  }

  lemma {:induction false} CommonIsLongest(prev: TagStack, curr: TagStack)
    ensures var k := Common(prev, curr);
            && k <= |prev| && k <= |curr| && prev[..k] == curr[..k]
            && (k < |prev| && k < |curr| ==> prev[k] != curr[k])
  {
    if prev != [] && curr != [] && prev[0] == curr[0] {
      CommonIsLongest(prev[1..], curr[1..]);
      var k := Common(prev[1..], curr[1..]);
      assert prev[..k + 1] == [prev[0]] + prev[1..][..k];
      assert curr[..k + 1] == [curr[0]] + curr[1..][..k];
    }
  }

  lemma {:induction false} CommonIs(prev: TagStack, curr: TagStack, k: nat)
    requires k <= |prev| && k <= |curr| && prev[..k] == curr[..k]
    requires k < |prev| && k < |curr| ==> prev[k] != curr[k]
    ensures Common(prev, curr) == k
  {
    if k > 0 {
      assert prev[0] == prev[..k][0] == curr[..k][0] == curr[0];
      assert prev[1..][..k - 1] == prev[..k][1..] == curr[..k][1..] == curr[1..][..k - 1];
      CommonIs(prev[1..], curr[1..], k - 1);
    }
  }

  function OnlyElements(s: TagStack): TagStack {
    if s == [] then [] else (if s[0].kind == Element then [s[0]] else []) + OnlyElements(s[1..])
  }

  /** Innermost first. */
  function Closes(s: TagStack): seq<Event> {
    if s == [] then [] else Closes(s[1..]) + (if s[0].kind == Element then [Close(s[0])] else [])
  }

  function Opens(s: TagStack): seq<Event> {
    if s == [] then [] else [Open(s[0])] + Opens(s[1..])
  }

  /** What is printed to get from one stack to another. */
  function Emit(prev: TagStack, curr: TagStack): seq<Event> {
    CommonIsLongest(prev, curr);
    var k := Common(prev, curr);
    Closes(prev[k..]) + Opens(curr[k..])
  }

  /** Which tags to close and to open to get from one stack to the other; only elements need closing. */
  method DiffTags(prev: TagStack, curr: TagStack) returns (opening: TagStack, closing: TagStack)
    ensures var k := Common(prev, curr);
            k <= |prev| && k <= |curr| && opening == curr[k..] && closing == OnlyElements(prev[k..])
  {
    var i := 0;
    while i < |prev|
      invariant i <= |prev| && i <= |curr| && prev[..i] == curr[..i]
    {
      if i >= |curr| || prev[i] != curr[i] {
        break;
      }
      i := i + 1;
    }
    CommonIs(prev, curr, i);
    closing := KeepElements(prev[i..]);
    opening := curr[i..];
  }

  method KeepElements(tags: TagStack) returns (kept: TagStack)
    ensures kept == OnlyElements(tags)
  {
    kept := [];
    for j := 0 to |tags|
      invariant kept + OnlyElements(tags[j..]) == OnlyElements(tags)
    {
      assert tags[j..][1..] == tags[j + 1..];
      if tags[j].kind == Element {
        kept := kept + [tags[j]];
      }
    }
  }

  // ---- The words events spell ----

  /** Reading one event with `open` the elements open so far. Closing anything but the innermost is an error. */
  function Read(open: TagStack, e: Event): Option<TagStack> {
    match e
    case Open(t) => Some(if t.kind == Element then open + [t] else open)
    case Close(t) => if open != [] && open[|open| - 1] == t then Some(open[..|open| - 1]) else None
  }

  function Play(open: TagStack, word: seq<Event>): Option<TagStack>
    decreases word
  {
    if word == [] then Some(open)
    else match Read(open, word[0])
      case None => None
      case Some(next) => Play(next, word[1..])
  }

  /** A word that opens and closes elements like brackets, from none open to none open. */
  predicate WellNested(word: seq<Event>) { Play([], word) == Some([]) }

  lemma {:induction false} PlayAppend(open: TagStack, v: seq<Event>, w: seq<Event>)
    ensures Play(open, v + w) == match Play(open, v) case None => None case Some(mid) => Play(mid, w)
    decreases v
  {
    if v == [] {
      assert v + w == w;
    } else {
      assert (v + w)[1..] == v[1..] + w;
      match Read(open, v[0])
      case None =>
      case Some(next) => PlayAppend(next, v[1..], w);
    }
  }

  lemma {:induction false} ElementsAppend(s: TagStack, t: TagStack)
    ensures OnlyElements(s + t) == OnlyElements(s) + OnlyElements(t)
  {
    if s == [] {
      assert s + t == t;
    } else {
      assert (s + t)[1..] == s[1..] + t;
      ElementsAppend(s[1..], t);
      assert [s[0]] + (OnlyElements(s[1..]) + OnlyElements(t)) == ([s[0]] + OnlyElements(s[1..])) + OnlyElements(t);
    }
  }

  lemma PlayOne(open: TagStack, e: Event)
    ensures Play(open, [e]) == Read(open, e)
  {
    match Read(open, e)
    case None =>
    case Some(next) => assert Play(next, []) == Some(next);
  }

  lemma CloseLast(base: TagStack, t: Tag)
    ensures Play(base + [t], [Close(t)]) == Some(base)
  {
    PlayOne(base + [t], Close(t));
    assert (base + [t])[..|base|] == base;
  }

  lemma CloseAfter(open: TagStack, word: seq<Event>, base: TagStack, t: Tag)
    requires Play(open, word) == Some(base + [t])
    ensures Play(open, word + [Close(t)]) == Some(base)
  {
    PlayAppend(open, word, [Close(t)]);
    CloseLast(base, t);
  }

  lemma {:induction false} ClosesPlay(base: TagStack, s: TagStack)
    ensures Play(base + OnlyElements(s), Closes(s)) == Some(base)
    decreases s
  {
    if s == [] {
      assert base + [] == base;
    } else if s[0].kind == Element {
      var inner := base + [s[0]];
      ClosesPlay(inner, s[1..]);
      Associate(base, [s[0]], OnlyElements(s[1..]));
      CloseAfter(base + OnlyElements(s), Closes(s[1..]), base, s[0]);
    } else {
      ClosesPlay(base, s[1..]);
      assert OnlyElements(s) == OnlyElements(s[1..]) && Closes(s) == Closes(s[1..]);
    }
  }

  lemma {:induction false} OpensPlay(base: TagStack, s: TagStack)
    ensures Play(base, Opens(s)) == Some(base + OnlyElements(s))
    decreases s
  {
    if s == [] {
      assert base + [] == base;
    } else {
      var one: TagStack := if s[0].kind == Element then [s[0]] else [];
      OpensPlay(base + one, s[1..]);
      OpenBefore(base, s[0], one, Opens(s[1..]));
      Associate(base, one, OnlyElements(s[1..]));
    }
  }

  lemma OpenBefore(base: TagStack, t: Tag, one: TagStack, word: seq<Event>)
    requires one == if t.kind == Element then [t] else []
    ensures Play(base, [Open(t)] + word) == Play(base + one, word)
  {
    PlayAppend(base, [Open(t)], word);
    PlayOne(base, Open(t));
    assert base + [] == base;
  }

  /** Printing the difference takes the open elements from those of `prev` to those of `curr`. */
  lemma EmitPlays(prev: TagStack, curr: TagStack)
    ensures Play(OnlyElements(prev), Emit(prev, curr)) == Some(OnlyElements(curr))
  {
    CommonIsLongest(prev, curr);
    var k := Common(prev, curr);
    assert prev == prev[..k] + prev[k..] && curr == curr[..k] + curr[k..];
    ElementsAppend(prev[..k], prev[k..]);
    ElementsAppend(curr[..k], curr[k..]);
    ClosesPlay(OnlyElements(prev[..k]), prev[k..]);
    OpensPlay(OnlyElements(curr[..k]), curr[k..]);
    PlayAppend(OnlyElements(prev), Closes(prev[k..]), Opens(curr[k..]));
  }

  lemma EmitSame(s: TagStack)
    ensures Emit(s, s) == []
  {
    CommonIs(s, s, |s|);
  }

  // ---- Walks over stacks ----

  /** Everything printed while moving along the stacks of `path`. */
  function Walk(path: seq<TagStack>): seq<Event> {
    if |path| < 2 then [] else Walk(path[..|path| - 1]) + Emit(path[|path| - 2], path[|path| - 1])
  }

  lemma {:induction false} WalkAppend(path: seq<TagStack>, next: TagStack)
    requires path != []
    ensures Walk(path + [next]) == Walk(path) + Emit(path[|path| - 1], next)
  {
    assert (path + [next])[..|path|] == path;
  }

  /** A walk that starts and ends with no tags is well nested. */
  lemma {:induction false} WalkPlays(path: seq<TagStack>)
    requires path != [] && path[0] == []
    ensures Play([], Walk(path)) == Some(OnlyElements(path[|path| - 1]))
  {
    if |path| >= 2 {
      var init := path[..|path| - 1];
      WalkPlays(init);
      EmitPlays(init[|init| - 1], path[|path| - 1]);
      PlayAppend([], Walk(init), Emit(path[|path| - 2], path[|path| - 1]));
    }
  }

  lemma {:induction false} OpensAll(s: TagStack, t: Tag)
    requires t in s
    ensures Open(t) in Opens(s)
  {
    if s[0] != t { OpensAll(s[1..], t); }
  }

  /** A walk from the empty stack has opened every tag of every stack it passed. */
  lemma {:induction false} WalkOpens(path: seq<TagStack>, i: nat, t: Tag)
    requires i < |path| && path[0] == [] && t in path[i]
    ensures Open(t) in Walk(path)
    decreases |path|, i
  {
    if i < |path| - 1 {
      WalkOpens(path[..|path| - 1], i, t);
    } else {
      var prev, curr := path[i - 1], path[i];
      CommonIsLongest(prev, curr);
      var k := Common(prev, curr);
      assert curr == curr[..k] + curr[k..];
      if t in curr[k..] {
        OpensAll(curr[k..], t);
      } else {
        assert t in prev[..k];
        assert t in prev;
        WalkOpens(path[..|path| - 1], i - 1, t);
      }
    }
  }

  function TagsOf(spans: seq<Span>): (stacks: seq<TagStack>)
    ensures |stacks| == |spans|
    ensures forall i :: 0 <= i < |spans| ==> stacks[i] == spans[i].tags
  {
    if spans == [] then [] else TagsOf(spans[..|spans| - 1]) + [spans[|spans| - 1].tags]
  }

  /** What printing the differences between consecutive spans prints. */
  function Replay(spans: seq<Span>): seq<Event> { Walk(TagsOf(spans)) }

  lemma ReplayAppend(spans: seq<Span>, next: Span)
    requires spans != []
    ensures Replay(spans + [next]) == Replay(spans) + Emit(spans[|spans| - 1].tags, next.tags)
  {
    assert TagsOf(spans + [next]) == TagsOf(spans) + [next.tags];
    WalkAppend(TagsOf(spans), next.tags);
  }
}
