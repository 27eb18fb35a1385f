/** Where an ignored element ends, and what is kept with a tag, found by counting and cutting rather than by reading
    on. */
module TagBodies {
  import opened Basics
  import opened HtmlParsing

  const CAPITALS := "ABCDEFGHIJKLMNOPQRSTUVWXYZ"
  const SMALL := "abcdefghijklmnopqrstuvwxyz"

  /** Lower case of a letter of the Latin alphabet, place by place. */
  ghost predicate Lowered(c: char, d: char) {
    if exists k: nat :: k < |CAPITALS| && CAPITALS[k] == c then exists k: nat ::
      k < |CAPITALS| && CAPITALS[k] == c && SMALL[k] == d
    else d == c
  }

  lemma {:induction false} LowerIs(s: string)
    ensures |Lower(s)| == |s| && forall i :: 0 <= i < |s| ==> Lowered(s[i], Lower(s)[i])
  {
    if s != "" {
      LowerIs(s[1..]);
      LoweredChar(s[0]);
      forall i | 0 <= i < |s| ensures Lowered(s[i], Lower(s)[i]) {
        if i > 0 { assert s[i] == s[1..][i - 1] && Lower(s)[i] == Lower(s[1..])[i - 1]; }
      }
    }
  }

  lemma {:induction false} LoweredChar(c: char)
    ensures Lowered(c, LowerChar(c))
  {
    if 'A' <= c <= 'Z' {
      var k := c as int - 65;
      assert CAPITALS[k] == c && SMALL[k] == LowerChar(c);
    }
  }

  // ---- Ignored elements ----

  /** How many elements of the name a lexeme opens. */
  ghost function Opening(t: Token, name: string): int {
    if t.TagStart? && Lower(t.name) == name then 1 else if t.TagEnd? && Lower(t.name) == name then -1 else 0
  }

  /** How many more of them are open behind the lexemes `[i, j)` than before. */
  ghost function Depth(lex: seq<Lexeme>, i: nat, j: nat, name: string): int
    requires j <= |lex|
    decreases |lex| - i
  {
    if i >= j then 0 else Opening(lex[i].token, name) + Depth(lex, i + 1, j, name)
  }

  /** With `inside` open before lexeme `i`, all are closed by the lexeme before `j` and not earlier. */
  ghost predicate ClosedBy(lex: seq<Lexeme>, i: nat, name: string, inside: nat, j: nat) {
    && i < j <= |lex| && inside + Depth(lex, i, j, name) == 0
    && (forall k: nat :: i <= k < j ==> inside + Depth(lex, i, k, name) > 0)
    && (forall k: nat :: i <= k < j ==> lex[k].token != Error)
  }

  lemma {:induction false} ClosedByNext(lex: seq<Lexeme>, i: nat, name: string, inside: nat, j: nat)
    requires 0 < inside && i < |lex|
    ensures var left := inside + Opening(lex[i].token, name);
            ClosedBy(lex, i, name, inside, j) <==>
            lex[i].token != Error && (if left == 0 then j == i + 1 else ClosedBy(lex, i + 1, name, left, j))
  {
    var left := inside + Opening(lex[i].token, name);
    assert Depth(lex, i + 1, i + 1, name) == 0;
    assert Depth(lex, i, i + 1, name) == Opening(lex[i].token, name);
    assert forall k: nat :: i < k <= |lex| ==> inside + Depth(lex, i, k, name) == left + Depth(lex, i + 1, k, name);
    if ClosedBy(lex, i, name, inside, j) {
      assert lex[i].token != Error;
      if j > i + 1 {
        assert inside + Depth(lex, i, i + 1, name) > 0;
        var next := i + 1;
        forall k: nat | next <= k < j ensures left + Depth(lex, next, k, name) > 0 {
          assert inside + Depth(lex, i, k, name) > 0;
        }
        assert forall k: nat :: i + 1 <= k < j ==> lex[k].token != Error;
        assert left + Depth(lex, i + 1, j, name) == 0;
        assert ClosedBy(lex, i + 1, name, left, j);
      }
    } else if lex[i].token != Error && left == 0 && j == i + 1 {
      forall k: nat | i <= k < j ensures inside + Depth(lex, i, k, name) > 0 && lex[k].token != Error {
        assert k == i;
      }
      assert ClosedBy(lex, i, name, inside, j);
    } else if lex[i].token != Error && left > 0 && ClosedBy(lex, i + 1, name, left, j) {
      forall k: nat | i <= k < j ensures inside + Depth(lex, i, k, name) > 0 && lex[k].token != Error {
        if k > i { assert left + Depth(lex, i + 1, k, name) > 0; }
      }
      assert ClosedBy(lex, i, name, inside, j);
    }
  }

  lemma {:induction false} SkipsTo(lex: seq<Lexeme>, i: nat, name: string, inside: nat, j: nat)
    requires 0 < inside
    ensures SkipNested(lex, i, name, inside) == Some(j) <==> ClosedBy(lex, i, name, inside, j)
    decreases |lex| - i
  {
    if i < |lex| {
      ClosedByNext(lex, i, name, inside, j);
      var left := inside + Opening(lex[i].token, name);
      if left > 0 { SkipsTo(lex, i + 1, name, left, j); }
    }
  }

  /** An ignored element ends with the first end tag of its name up to which as many of them end as begin, counting its
      own beginning. */
  lemma {:induction false} IgnoredEndsAt(lex: seq<Lexeme>, i: nat, name: string, j: nat)
    requires i <= |lex|
    ensures AfterIgnored(lex, i, name) == Some(j) <==> ClosedBy(lex, i, name, 1, j)
    decreases |lex| - i
  {
    if i < |lex| && lex[i].token.Attribute? {
      IgnoredEndsAt(lex, i + 1, name, j);
      ClosedByNext(lex, i, name, 1, j);
    } else {
      SkipsTo(lex, i, name, 1, j);
    }
  }

  // ---- Attributes and data ----

  /** The lexemes `[at + 1, first)` are all the attributes of the tag headed at `at`. */
  ghost predicate AttributesEnd(lex: seq<Lexeme>, at: nat, first: nat) {
    && at < first <= |lex| && (first < |lex| ==> !lex[first].token.Attribute?)
    && forall k :: at < k < first ==> lex[k].token.Attribute?
  }

  /** What the attributes `[i, first)` read like in a tag: each behind a space, its value in double quotes. */
  ghost function Spelled(lex: seq<Lexeme>, i: nat, first: nat): string
    requires first <= |lex| && forall k :: i <= k < first ==> lex[k].token.Attribute?
    decreases |lex| - i
  {
    if i >= first then ""
    else [' '] + lex[i].token.name + ['=', '"'] + lex[i].token.value + ['"'] + Spelled(lex, i + 1, first)
  }

  lemma {:induction false} AttributesAre(lex: seq<Lexeme>, i: nat, first: nat)
    requires 0 < i <= first && AttributesEnd(lex, i - 1, first)
    ensures SkipAttributes(lex, i) == first && AttributesFrom(lex, i) == Spelled(lex, i, first)
    decreases |lex| - i
  {
    if i < first {
      AttributesAre(lex, i + 1, first);
    }
  }

  /** `data` is what stands in the document from lexeme `first` to the last one before `end`. */
  ghost predicate CutOut(original: string, lex: seq<Lexeme>, first: nat, end: nat, data: string) {
    && first < end <= |lex| && lex[first].start <= lex[end - 1].start <= |original|
    && data == original[lex[first].start..lex[end - 1].start]
  }

  ghost predicate HeadsIgnored(o: Options, t: Token) { t.TagStart? && Lower(t.name) in o.ignoredTags }

  /** With a tag are kept its attributes, and the data behind it. */
  lemma {:induction false} BodyIs(o: Options, original: string, lex: seq<Lexeme>, at: nat, first: nat)
    requires at < |lex| && ScannerOrder(original, lex) && AttributesEnd(lex, at, first)
    ensures BodyAt(o, original, lex, at).attributes == Spelled(lex, at + 1, first)
    ensures !HeadsIgnored(o, lex[at].token) ==>
              BodyAt(o, original, lex, at).data
              == if first < |lex| && lex[first].token.Data? then lex[first].token.value else ""
  {
    AttributesAre(lex, at + 1, first);
    assert "" + AttributesFrom(lex, at + 1) == AttributesFrom(lex, at + 1);
  }

  /** With an ignored element is kept all that stands in the document between its start tag and its end tag. */
  lemma {:induction false} IgnoredBodyIs(o: Options, original: string, lex: seq<Lexeme>, at: nat, first: nat, end: nat)
    requires at < |lex| && ScannerOrder(original, lex) && AttributesEnd(lex, at, first)
    requires HeadsIgnored(o, lex[at].token) && ClosedBy(lex, at + 1, Lower(lex[at].token.name), 1, end)
    ensures CutOut(original, lex, first, end, BodyAt(o, original, lex, at).data)
  {
    AttributesAre(lex, at + 1, first);
    IgnoredEndsAt(lex, at + 1, Lower(lex[at].token.name), end);
    OffsetsGrow(original, lex, first, end - 1);
  }
}
