/** The text and entity part of the markup scanner, and what it makes of encoded text. */
module Scanning {
  import opened Basics
  import opened TokenFormatting

  /** `Markup` stands for everything that begins with '<', which other parts of the scanner deal with. */
  datatype TokenType = EndOfText | Text | Markup

  predicate Special(c: char) { c == '\0' || c == '<' || c == '&' }

  predicate Alpha(c: char) { 'a' <= c <= 'z' || 'A' <= c <= 'Z' }

  /** The characters that text goes on with until markup, an entity or the end. */
  ghost predicate RunOf(input: string, from: nat, to: nat) {
    && from <= to <= |input| && (forall q :: from <= q < to ==> !Special(input[q]))
    && (to < |input| ==> Special(input[to]))
  }

  /** An entity's name runs up to its semicolon, or, without one, as far as there are letters. */
  ghost predicate NameOf(input: string, from: nat, to: nat, closed: bool) {
    && from <= to <= |input| && (forall q :: from <= q < to ==> Alpha(input[q]))
    && if closed then to < |input| && input[to] == ';' else to < |input| ==> !Alpha(input[to]) && input[to] != ';'
  }

  function Resolved(entity: string): string {
    if entity == ['&', 'l', 't', ';'] then ['<']
    else if entity == ['&', 'g', 't', ';'] then ['>']
    else if entity == ['&', 'a', 'm', 'p', ';'] then ['&']
    else if entity == ['&', 'q', 'u', 'o', 't', ';'] then ['"']
    else if entity == ['&', 'a', 'p', 'o', 's', ';'] then ['\'']
    else if entity == ['&', 'n', 'b', 's', 'p', ';'] then [' ']
    else entity
  }

  class Scanner {
    const input: string
    var pos: nat
    var value: string

    constructor (input: string)
      ensures this.input == input && pos == 0
    {
      this.input := input;
      pos, value := 0, "";
    }

    /** The next character, or NUL at the end. */
    function Peek(): char
      reads this
    {
      if pos < |input| then input[pos] else '\0'
    }

    method ScanBody() returns (t: TokenType)
      requires pos <= |input|
      modifies this
      ensures old(pos) <= pos <= |input|
      ensures t == EndOfText <==> old(Peek()) == '\0'
      ensures t == Markup <==> old(Peek()) == '<'
      ensures t != Text ==> pos == old(pos) && value == ""
      ensures t == Text ==> pos > old(pos)
      ensures t == Text && old(Peek()) != '&' ==> RunOf(input, old(pos), pos) && value == input[old(pos)..pos]
      ensures t == Text && old(Peek()) == '&' ==> EntityAt(input, old(pos), pos, value)
    {
      value := "";
      if Peek() == '\0' {
        return EndOfText;
      } else if Peek() == '<' {
        return Markup;
      } else if Peek() == '&' {
        ScanEntity();
        return Text;
      }
      ghost var start := pos;
      while Peek() != '\0' && Peek() != '<' && Peek() != '&'
        invariant start <= pos <= |input| && value == input[start..pos]
        invariant forall q :: start <= q < pos ==> !Special(input[q])
        decreases |input| - pos
      {
        value := value + [Peek()];
        pos := pos + 1;
      }
      t := Text;
    }

    method ScanEntity()
      requires pos < |input| && input[pos] == '&'
      modifies this`pos, this`value
      ensures old(pos) < pos <= |input| && EntityAt(input, old(pos), pos, value)
    {
      ghost var start := pos;
      var entity := [input[pos]];
      pos := pos + 1;
      var hasEnd := false;
      while Peek() != '\0'
        invariant start < pos <= |input| && entity == input[start..pos] && !hasEnd
        invariant forall q :: start < q < pos ==> Alpha(input[q])
        decreases |input| - pos
      {
        if Peek() == ';' {
          entity := entity + [Peek()];
          pos := pos + 1;
          hasEnd := true;
          break;
        } else if !Alpha(Peek()) {
          break;
        }
        entity := entity + [Peek()];
        pos := pos + 1;
      }
      assert entity == input[start..pos];
      assert NameOf(input, start + 1, if hasEnd then pos - 1 else pos, hasEnd);
      EntityScanned(input, start, pos, hasEnd, entity);
      value := if hasEnd then Resolved(entity) else entity;
    }
  }

  /** The entity at `from` ends at `to` and stands for `value`; one that is not finished or not known stands for
      itself. */
  ghost predicate EntityAt(input: string, from: nat, to: nat, value: string) {
    && from < to <= |input|
    && ((NameOf(input, from + 1, to - 1, true) && value == Resolved(input[from..to]))
        || (NameOf(input, from + 1, to, false) && value == input[from..to]))
  }

  lemma EntityScanned(input: string, from: nat, to: nat, hasEnd: bool, entity: string)
    requires to <= |input| && from < to && entity == input[from..to]
    requires from < to <= |input| && (hasEnd ==> from + 1 < to)
    requires NameOf(input, from + 1, if hasEnd then to - 1 else to, hasEnd)
    ensures EntityAt(input, from, to, if hasEnd then Resolved(entity) else entity)
  {}

  /** The entities that are known, and what they stand for. A space that does not break becomes one that does. */
  const ENTITIES: seq<(string, char)> :=
    [("&lt;", '<'), ("&gt;", '>'), ("&amp;", '&'), ("&quot;", '\"'), ("&apos;", '\''), ("&nbsp;", ' ')]

  /** Known entities stand for a character, all others for themselves. */
  lemma {:induction false} ResolvedIs(entity: string)
    ensures forall k :: 0 <= k < |ENTITIES| && ENTITIES[k].0 == entity ==> Resolved(entity) == [ENTITIES[k].1]
    ensures (forall k :: 0 <= k < |ENTITIES| ==> ENTITIES[k].0 != entity) ==> Resolved(entity) == entity
  {
    assert ENTITIES[0].0 == ['&', 'l', 't', ';'] && ENTITIES[1].0 == ['&', 'g', 't', ';'];
    assert ENTITIES[2].0 == ['&', 'a', 'm', 'p', ';'] && ENTITIES[3].0 == ['&', 'q', 'u', 'o', 't', ';'];
    assert ENTITIES[4].0 == ['&', 'a', 'p', 'o', 's', ';'] && ENTITIES[5].0 == ['&', 'n', 'b', 's', 'p', ';'];
  }

  /** Letters are those of ASCII. */
  lemma {:induction false} LettersOnly(c: char)
    ensures Alpha(c) <==> 0x41 <= c as int <= 0x5A || 0x61 <= c as int <= 0x7A
  {}

  // ---- Scanning encoded text ----

  predicate Escaped(c: char) { c == '&' || c == '<' || c == '>' }

  /** How much of a text stands unchanged at the start of its encoding. */
  function PlainLength(s: string): (n: nat)
    ensures n <= |s| && (forall q :: 0 <= q < n ==> !Escaped(s[q])) && (n < |s| ==> Escaped(s[n]))
  {
    if s == "" || Escaped(s[0]) then 0 else 1 + PlainLength(s[1..])
  }

  lemma {:induction false} EncodePlain(s: string, n: nat)
    requires n <= |s| && forall q :: 0 <= q < n ==> !Escaped(s[q])
    ensures Encode(s) == s[..n] + Encode(s[n..])
  {
    if n == 0 {
      assert s[0..] == s;
    } else {
      var t := s[1..];
      assert forall q :: 0 <= q < n - 1 ==> t[q] == s[q + 1];
      EncodePlain(t, n - 1);
      EncodeKept(s, n);
    }
  }

  lemma EncodeFirst(s: string)
    requires s != ""
    ensures Encode(s) == EncodeChar(s[0]) + Encode(s[1..])
    ensures Encode(s) != "" && Encode(s)[0] == (if Escaped(s[0]) then '&' else s[0])
  {}

  lemma RunUnique(input: string, from: nat, a: nat, b: nat)
    requires RunOf(input, from, a) && RunOf(input, from, b)
    ensures a == b
  {
    assert a < |input| ==> Special(input[a]);
    assert b < |input| ==> Special(input[b]);
  }

  /** A name that ends in a semicolon ends there and nowhere else. */
  lemma NameUnique(input: string, from: nat, a: nat, b: nat)
    requires NameOf(input, from, a, true)
    ensures NameOf(input, from, b, true) ==> a == b
    ensures !NameOf(input, from, b, false)
  {
    assert input[a] == ';' && !Alpha(input[a]);
    assert b < |input| ==> input[b] == ';' || input[b] != ';';
  }

  lemma RunHere(input: string, pos: nat, plain: string, more: string)
    requires pos <= |input| && input[pos..] == plain + more && (more != "" ==> more[0] == '&')
    requires forall q :: 0 <= q < |plain| ==> !Special(plain[q])
    ensures RunOf(input, pos, pos + |plain|) && input[pos..pos + |plain|] == plain && input[pos + |plain|..] == more
  {
    var tail := input[pos..];
    forall q | pos <= q < pos + |plain| ensures !Special(input[q]) {
      assert input[q] == tail[q - pos] == plain[q - pos];
    }
    assert tail[..|plain|] == plain && tail[|plain|..] == more;
    if more != "" { assert input[pos + |plain|] == tail[|plain|] == more[0]; }
  }

  /** Where the input goes on with the encoding of `rest`, a text token is a piece of `rest`. */
  lemma {:induction false} TextIsPlain(input: string, pos: nat, rest: string, to: nat)
    requires pos <= |input| && input[pos..] == Encode(rest) && rest != "" && '\0' !in rest && !Escaped(rest[0])
    requires RunOf(input, pos, to)
    ensures var n := PlainLength(rest);
            0 < n && to == pos + n && input[pos..to] == rest[..n] && input[to..] == Encode(rest[n..])
  {
    var n := PlainLength(rest);
    var plain, more := rest[..n], Encode(rest[n..]);
    assert input[pos..] == plain + more by { EncodePlain(rest, n); }
    forall q | 0 <= q < |plain| ensures !Special(plain[q]) {
      assert plain[q] == rest[q] && rest[q] in rest;
    }
    assert more != "" ==> more[0] == '&' by {
      if n < |rest| { EncodeFirst(rest[n..]); }
    }
    RunHere(input, pos, plain, more);
    RunUnique(input, pos, pos + n, to);
  }

  lemma EncodedName(c: char)
    requires Escaped(c)
    ensures var e := EncodeChar(c); |e| > 2 && e[0] == '&' && NameOf(e, 1, |e| - 1, true) && Resolved(e) == [c]
  {
    if c == '&' {
      assert EncodeChar(c) == ['&', 'a', 'm', 'p', ';'];
    } else if c == '<' {
      assert EncodeChar(c) == ['&', 'l', 't', ';'];
    } else {
      assert EncodeChar(c) == ['&', 'g', 't', ';'];
    }
  }

  /** A closed entity stands for what it resolves to. */
  lemma {:induction false} EntityHere(input: string, pos: nat, e: string, more: string, to: nat, value: string)
    requires pos <= |input| && input[pos..] == e + more && |e| > 2 && NameOf(e, 1, |e| - 1, true)
    requires EntityAt(input, pos, to, value)
    ensures to == pos + |e| && value == Resolved(e) && input[to..] == more
  {
    PieceHere(input, pos, e, more);
    NameInText(input, pos, e);
    EntityEnds(input, pos, pos + |e|, to, value);
  }

  lemma PieceHere(input: string, pos: nat, e: string, more: string)
    requires pos <= |input| && input[pos..] == e + more
    ensures pos + |e| <= |input| && input[pos..pos + |e|] == e && input[pos + |e|..] == more
  {
    assert |input[pos..]| == |input| - pos;
    assert input[pos..][..|e|] == e && input[pos..][|e|..] == more;
    SliceShift(input, pos, |e|);
  }

  lemma EntityEnds(input: string, pos: nat, end: nat, to: nat, value: string)
    requires EntityAt(input, pos, to, value) && pos + 2 < end <= |input| && NameOf(input, pos + 1, end - 1, true)
    ensures to == end && value == Resolved(input[pos..end])
  {
    NameUnique(input, pos + 1, end - 1, to - 1);
    NameUnique(input, pos + 1, end - 1, to);
  }

  /** ... and an entity is an escaped character of it. */
  lemma EntityIsEscaped(input: string, pos: nat, rest: string, to: nat, value: string)
    requires pos <= |input| && input[pos..] == Encode(rest) && rest != "" && Escaped(rest[0])
    requires EntityAt(input, pos, to, value)
    ensures value == rest[..1] && input[to..] == Encode(rest[1..])
  {
    EncodeFirst(rest);
    EncodedName(rest[0]);
    EntityHere(input, pos, EncodeChar(rest[0]), Encode(rest[1..]), to, value);
  }

  lemma SliceShift(input: string, pos: nat, n: nat)
    requires pos + n <= |input|
    ensures input[pos..][..n] == input[pos..pos + n] && input[pos..][n..] == input[pos + n..]
  {}

  lemma NameInText(input: string, pos: nat, e: string)
    requires |e| > 2 && pos + |e| <= |input| && input[pos..pos + |e|] == e && NameOf(e, 1, |e| - 1, true)
    ensures NameOf(input, pos + 1, pos + |e| - 1, true)
  {
    var part := input[pos..pos + |e|];
    forall q | pos + 1 <= q < pos + |e| - 1 ensures Alpha(input[q]) {
      assert input[q] == part[q - pos];
    }
    assert input[pos + |e| - 1] == part[|e| - 1];
  }

  /** Scanning an encoded text gives nothing but text tokens, and together they are the text. */
  method Rescan(s: string) returns (types: seq<TokenType>, values: seq<string>)
    requires '\0' !in s
    ensures Join(values) == s && |types| == |values| && forall i :: 0 <= i < |types| ==> types[i] == Text
  {
    var encoded := EncodeEntities(s);
    var scanner := new Scanner(encoded);
    types, values := [], [];
    ghost var rest := s;
    assert encoded[0..] == encoded && "" + s == s;
    while true
      invariant fresh(scanner) && scanner.input == encoded && scanner.pos <= |encoded|
      invariant Scanned(encoded, scanner.pos, s, rest, values)
      invariant |types| == |values| && forall i :: 0 <= i < |types| ==> types[i] == Text
      decreases |encoded| - scanner.pos
    {
      ghost var from := scanner.pos;
      PeekScanned(encoded, scanner.pos, s, rest, values);
      var t := scanner.ScanBody();
      if t == EndOfText { break; }
      rest := ScannedMore(encoded, from, s, rest, values, scanner.pos, scanner.value);
      types, values := types + [t], values + [scanner.value];
    }
  }

  predicate UnfoldScanned(k: nat, input: string, pos: nat, s: string, rest: string, values: seq<string>) { true }

  /** The tokens so far and what the input goes on with are the text. Unfolds only where `UnfoldScanned` is
      mentioned. */
  ghost predicate Scanned(input: string, pos: nat, s: string, rest: string, values: seq<string>) {
    forall k: nat {:trigger UnfoldScanned(k, input, pos, s, rest, values)} ::
      UnfoldScanned(k, input, pos, s, rest, values) ==>
      pos <= |input| && input[pos..] == Encode(rest) && '\0' !in rest && Join(values) + rest == s
  }

  /** The text is through at the end of the input; elsewhere a text token follows. */
  lemma PeekScanned(input: string, pos: nat, s: string, rest: string, values: seq<string>)
    requires Scanned(input, pos, s, rest, values)
    ensures pos <= |input| && (pos == |input| <==> rest == "")
    ensures pos < |input| ==> input[pos] != '\0' && input[pos] != '<'
    ensures rest == "" ==> Join(values) == s
  {
    assert UnfoldScanned(0, input, pos, s, rest, values);
    PeekEncoded(input, pos, rest);
  }

  lemma ScannedMore(input: string, from: nat, s: string, rest: string, values: seq<string>, to: nat, value: string)
    returns (rest': string)
    requires Scanned(input, from, s, rest, values) && rest != "" && from < |input|
    requires if input[from] == '&' then EntityAt(input, from, to, value)
             else RunOf(input, from, to) && value == input[from..to]
    ensures Scanned(input, to, s, rest', values + [value])
  {
    assert UnfoldScanned(0, input, from, s, rest, values);
    var n := TokenStep(input, from, rest, to, value);
    rest' := rest[n..];
    JoinMore(values, value);
    Taken(Join(values), rest, n);
  }

  lemma Taken(done: string, rest: string, n: nat)
    requires n <= |rest|
    ensures (done + rest[..n]) + rest[n..] == done + rest
  {}

  lemma PeekEncoded(input: string, pos: nat, rest: string)
    requires pos <= |input| && input[pos..] == Encode(rest) && '\0' !in rest
    ensures pos == |input| <==> rest == ""
    ensures rest != "" ==>
            input[pos] == (if Escaped(rest[0]) then '&' else rest[0]) && input[pos] != '\0' && input[pos] != '<'
  {
    if rest != "" {
      EncodeFirst(rest);
      assert input[pos] == input[pos..][0];
      assert rest[0] in rest;
    }
  }

  /** One text token takes `n` characters of the text. */
  lemma TokenStep(input: string, from: nat, rest: string, to: nat, value: string) returns (n: nat)
    requires from <= |input| && input[from..] == Encode(rest) && '\0' !in rest && rest != ""
    requires if input[from] == '&' then EntityAt(input, from, to, value)
             else RunOf(input, from, to) && value == input[from..to]
    ensures 0 < n <= |rest| && to <= |input| && value == rest[..n] && input[to..] == Encode(rest[n..])
    ensures '\0' !in rest[n..]
  {
    PeekEncoded(input, from, rest);
    if Escaped(rest[0]) {
      EntityIsEscaped(input, from, rest, to, value);
      n := 1;
    } else {
      TextIsPlain(input, from, rest, to);
      n := PlainLength(rest);
    }
  }
}
