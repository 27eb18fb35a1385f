/** UTF-8 and UTF-16 as RFC 3629 and RFC 2781 define them, and the conversions between the two. */
module Utf {
  import opened Basics

  type Byte = b: int | 0 <= b < 0x100
  type Unit = u: int | 0 <= u < 0x1_0000
  type Scalar = c: int | 0 <= c <= 0x10_FFFF && !(0xD800 <= c <= 0xDFFF)

  datatype Error = BadLead | Truncated | BadContinuation | BadScalar | UnpairedSurrogate
  datatype Result<+T> = Ok(value: T) | Err(error: Error)

  // ---- UTF-8 ----

  /** The octets of one scalar (section 3 of RFC 3629). */
  function Utf8(c: Scalar): (s: seq<Byte>)
    ensures 1 <= |s| <= 4
  {
    if c < 0x80 then [c]
    else if c < 0x800 then [0xC0 + c / 64, 0x80 + c % 64]
    else if c < 0x1_0000 then [0xE0 + c / 4096, 0x80 + c / 64 % 64, 0x80 + c % 64]
    else [0xF0 + c / 262144, 0x80 + c / 4096 % 64, 0x80 + c / 64 % 64, 0x80 + c % 64]
  }

  function EncodeUtf8(cs: seq<Scalar>): seq<Byte> {
    if cs == [] then [] else EncodeUtf8(cs[..|cs| - 1]) + Utf8(cs[|cs| - 1])
  }

  predicate Tail(b: Byte) { 0x80 <= b <= 0xBF }

  predicate TailAt(s: seq<Byte>, i: nat) { i < |s| && Tail(s[i]) }

  /** The productions UTF8-1 to UTF8-4 of section 4 of RFC 3629: how many octets from `at` on are one of them, or 0. */
  function LengthAt(s: seq<Byte>, at: nat): (n: nat)
    requires at < |s|
    ensures at + n <= |s| && n <= 4
  {
    var b := s[at];
    if b <= 0x7F then 1
    else if 0xC2 <= b <= 0xDF && TailAt(s, at + 1) then 2
    else if ThreeAt(s, at) && TailAt(s, at + 2) then 3
    else if FourAt(s, at) && TailAt(s, at + 2) && TailAt(s, at + 3) then 4
    else 0
  }

  predicate ThreeAt(s: seq<Byte>, at: nat)
    requires at < |s|
  {
    && at + 1 < |s|
    && var b, c := s[at], s[at + 1];
       || (b == 0xE0 && 0xA0 <= c <= 0xBF) || (0xE1 <= b <= 0xEC && Tail(c))
       || (b == 0xED && 0x80 <= c <= 0x9F) || (0xEE <= b <= 0xEF && Tail(c))
  }

  predicate FourAt(s: seq<Byte>, at: nat)
    requires at < |s|
  {
    && at + 1 < |s|
    && var b, c := s[at], s[at + 1];
       (b == 0xF0 && 0x90 <= c <= 0xBF) || (0xF1 <= b <= 0xF3 && Tail(c)) || (b == 0xF4 && 0x80 <= c <= 0x8F)
  }

  /** The octets from `at` on are UTF8-octets, a sequence of those productions. */
  predicate ValidFrom(s: seq<Byte>, at: nat)
    decreases |s| - at
  {
    at == |s| || (at < |s| && LengthAt(s, at) > 0 && ValidFrom(s, at + LengthAt(s, at)))
  }

  predicate ValidUtf8(s: seq<Byte>) { ValidFrom(s, 0) }

  /** The scalar whose octets begin at `at`. */
  function ScalarAt(s: seq<Byte>, at: nat): Scalar
    requires at < |s| && LengthAt(s, at) > 0
  {
    var n := LengthAt(s, at);
    if n == 1 then s[at]
    else if n == 2 then Two(s[at] - 0xC0, s[at + 1])
    else if n == 3 then Three(s[at] - 0xE0, s[at + 1], s[at + 2])
    else Four(s[at] - 0xF0, s[at + 1], s[at + 2], s[at + 3])
  }

  /** A lead byte's bits followed by six more of each continuation byte. */
  function Two(lead: int, a: int): int { lead * 64 + (a - 0x80) }

  function Three(lead: int, a: int, b: int): int { lead * 4096 + (a - 0x80) * 64 + (b - 0x80) }

  function Four(lead: int, a: int, b: int,
                c: int): int { lead * 262144 + (a - 0x80) * 4096 + (b - 0x80) * 64 + (c - 0x80) }

  function ScalarsFrom(s: seq<Byte>, at: nat): seq<Scalar>
    requires ValidFrom(s, at)
    decreases |s| - at
  {
    if at == |s| then [] else [ScalarAt(s, at)] + ScalarsFrom(s, at + LengthAt(s, at))
  }

  lemma Slices(s: seq<Byte>, at: nat, n: nat)
    requires 1 <= n <= 4 && at + n <= |s|
    ensures s[at..at + n] == if n == 1 then [s[at]] else if n == 2 then [s[at], s[at + 1]]
                             else if n == 3 then [s[at], s[at + 1], s[at + 2]]
                               else [s[at], s[at + 1], s[at + 2], s[at + 3]]
  {}

  lemma Utf8OfScalarAt(s: seq<Byte>, at: nat)
    requires at < |s| && LengthAt(s, at) > 0
    ensures Utf8(ScalarAt(s, at)) == s[at..at + LengthAt(s, at)]
  {
    var n := LengthAt(s, at);
    Slices(s, at, n);
    if n == 2 {
      Utf8OfTwo(s[at] as int - 0xC0, s[at + 1]);
    } else if n == 3 {
      Utf8OfThree(s[at] as int - 0xE0, s[at + 1], s[at + 2]);
    } else if n == 4 {
      Utf8OfFour(s[at] as int - 0xF0, s[at + 1], s[at + 2], s[at + 3]);
    }
  }

  predicate IsScalar(c: int) { 0 <= c <= 0x10_FFFF && !(0xD800 <= c <= 0xDFFF) }

  lemma Utf8OfTwo(lead: int, a: Byte)
    requires 2 <= lead < 32 && Tail(a)
    ensures IsScalar(Two(lead, a)) && Utf8(Two(lead, a)) == [0xC0 + lead, a]
  {
    Digits2(lead, a - 0x80);
  }

  lemma Utf8OfThree(lead: int, a: Byte, b: Byte)
    requires 0 <= lead < 16 && Tail(a) && Tail(b) && (lead == 0 ==> a >= 0xA0) && (lead == 13 ==> a < 0xA0)
    ensures IsScalar(Three(lead, a, b)) && Utf8(Three(lead, a, b)) == [0xE0 + lead, a, b]
  {
    Digits3(lead, a - 0x80, b - 0x80);
  }

  lemma Utf8OfFour(lead: int, a: Byte, b: Byte, c: Byte)
    requires 0 <= lead <= 4 && Tail(a) && Tail(b) && Tail(c) && (lead == 0 ==> a >= 0x90) && (lead == 4 ==> a < 0x90)
    ensures IsScalar(Four(lead, a, b, c)) && Utf8(Four(lead, a, b, c)) == [0xF0 + lead, a, b, c]
  {
    Digits4(lead, a - 0x80, b - 0x80, c - 0x80);
  }

  lemma Digits2(a: nat, b: nat)
    requires b < 64
    ensures (a * 64 + b) / 64 == a && (a * 64 + b) % 64 == b
  {}

  lemma Digits3(a: nat, b: nat, c: nat)
    requires b < 64 && c < 64
    ensures var x := a * 4096 + b * 64 + c; x / 4096 == a && x / 64 % 64 == b && x % 64 == c
  {
    Digits2(a * 64 + b, c);
  }

  lemma Digits4(a: nat, b: nat, c: nat, d: nat)
    requires b < 64 && c < 64 && d < 64
    ensures var x := a * 262144 + b * 4096 + c * 64 + d;
            x / 262144 == a && x / 4096 % 64 == b && x / 64 % 64 == c && x % 64 == d
  {
    Digits3(a * 64 + b, c, d);
  }

  lemma Division(c: nat)
    ensures c == c / 64 * 64 + c % 64 && c / 64 / 64 == c / 4096 && c / 4096 / 64 == c / 262144
  {}

  lemma FromDigits(c: nat)
    ensures c == c / 64 * 64 + c % 64
    ensures c == c / 4096 * 4096 + c / 64 % 64 * 64 + c % 64
    ensures c == c / 262144 * 262144 + c / 4096 % 64 * 4096 + c / 64 % 64 * 64 + c % 64
  {
    Division(c);
    Division(c / 64);
    Division(c / 4096);
  }

  predicate StandsAt(s: seq<Byte>, at: nat, piece: seq<Byte>) {
    at + |piece| <= |s| && forall k :: 0 <= k < |piece| ==> s[at + k] == piece[k]
  }

  lemma Reads1(s: seq<Byte>, at: nat, c: Scalar)
    requires c < 0x80 && StandsAt(s, at, Utf8(c))
    ensures at < |s| && LengthAt(s, at) == 1 && ScalarAt(s, at) == c
  {
    var u := Utf8(c);
    assert s[at + 0] == u[0];
  }

  lemma Reads2(s: seq<Byte>, at: nat, c: Scalar)
    requires 0x80 <= c < 0x800 && StandsAt(s, at, Utf8(c))
    ensures at < |s| && LengthAt(s, at) == 2 && ScalarAt(s, at) == c
  {
    var u := Utf8(c);
    FromDigits(c);
    assert s[at + 0] == u[0] && s[at + 1] == u[1];
  }

  lemma Reads3(s: seq<Byte>, at: nat, c: Scalar)
    requires 0x800 <= c < 0x1_0000 && StandsAt(s, at, Utf8(c))
    ensures at < |s| && LengthAt(s, at) == 3 && ScalarAt(s, at) == c
  {
    var u := Utf8(c);
    FromDigits(c);
    assert s[at + 0] == u[0] && s[at + 1] == u[1] && s[at + 2] == u[2];
  }

  lemma Reads4(s: seq<Byte>, at: nat, c: Scalar)
    requires 0x1_0000 <= c && StandsAt(s, at, Utf8(c))
    ensures at < |s| && LengthAt(s, at) == 4 && ScalarAt(s, at) == c
  {
    var u := Utf8(c);
    FromDigits(c);
    assert s[at + 0] == u[0] && s[at + 1] == u[1] && s[at + 2] == u[2] && s[at + 3] == u[3];
  }

  /** A scalar's octets, with anything before and after them, read as that scalar. */
  lemma ScalarAtUtf8(before: seq<Byte>, c: Scalar, after: seq<Byte>)
    ensures var s, at := before + Utf8(c) + after, |before|;
            at < |s| && LengthAt(s, at) == |Utf8(c)| && ScalarAt(s, at) == c
  {
    var s, at := before + Utf8(c) + after, |before|;
    assert StandsAt(s, at, Utf8(c));
    if c < 0x80 {
      Reads1(s, at, c);
    } else if c < 0x800 {
      Reads2(s, at, c);
    } else if c < 0x1_0000 {
      Reads3(s, at, c);
    } else {
      Reads4(s, at, c);
    }
  }

  lemma {:induction false} EncodeFront(c: Scalar, cs: seq<Scalar>)
    ensures EncodeUtf8([c] + cs) == Utf8(c) + EncodeUtf8(cs)
  {
    if cs == [] {
      assert [c] + [] == [c] && [c][..0] == [];
      assert [] + Utf8(c) == Utf8(c) + [];
    } else {
      var n := |cs| - 1;
      var all := [c] + cs;
      assert all[..n + 1] == [c] + cs[..n] && all[n + 1] == cs[n];
      EncodeFront(c, cs[..n]);
      Associate(Utf8(c), EncodeUtf8(cs[..n]), Utf8(cs[n]));
    }
  }

  lemma ScalarsStep(s: seq<Byte>, at: nat)
    requires at < |s| && LengthAt(s, at) > 0 && ValidFrom(s, at + LengthAt(s, at))
    ensures ValidFrom(s, at) && ScalarsFrom(s, at) == [ScalarAt(s, at)] + ScalarsFrom(s, at + LengthAt(s, at))
  {}

  lemma Cut<T>(s: seq<T>, i: nat, j: nat)
    requires i <= j <= |s|
    ensures s[i..] == s[i..j] + s[j..]
  {}

  /** Decoding and encoding UTF-8 are inverse: what the grammar accepts is what scalars encode to ... */
  lemma {:induction false} EncodeScalars(s: seq<Byte>, at: nat)
    requires ValidFrom(s, at)
    ensures EncodeUtf8(ScalarsFrom(s, at)) == s[at..]
    decreases |s| - at
  {
    if at < |s| {
      var next, c := FirstScalar(s, at);
      EncodeScalars(s, next);
      EncodeStep(s, at, next, c, ScalarsFrom(s, next));
    }
  }

  lemma FirstScalar(s: seq<Byte>, at: nat) returns (next: nat, c: Scalar)
    requires ValidFrom(s, at) && at < |s|
    ensures at < next <= |s| && ValidFrom(s, next) && Utf8(c) == s[at..next]
    ensures ScalarsFrom(s, at) == [c] + ScalarsFrom(s, next)
  {
    next, c := at + LengthAt(s, at), ScalarAt(s, at);
    ScalarsStep(s, at);
    Utf8OfScalarAt(s, at);
  }

  lemma EncodeStep(s: seq<Byte>, at: nat, next: nat, c: Scalar, cs: seq<Scalar>)
    requires at <= next <= |s| && Utf8(c) == s[at..next] && EncodeUtf8(cs) == s[next..]
    ensures EncodeUtf8([c] + cs) == s[at..]
  {
    EncodeFront(c, cs);
    Cut(s, at, next);
  }

  /** What begins with a scalar's octets reads as that scalar. */
  lemma ScalarHere(s: seq<Byte>, at: nat, c: Scalar, more: seq<Byte>)
    requires at <= |s| && s[at..] == Utf8(c) + more
    ensures at < |s| && LengthAt(s, at) == |Utf8(c)| && ScalarAt(s, at) == c && s[at + |Utf8(c)|..] == more
  {
    var n := |Utf8(c)|;
    assert s == s[..at] + Utf8(c) + more;
    ScalarAtUtf8(s[..at], c, more);
    assert s[at..][n..] == s[at + n..];
  }

  /** ... and what scalars encode to is accepted and decodes to them. */
  predicate UnfoldHead(k: nat, s: seq<Byte>, at: nat, n: nat, c: Scalar) { true }

  /** Scalar `c` is read from the `n` octets at `at`. Unfolds only where `UnfoldHead` is mentioned. */
  ghost predicate Head(s: seq<Byte>, at: nat, n: nat, c: Scalar) {
    forall k: nat {:trigger UnfoldHead(k, s, at, n, c)} :: UnfoldHead(k, s, at, n, c) ==>
      at < |s| && LengthAt(s, at) == n && n > 0 && ScalarAt(s, at) == c
  }

  lemma ScalarsOfEncoded(s: seq<Byte>, at: nat, cs: seq<Scalar>)
    requires at <= |s| && s[at..] == EncodeUtf8(cs)
    ensures ValidFrom(s, at) && ScalarsFrom(s, at) == cs
  {
    DecodesTo(s, at, cs);
    assert UnfoldDecoded(0, s, at, cs);
  }

  predicate UnfoldDecoded(k: nat, s: seq<Byte>, at: nat, cs: seq<Scalar>) { true }

  /** The octets from `at` on read as `cs`. Unfolds only where `UnfoldDecoded` is mentioned. */
  ghost predicate Decoded(s: seq<Byte>, at: nat, cs: seq<Scalar>) {
    forall k: nat {:trigger UnfoldDecoded(k, s, at, cs)} :: UnfoldDecoded(k, s, at, cs) ==>
      ValidFrom(s, at) && ScalarsFrom(s, at) == cs
  }

  lemma {:induction false} DecodesTo(s: seq<Byte>, at: nat, cs: seq<Scalar>)
    requires at <= |s| && s[at..] == EncodeUtf8(cs)
    ensures Decoded(s, at, cs)
    decreases |cs|
  {
    if cs == [] {
      NothingEncoded(s, at);
    } else {
      var n := EncodedHead(s, at, cs);
      DecodesTo(s, at + n, cs[1..]);
      ScalarFirst(s, at, n, cs[0], cs[1..]);
      assert cs == [cs[0]] + cs[1..];
    }
  }

  lemma NothingEncoded(s: seq<Byte>, at: nat)
    requires at <= |s| && s[at..] == EncodeUtf8([])
    ensures Decoded(s, at, [])
  {
    assert |s[at..]| == 0;
  }

  lemma EncodedHead(s: seq<Byte>, at: nat, cs: seq<Scalar>) returns (n: nat)
    requires at <= |s| && s[at..] == EncodeUtf8(cs) && cs != []
    ensures at + n <= |s| && Head(s, at, n, cs[0]) && s[at + n..] == EncodeUtf8(cs[1..])
  {
    var c, rest := cs[0], cs[1..];
    assert cs == [c] + rest;
    EncodeFront(c, rest);
    ScalarHere(s, at, c, EncodeUtf8(rest));
    n := |Utf8(c)|;
  }

  lemma ScalarFirst(s: seq<Byte>, at: nat, n: nat, c: Scalar, rest: seq<Scalar>)
    requires at + n <= |s| && Head(s, at, n, c) && Decoded(s, at + n, rest)
    ensures Decoded(s, at, [c] + rest)
  {
    assert UnfoldDecoded(0, s, at + n, rest);
    assert UnfoldHead(0, s, at, n, c);
    ScalarsStep(s, at);
  }

  lemma EncodeMore(cs: seq<Scalar>, c: Scalar)
    ensures EncodeUtf8(cs + [c]) == EncodeUtf8(cs) + Utf8(c)
  {
    assert (cs + [c])[..|cs|] == cs;
  }

  // ---- UTF-16 ----

  predicate High(u: Unit) { 0xD800 <= u <= 0xDBFF }

  predicate Low(u: Unit) { 0xDC00 <= u <= 0xDFFF }

  /** The units of one scalar (section 2.1 of RFC 2781). */
  function Utf16(c: Scalar): (s: seq<Unit>)
    ensures 1 <= |s| <= 2
  {
    if c < 0x1_0000 then [c] else [0xD800 + (c - 0x1_0000) / 1024, 0xDC00 + (c - 0x1_0000) % 1024]
  }

  function EncodeUtf16(cs: seq<Scalar>): seq<Unit> {
    if cs == [] then [] else EncodeUtf16(cs[..|cs| - 1]) + Utf16(cs[|cs| - 1])
  }

  /** No surrogate is without its partner: a low one stands right behind each high one and nowhere else. */
  predicate Paired(s: seq<Unit>) {
    forall i :: 0 <= i < |s| ==> PairedAt(s, i)
  }

  predicate PairedAt(s: seq<Unit>, i: nat)
    requires i < |s|
  {
    && (High(s[i]) ==> i + 1 < |s| && Low(s[i + 1]))
    && (Low(s[i]) ==> i > 0 && High(s[i - 1]))
  }

  lemma EncodeMore16(cs: seq<Scalar>, c: Scalar)
    ensures EncodeUtf16(cs + [c]) == EncodeUtf16(cs) + Utf16(c)
  {
    assert (cs + [c])[..|cs|] == cs;
  }

  /** Whatever scalars encode to is paired. */
  lemma {:induction false} EncodedIsPaired(cs: seq<Scalar>)
    ensures Paired(EncodeUtf16(cs))
  {
    if cs != [] {
      var front, last := EncodeUtf16(cs[..|cs| - 1]), Utf16(cs[|cs| - 1]);
      EncodedIsPaired(cs[..|cs| - 1]);
      forall i | 0 <= i < |front + last| ensures PairedAt(front + last, i) {
        if i < |front| {
          assert PairedAt(front, i);
        } else {
          assert (front + last)[i] == last[i - |front|];
        }
      }
    }
  }

  // ---- Reading units ----

  /** How many units from `i` on make a scalar. */
  function Width(s: seq<Unit>, i: nat): (n: nat)
    requires i < |s|
    ensures n <= 2 && i + n <= |s|
  {
    if High(s[i]) then (if i + 1 < |s| && Low(s[i + 1]) then 2 else 0) else if Low(s[i]) then 0 else 1
  }

  function Pair(high: int, low: int): int { 0x1_0000 + (high - 0xD800) * 1024 + (low - 0xDC00) }

  function UnitsScalar(s: seq<Unit>, i: nat): Scalar
    requires i < |s| && Width(s, i) > 0
  {
    if Width(s, i) == 1 then s[i] else Pair(s[i], s[i + 1])
  }

  lemma Utf16OfUnits(s: seq<Unit>, i: nat)
    requires i < |s| && Width(s, i) > 0
    ensures Utf16(UnitsScalar(s, i)) == s[i..i + Width(s, i)]
  {
    if Width(s, i) == 1 {
      assert s[i..i + 1] == [s[i]];
    } else {
      assert s[i..i + 2] == [s[i], s[i + 1]];
    }
  }

  lemma EncodedEnd(cs: seq<Scalar>)
    requires cs != []
    ensures EncodeUtf16(cs) != [] && !High(EncodeUtf16(cs)[|EncodeUtf16(cs)| - 1])
  {
    var last := Utf16(cs[|cs| - 1]);
    assert !High(last[|last| - 1]);
  }

  /** At the start of a scalar, being paired is being wide enough to read on. */
  lemma WidthOfPaired(s: seq<Unit>, i: nat, before: seq<Scalar>)
    requires i < |s| && s[..i] == EncodeUtf16(before) && PairedAt(s, i)
    ensures Width(s, i) > 0
  {
    if before != [] {
      EncodedEnd(before);
      assert s[i - 1] == s[..i][i - 1];
    }
  }

  // ---- The conversions ----

  method AppendUtf8(out: seq<Byte>, c: Scalar) returns (out': seq<Byte>)
    ensures out' == out + Utf8(c)
  {
    if c < 0x80 {
      out' := out + [c];
    } else if c < 0x800 {
      out' := out + [0xC0 + c / 64] + [0x80 + c % 64];
    } else if c < 0x1_0000 {
      out' := out + [0xE0 + c / 4096] + [0x80 + c / 64 % 64] + [0x80 + c % 64];
    } else {
      out' := out + [0xF0 + c / 262144] + [0x80 + c / 4096 % 64] + [0x80 + c / 64 % 64] + [0x80 + c % 64];
    }
  }

  /** Rejects exactly the texts with an unpaired surrogate; otherwise both sides encode the same scalars. */
  method ToUtf8(input: seq<Unit>) returns (r: Result<seq<Byte>>, ghost cs: seq<Scalar>)
    ensures r.Ok? <==> Paired(input)
    ensures r.Ok? ==> input == EncodeUtf16(cs) && r.value == EncodeUtf8(cs)
    ensures r.Err? ==> r.error == UnpairedSurrogate
  {
    var out: seq<Byte> := [];
    cs := [];
    var i := 0;
    while i < |input|
      invariant i <= |input| && Converted(input, i, cs, out)
    {
      var c: int := input[i];
      if 0xD800 <= c <= 0xDBFF {
        if i + 1 == |input| || input[i + 1] < 0xDC00 || input[i + 1] > 0xDFFF {
          assert !PairedAt(input, i);
          return Err(UnpairedSurrogate), cs;
        }
        c := 0x1_0000 + (c - 0xD800) * 1024 + (input[i + 1] as int - 0xDC00);
      } else if 0xDC00 <= c <= 0xDFFF {
        LowAlone(input, i, cs, out);
        return Err(UnpairedSurrogate), cs;
      }
      assert Width(input, i) > 0 && c == UnitsScalar(input, i);
      ConvertedMore(input, i, cs, out);
      out := AppendUtf8(out, c);
      i := i + Width(input, i);
      cs := cs + [c];
    }
    ConvertedAll(input, cs, out);
    r := Ok(out);
  }

  predicate UnfoldConverted(k: nat, s: seq<Unit>, i: nat, cs: seq<Scalar>, out: seq<Byte>) { true }

  /** The first `i` units and the octets so far encode the same scalars. Unfolds only where `UnfoldConverted` is
      mentioned. */
  ghost predicate Converted(s: seq<Unit>, i: nat, cs: seq<Scalar>, out: seq<Byte>)
    requires i <= |s|
  {
    forall k: nat {:trigger UnfoldConverted(k, s, i, cs, out)} :: UnfoldConverted(k, s, i, cs, out) ==>
      s[..i] == EncodeUtf16(cs) && out == EncodeUtf8(cs)
  }

  lemma LowAlone(s: seq<Unit>, i: nat, cs: seq<Scalar>, out: seq<Byte>)
    requires i < |s| && Low(s[i]) && Converted(s, i, cs, out)
    ensures !PairedAt(s, i)
  {
    assert UnfoldConverted(0, s, i, cs, out);
    if PairedAt(s, i) { WidthOfPaired(s, i, cs); }
  }

  lemma ConvertedMore(s: seq<Unit>, i: nat, cs: seq<Scalar>, out: seq<Byte>)
    requires i < |s| && Width(s, i) > 0 && Converted(s, i, cs, out)
    ensures Converted(s, i + Width(s, i), cs + [UnitsScalar(s, i)], out + Utf8(UnitsScalar(s, i)))
  {
    assert UnfoldConverted(0, s, i, cs, out);
    UnitsStep(s, i, cs);
    EncodeMore(cs, UnitsScalar(s, i));
  }

  lemma ConvertedAll(s: seq<Unit>, cs: seq<Scalar>, out: seq<Byte>)
    requires Converted(s, |s|, cs, out)
    ensures Paired(s) && s == EncodeUtf16(cs) && out == EncodeUtf8(cs)
  {
    assert UnfoldConverted(0, s, |s|, cs, out);
    assert s[..|s|] == s;
    EncodedIsPaired(cs);
  }

  lemma UnitsStep(s: seq<Unit>, i: nat, before: seq<Scalar>)
    requires i < |s| && Width(s, i) > 0 && s[..i] == EncodeUtf16(before)
    ensures s[..i + Width(s, i)] == EncodeUtf16(before + [UnitsScalar(s, i)])
  {
    Utf16OfUnits(s, i);
    EncodeMore16(before, UnitsScalar(s, i));
    assert s[..i + Width(s, i)] == s[..i] + s[i..i + Width(s, i)];
  }

  // ---- Reading one scalar byte by byte ----

  /** The bits of a lead byte and of the `n` bytes behind it. */
  function Bits(s: seq<Byte>, at: nat, lead: nat, n: nat): int
    requires at + n < |s|
  {
    if n == 0 then lead else Bits(s, at, lead, n - 1) * 64 + s[at + n] % 64
  }

  lemma TailBits(b: Byte)
    ensures b / 64 == 2 <==> Tail(b)
    ensures Tail(b) ==> b % 64 == b - 0x80
  {}

  lemma LeadBits(b: Byte)
    ensures 0xC2 <= b <= 0xDF ==> b % 32 == b - 0xC0
    ensures 0xE0 <= b <= 0xEF ==> b % 16 == b - 0xE0
    ensures 0xF0 <= b <= 0xF4 ==> b % 8 == b - 0xF0
  {}

  lemma TwoBits(s: seq<Byte>, at: nat, lead: nat)
    requires at + 1 < |s| && Tail(s[at + 1])
    ensures Bits(s, at, lead, 1) == Two(lead, s[at + 1])
  {
    TailBits(s[at + 1]);
    assert Bits(s, at, lead, 0) == lead;
  }

  lemma ThreeBits(s: seq<Byte>, at: nat, lead: nat)
    requires at + 2 < |s| && Tail(s[at + 1]) && Tail(s[at + 2])
    ensures Bits(s, at, lead, 2) == Three(lead, s[at + 1], s[at + 2])
  {
    TwoBits(s, at, lead);
    TailBits(s[at + 2]);
  }

  lemma FourBits(s: seq<Byte>, at: nat, lead: nat)
    requires at + 3 < |s| && Tail(s[at + 1]) && Tail(s[at + 2]) && Tail(s[at + 3])
    ensures Bits(s, at, lead, 3) == Four(lead, s[at + 1], s[at + 2], s[at + 3])
  {
    ThreeBits(s, at, lead);
    TailBits(s[at + 3]);
  }

  ghost predicate LeadOf(b: Byte, lead: nat, extra: nat, minimum: nat) {
    || (0xC2 <= b <= 0xDF && lead == b - 0xC0 && extra == 1 && minimum == 0x80)
    || (0xE0 <= b <= 0xEF && lead == b - 0xE0 && extra == 2 && minimum == 0x800)
    || (0xF0 <= b <= 0xF4 && lead == b - 0xF0 && extra == 3 && minimum == 0x1_0000)
  }

  predicate OutOfRange(c: int, minimum: int) { c < minimum || c > 0x10_FFFF || 0xD800 <= c <= 0xDFFF }

  /** What the checks on a multi-byte scalar add up to. */
  lemma ChecksAreGrammar(s: seq<Byte>, at: nat, lead: nat, extra: nat, minimum: nat)
    requires at + extra < |s| && LeadOf(s[at], lead, extra, minimum)
    requires forall j :: at < j <= at + extra ==> Tail(s[j])
    ensures var c := Bits(s, at, lead, extra);
            if OutOfRange(c, minimum) then LengthAt(s, at) == 0
            else LengthAt(s, at) == extra + 1 && ScalarAt(s, at) == c
  {
    if extra == 1 {
      TwoBits(s, at, lead);
    } else if extra == 2 {
      ThreeBits(s, at, lead);
      ThreeGrammar(s, at, lead);
    } else {
      FourBits(s, at, lead);
      FourGrammar(s, at, lead);
    }
  }

  lemma ThreeGrammar(s: seq<Byte>, at: nat, lead: nat)
    requires at + 2 < |s| && 0xE0 <= s[at] <= 0xEF && lead == s[at] - 0xE0 && Tail(s[at + 1]) && Tail(s[at + 2])
    ensures OutOfRange(Three(lead, s[at + 1], s[at + 2]), 0x800) <==> !ThreeAt(s, at)
  {}

  lemma FourGrammar(s: seq<Byte>, at: nat, lead: nat)
    requires at + 3 < |s| && 0xF0 <= s[at] <= 0xF4 && lead == s[at] - 0xF0 && Tail(s[at + 1]) && Tail(s[at + 2])
    requires Tail(s[at + 3])
    ensures OutOfRange(Four(lead, s[at + 1], s[at + 2], s[at + 3]), 0x1_0000) <==> !FourAt(s, at)
  {}

  /** Reads the scalar at `at` if the bytes from there on begin with a production of the grammar. */
  method ReadScalar(s: seq<Byte>, at: nat) returns (r: Result<(Scalar, nat)>)
    requires at < |s|
    ensures r.Ok? <==> LengthAt(s, at) > 0
    ensures r.Ok? ==> r.value == (ScalarAt(s, at), at + LengthAt(s, at))
  {
    var c: int := s[at];
    var i := at + 1;
    var extra, minimum := 0, 0;
    if 0xC2 <= c <= 0xDF {
      c, extra, minimum := c % 32, 1, 0x80;
    } else if 0xE0 <= c <= 0xEF {
      c, extra, minimum := c % 16, 2, 0x800;
    } else if 0xF0 <= c <= 0xF4 {
      c, extra, minimum := c % 8, 3, 0x1_0000;
    } else if c >= 0x80 {
      return Err(BadLead);
    }
    if extra > |s| - i {
      return Err(Truncated);
    }
    ghost var lead := c;
    LeadBits(s[at]);
    var tail := ReadTail(s, at, c, extra);
    if tail.Err? {
      ghost var j :| at < j <= at + extra && !Tail(s[j]);
      NeedsTails(s, at, lead, extra, minimum, j);
      return Err(tail.error);
    }
    c, i := tail.value, i + extra;
    if extra > 0 {
      ChecksAreGrammar(s, at, lead, extra, minimum);
    }
    if c < minimum || c > 0x10_FFFF || 0xD800 <= c <= 0xDFFF {
      return Err(BadScalar);
    }
    r := Ok((c, i));
  }

  /** Collects the bits of the `extra` bytes behind a lead byte. */
  method ReadTail(s: seq<Byte>, at: nat, lead: nat, extra: nat) returns (r: Result<int>)
    requires at + extra < |s|
    ensures r.Ok? ==> r.value == Bits(s, at, lead, extra) && forall j :: at < j <= at + extra ==> Tail(s[j])
    ensures r.Err? ==> exists j :: at < j <= at + extra && !Tail(s[j])
  {
    var c: int := lead;
    var i, left := at + 1, extra;
    while left > 0
      invariant 0 <= left <= extra && i == at + 1 + (extra - left)
      invariant c == Bits(s, at, lead, extra - left)
      invariant forall j :: at < j < i ==> Tail(s[j])
    {
      var b := s[i];
      TailBits(b);
      if b / 64 != 2 {
        return Err(BadContinuation);
      }
      c := c * 64 + b % 64;
      i, left := i + 1, left - 1;
    }
    r := Ok(c);
  }

  /** Behind a lead byte nothing but continuation bytes makes a scalar. */
  lemma NeedsTails(s: seq<Byte>, at: nat, lead: nat, extra: nat, minimum: nat, j: nat)
    requires at < |s| && LeadOf(s[at], lead, extra, minimum) && at < j <= at + extra && (j < |s| ==> !Tail(s[j]))
    ensures LengthAt(s, at) == 0
  {}

  /** Where the octets up to `at` encode `before`, the rest decides whether the whole is valid, and what it encodes. */
  lemma {:induction false} ValidSplit(s: seq<Byte>, at: nat, before: seq<Scalar>)
    requires at <= |s| && s[..at] == EncodeUtf8(before)
    ensures ValidUtf8(s) <==> ValidFrom(s, at)
    decreases |before|
  {
    if before != [] {
      var n, c := |before| - 1, before[|before| - 1];
      var start := |EncodeUtf8(before[..n])|;
      assert s[..at][..start] == s[..start];
      ScalarAtUtf8(s[..start], c, s[at..]);
      assert s == s[..start] + Utf8(c) + s[at..];
      ValidSplit(s, start, before[..n]);
    }
  }

  method AppendUtf16(out: seq<Unit>, c: Scalar) returns (out': seq<Unit>)
    ensures out' == out + Utf16(c)
  {
    if c < 0x1_0000 {
      out' := out + [c];
    } else {
      var rest: int := c - 0x1_0000;
      out' := out + [0xD800 + rest / 1024] + [0xDC00 + rest % 1024];
    }
  }

  /** Accepts exactly the octets of section 4 of RFC 3629; both sides encode the same scalars. */
  method ToUtf16(input: seq<Byte>) returns (r: Result<seq<Unit>>, ghost cs: seq<Scalar>)
    ensures r.Ok? <==> ValidUtf8(input)
    ensures r.Ok? ==> input == EncodeUtf8(cs) && r.value == EncodeUtf16(cs)
  {
    var out: seq<Unit> := [];
    cs := [];
    var i := 0;
    while i < |input|
      invariant i <= |input| && input[..i] == EncodeUtf8(cs) && out == EncodeUtf16(cs)
    {
      ValidSplit(input, i, cs);
      var one := ReadScalar(input, i);
      if one.Err? {
        return Err(one.error), cs;
      }
      BytesStep(input, i, cs);
      var c := one.value.0;
      i := one.value.1;
      out := AppendUtf16(out, c);
      EncodeMore16(cs, c);
      cs := cs + [c];
    }
    ValidSplit(input, i, cs);
    assert input[..i] == input;
    r := Ok(out);
  }

  lemma {:induction false} BytesStep(s: seq<Byte>, i: nat, before: seq<Scalar>)
    requires i < |s| && LengthAt(s, i) > 0 && s[..i] == EncodeUtf8(before)
    ensures s[..i + LengthAt(s, i)] == EncodeUtf8(before + [ScalarAt(s, i)])
  {
    Utf8OfScalarAt(s, i);
    EncodeMore(before, ScalarAt(s, i));
    assert s[..i + LengthAt(s, i)] == s[..i] + s[i..i + LengthAt(s, i)];
  }

  // ---- The conversions undo each other ----

  lemma {:induction false} Encode8Injective(cs: seq<Scalar>, ds: seq<Scalar>)
    requires EncodeUtf8(cs) == EncodeUtf8(ds)
    ensures cs == ds
  {
    var s := EncodeUtf8(cs);
    assert s[0..] == s;
    ScalarsOfEncoded(s, 0, cs);
    ScalarsOfEncoded(s, 0, ds);
  }

  lemma Cancel<T>(x: seq<T>, a: seq<T>, y: seq<T>, b: seq<T>)
    requires x + a == y + b && |a| == |b|
    ensures x == y && a == b
  {
    assert x == (x + a)[..|x|] && y == (y + b)[..|y|];
    assert a == (x + a)[|x|..] && b == (y + b)[|y|..];
  }

  lemma LastUnit(x: seq<Unit>, c: Scalar)
    ensures var all := x + Utf16(c); Low(all[|all| - 1]) <==> |Utf16(c)| == 2
  {}

  /** The last unit tells how many units the last scalar has, so units determine their scalars. */
  lemma {:induction false} Encode16Injective(cs: seq<Scalar>, ds: seq<Scalar>)
    requires EncodeUtf16(cs) == EncodeUtf16(ds)
    ensures cs == ds
  {
    if cs != [] && ds != [] {
      var m, n := |cs| - 1, |ds| - 1;
      var x, y := EncodeUtf16(cs[..m]), EncodeUtf16(ds[..n]);
      assert x + Utf16(cs[m]) == y + Utf16(ds[n]);
      LastUnit(x, cs[m]);
      LastUnit(y, ds[n]);
      Cancel(x, Utf16(cs[m]), y, Utf16(ds[n]));
      Utf16Injective(cs[m], ds[n]);
      Encode16Injective(cs[..m], ds[..n]);
      assert cs == cs[..m] + [cs[m]] && ds == ds[..n] + [ds[n]];
    }
  }

  lemma Utf16Injective(c: Scalar, d: Scalar)
    requires Utf16(c) == Utf16(d)
    ensures c == d
  {
    if |Utf16(c)| == 2 {
      assert Utf16(c)[0] == Utf16(d)[0] && Utf16(c)[1] == Utf16(d)[1];
    } else {
      assert Utf16(c)[0] == Utf16(d)[0];
    }
  }

  method RoundTrip8(text: seq<Byte>) returns (back: Result<seq<Byte>>)
    requires ValidUtf8(text)
    ensures back == Ok(text)
  {
    var units;
    ghost var cs, ds;
    units, cs := ToUtf16(text);
    EncodedIsPaired(cs);
    back, ds := ToUtf8(units.value);
    Encode16Injective(cs, ds);
  }

  method RoundTrip16(text: seq<Unit>) returns (back: Result<seq<Unit>>)
    requires Paired(text)
    ensures back == Ok(text)
  {
    var bytes;
    ghost var cs, ds;
    bytes, cs := ToUtf8(text);
    assert bytes.value[0..] == bytes.value;
    ScalarsOfEncoded(bytes.value, 0, cs);
    back, ds := ToUtf16(bytes.value);
    Encode8Injective(cs, ds);
  }
}
