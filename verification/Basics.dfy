/** What several components share: optional values, ranges of bytes, and sequences put one behind the other. */
module Basics {

  datatype Option<+T> = None | Some(value: T)

  /** The range `[begin, end)` of a text. */
  datatype ByteRange = ByteRange(begin: nat, end: nat) {
    function Size(): int { end - begin }
  }

  function Min(a: int, b: int): int { if a <= b then a else b }

  function Max(a: int, b: int): int { if a <= b then b else a }

  /** The pieces one behind the other. */
  function Join<T>(pieces: seq<seq<T>>): seq<T> {
    if pieces == [] then [] else Join(pieces[..|pieces| - 1]) + pieces[|pieces| - 1]
  }

  lemma JoinMore<T>(pieces: seq<seq<T>>, piece: seq<T>)
    ensures Join(pieces + [piece]) == Join(pieces) + piece
  {
    assert (pieces + [piece])[..|pieces|] == pieces;
  }

  lemma JoinOne<T>(piece: seq<T>)
    ensures Join([piece]) == piece
  {
    assert [piece][..0] == [];
  }

  lemma AppendMore<T>(a: seq<seq<T>>, b: seq<seq<T>>, piece: seq<T>)
    requires Join(a + b) == Join(a) + Join(b)
    ensures Join(a + (b + [piece])) == Join(a) + Join(b + [piece])
  {
    Associate(a, b, [piece]);
    JoinMore(a + b, piece);
    JoinMore(b, piece);
    Associate(Join(a), Join(b), piece);
  }

  lemma {:induction false} JoinAppend<T>(a: seq<seq<T>>, b: seq<seq<T>>)
    ensures Join(a + b) == Join(a) + Join(b)
    decreases |b|
  {
    if b == [] {
      assert a + b == a;
    } else {
      var n := |b| - 1;
      JoinAppend(a, b[..n]);
      AppendMore(a, b[..n], b[n]);
      assert b == b[..n] + [b[n]];
    }
  }

  lemma JoinFirst<T>(pieces: seq<seq<T>>)
    requires pieces != []
    ensures Join(pieces) == pieces[0] + Join(pieces[1..])
  {
    assert pieces == [pieces[0]] + pieces[1..];
    JoinAppend([pieces[0]], pieces[1..]);
    JoinOne(pieces[0]);
  }

  lemma Associate<T>(a: seq<T>, b: seq<T>, c: seq<T>)
    ensures (a + b) + c == a + (b + c)
  {}
}
