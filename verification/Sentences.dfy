/** The sentences of a text as trimmed views into it, in three modes. */
module Sentences {
  import opened Basics
  import opened Utf
  import opened SentenceRules
  import opened Segmenter

  // ---- Views ----

  predicate SpaceAt(o: Locale, text: seq<Byte>, q: nat)
    requires q < |text|
  {
    LengthAt(text, q) > 0 && Space(KindAt(o, text, q))
  }

  /** A scalar that is no white space begins at `q`. */
  predicate Visible(o: Locale, text: seq<Byte>, q: nat) { q < |text| && Boundary(text, q) && !SpaceAt(o, text, q) }

  /** The same, as the quantifiers below look for it. */
  predicate InkAt(o: Locale, text: seq<Byte>, q: nat) { Visible(o, text, q) }

  /** A non-empty view between boundaries that neither begins nor ends with white space. */
  ghost predicate Trimmed(o: Locale, text: seq<Byte>, v: ByteRange) {
    && v.begin < v.end <= |text| && Boundary(text, v.end) && Visible(o, text, v.begin)
    && exists q: nat :: LastInk(o, text, v, q)
  }

  predicate UnfoldLastInk(k: nat, o: Locale, text: seq<Byte>, v: ByteRange, q: nat) { true }

  /** The view's last scalar begins at `q`. Unfolds only where `UnfoldLastInk` is mentioned. */
  ghost predicate LastInk(o: Locale, text: seq<Byte>, v: ByteRange, q: nat) {
    forall k: nat {:trigger UnfoldLastInk(k, o, text, v, q)} :: UnfoldLastInk(k, o, text, v, q) ==>
      v.begin <= q && Visible(o, text, q) && LengthAt(text, q) > 0 && q + LengthAt(text, q) == v.end
  }

  predicate Holds(vs: seq<ByteRange>, q: nat) { exists i :: 0 <= i < |vs| && vs[i].begin <= q < vs[i].end }

  /** Disjoint trimmed views in text order that hold everything but white space of the text before `to`. */
  ghost predicate Views(o: Locale, text: seq<Byte>, to: nat, vs: seq<ByteRange>) {
    && (forall i :: 0 <= i < |vs| ==> Trimmed(o, text, vs[i]) && vs[i].end <= to)
    && (forall i, j :: 0 <= i < j < |vs| ==> vs[i].end <= vs[j].begin)
    && (forall q: nat {:trigger InkAt(o, text, q)} :: q < to && InkAt(o, text, q) ==> Holds(vs, q))
  }

  ghost predicate Blank(o: Locale, text: seq<Byte>, from: nat, to: nat) {
    forall q: nat {:trigger InkAt(o, text, q)} :: from <= q < to ==> !InkAt(o, text, q)
  }

  lemma ViewsBlank(o: Locale, text: seq<Byte>, from: nat, to: nat, vs: seq<ByteRange>)
    requires Views(o, text, from, vs) && from <= to && Blank(o, text, from, to)
    ensures Views(o, text, to, vs)
  {}

  lemma HoldsMore(vs: seq<ByteRange>, v: ByteRange, q: nat)
    requires Holds(vs, q) || v.begin <= q < v.end
    ensures Holds(vs + [v], q)
  {
    var more := vs + [v];
    if Holds(vs, q) {
      var i :| 0 <= i < |vs| && vs[i].begin <= q < vs[i].end;
      assert more[i] == vs[i];
    } else {
      assert more[|vs|] == v;
    }
  }

  lemma ViewsMore(o: Locale, text: seq<Byte>, from: nat, to: nat, vs: seq<ByteRange>, v: ByteRange)
    requires Views(o, text, from, vs) && from <= v.begin && v.end <= to && Trimmed(o, text, v)
    requires Blank(o, text, from, v.begin) && Blank(o, text, v.end, to)
    ensures Views(o, text, to, vs + [v])
  {
    HoldsAll(o, text, from, to, vs, v);
    var more := vs + [v];
    forall i | 0 <= i < |more| ensures Trimmed(o, text, more[i]) && more[i].end <= to {
      if i < |vs| { assert Trimmed(o, text, vs[i]); }
    }
  }

  lemma HoldsAll(o: Locale, text: seq<Byte>, from: nat, to: nat, vs: seq<ByteRange>, v: ByteRange)
    requires Blank(o, text, from, v.begin) && Blank(o, text, v.end, to)
    requires forall q: nat {:trigger InkAt(o, text, q)} :: q < from && InkAt(o, text, q) ==> Holds(vs, q)
    ensures forall q: nat {:trigger InkAt(o, text, q)} :: q < to && InkAt(o, text, q) ==> Holds(vs + [v], q)
  {
    forall q: nat | q < to && InkAt(o, text, q) ensures Holds(vs + [v], q) {
      HoldsMore(vs, v, q);
    }
  }

  // ---- Where sentences part ----

  ghost predicate SplitBetween(splits: set<nat>, a: nat, b: nat) { exists c :: c in splits && a <= c <= b }

  /** No view goes on across a split, and neighbours have a split between them. */
  ghost predicate Parted(vs: seq<ByteRange>, splits: set<nat>) {
    && (forall i, c :: 0 <= i < |vs| && c in splits ==> c <= vs[i].begin || vs[i].end <= c)
    && (forall i, j :: 0 <= i < j < |vs| ==> SplitBetween(splits, vs[i].end, vs[j].begin))
  }

  ghost predicate UpTo(vs: seq<ByteRange>, splits: set<nat>, to: nat) {
    && (forall i :: 0 <= i < |vs| ==> vs[i].end <= to)
    && (forall c :: c in splits ==> c <= to)
  }

  predicate UnfoldOut(k: nat, o: Locale, text: seq<Byte>, to: nat, vs: seq<ByteRange>, splits: set<nat>) { true }

  /** What is put out when the text before `to` has been split at `splits`. Unfolds only where `UnfoldOut` is
      mentioned. */
  ghost predicate Out(o: Locale, text: seq<Byte>, to: nat, vs: seq<ByteRange>, splits: set<nat>) {
    forall k: nat {:trigger UnfoldOut(k, o, text, to, vs, splits)} :: UnfoldOut(k, o, text, to, vs, splits) ==>
      Views(o, text, to, vs) && Parted(vs, splits) && UpTo(vs, splits, to)
  }

  lemma FoldOut(o: Locale, text: seq<Byte>, to: nat, vs: seq<ByteRange>, splits: set<nat>)
    requires Views(o, text, to, vs) && Parted(vs, splits) && UpTo(vs, splits, to)
    ensures Out(o, text, to, vs, splits)
  {}

  lemma OutIs(o: Locale, text: seq<Byte>, to: nat, vs: seq<ByteRange>, splits: set<nat>)
    requires Out(o, text, to, vs, splits)
    ensures Views(o, text, to, vs) && Parted(vs, splits) && UpTo(vs, splits, to)
  {
    assert UnfoldOut(0, o, text, to, vs, splits);
  }

  lemma OutNothing(o: Locale, text: seq<Byte>)
    ensures Out(o, text, 0, [], {})
  {}

  lemma OutBlank(o: Locale, text: seq<Byte>, from: nat, to: nat, vs: seq<ByteRange>, splits: set<nat>)
    requires Out(o, text, from, vs, splits) && from <= to && Blank(o, text, from, to)
    ensures Out(o, text, to, vs, splits)
  {
    OutIs(o, text, from, vs, splits);
    ViewsBlank(o, text, from, to, vs);
  }

  lemma PartedEnds(vs: seq<ByteRange>, splits: set<nat>, more: set<nat>, from: nat)
    requires Parted(vs, splits) && UpTo(vs, splits, from) && forall c <- more :: c >= from
    ensures Parted(vs, splits + more)
  {
    forall i, j | 0 <= i < j < |vs| ensures SplitBetween(splits + more, vs[i].end, vs[j].begin) {
      var c :| c in splits && vs[i].end <= c <= vs[j].begin;
      assert c in splits + more;
    }
  }

  lemma PartedMore(vs: seq<ByteRange>, v: ByteRange, splits: set<nat>, from: nat, to: nat)
    requires Parted(vs, splits) && UpTo(vs, splits, from) && from <= v.begin <= v.end <= to
    ensures Parted(vs + [v], splits + {from, to}) && UpTo(vs + [v], splits + {from, to}, to)
  {
    PartedEnds(vs, splits, {from, to}, from);
    forall i | 0 <= i < |vs| ensures SplitBetween(splits + {from, to}, vs[i].end, v.begin) {
      assert from in splits + {from, to};
    }
  }

  /** The piece `chunk` of a text is split at its ends and, if it is to be split further, where the same piece of `same`
      has a boundary. */
  ghost predicate SplitsAt(o: Locale, same: seq<Byte>, further: bool, chunk: ByteRange, q: nat)
    requires o.Valid() && chunk.begin <= q <= chunk.end <= |same|
  {
    q == chunk.begin || q == chunk.end || (further && CutIn(o, same[chunk.begin..chunk.end], q - chunk.begin))
  }

  predicate UnfoldCutIn(k: nat, o: Locale, piece: seq<Byte>, at: nat) { true }

  /** The piece has a boundary at `at`. Unfolds only where `UnfoldCutIn` is mentioned. */
  ghost predicate CutIn(o: Locale, piece: seq<Byte>, at: nat)
    requires o.Valid()
  {
    forall k: nat {:trigger UnfoldCutIn(k, o, piece, at)} :: UnfoldCutIn(k, o, piece, at) ==>
      ValidUtf8(piece) && InnerBoundary(piece, at) && ValidFrom(piece, at) && TranslationCut(o, piece, at)
  }

  ghost function SplitsOf(o: Locale, same: seq<Byte>, further: bool, chunk: ByteRange): set<nat>
    requires o.Valid() && chunk.begin <= chunk.end <= |same|
  {
    set q | chunk.begin <= q <= chunk.end && SplitsAt(o, same, further, chunk, q)
  }

  ghost predicate InText(text: seq<Byte>, chunks: seq<ByteRange>) {
    forall k :: 0 <= k < |chunks| ==> chunks[k].begin <= chunks[k].end <= |text|
  }

  ghost function AllSplits(o: Locale, same: seq<Byte>, further: bool, chunks: seq<ByteRange>): set<nat>
    requires o.Valid() && InText(same, chunks)
  {
    if chunks == [] then {}
    else AllSplits(o, same, further, chunks[..|chunks| - 1]) + SplitsOf(o, same, further, chunks[|chunks| - 1])
  }

  predicate UnfoldGathers(k: nat, o: Locale, same: seq<Byte>, further: bool, chunks: seq<ByteRange>,
                          splits: set<nat>) { true }

  /** The splits of the chunks so far. Unfolds only where `UnfoldGathers` is mentioned. */
  ghost predicate Gathers(o: Locale, same: seq<Byte>, further: bool, chunks: seq<ByteRange>, splits: set<nat>)
    requires o.Valid()
  {
    forall k: nat {:trigger UnfoldGathers(k, o, same, further, chunks, splits)} ::
      UnfoldGathers(k, o, same, further, chunks, splits) ==>
      InText(same, chunks) && splits == AllSplits(o, same, further, chunks)
  }

  lemma GathersMore(o: Locale, same: seq<Byte>, further: bool, chunks: seq<ByteRange>, splits: set<nat>,
                    chunk: ByteRange)
    requires o.Valid() && Gathers(o, same, further, chunks, splits) && chunk.begin <= chunk.end <= |same|
    ensures Gathers(o, same, further, chunks + [chunk], splits + SplitsOf(o, same, further, chunk))
  {
    assert UnfoldGathers(0, o, same, further, chunks, splits);
    AllSplitsMore(o, same, further, chunks, chunk);
  }

  lemma GathersAll(o: Locale, text: seq<Byte>, same: seq<Byte>, further: bool, chunks: seq<ByteRange>,
                   splits: set<nat>, vs: seq<ByteRange>)
    requires o.Valid() && Gathers(o, same, further, chunks, splits) && Out(o, text, |text|, vs, splits)
    ensures InText(same, chunks) && Views(o, text, |text|, vs) && Parted(vs, AllSplits(o, same, further, chunks))
  {
    assert UnfoldGathers(0, o, same, further, chunks, splits);
    OutIs(o, text, |text|, vs, splits);
  }

  lemma AllSplitsMore(o: Locale, same: seq<Byte>, further: bool, chunks: seq<ByteRange>, chunk: ByteRange)
    requires o.Valid() && InText(same, chunks) && chunk.begin <= chunk.end <= |same|
    ensures InText(same, chunks + [chunk])
    ensures AllSplits(o, same, further, chunks + [chunk])
            == AllSplits(o, same, further, chunks) + SplitsOf(o, same, further, chunk)
  {
    assert (chunks + [chunk])[..|chunks|] == chunks;
  }

  ghost function Points(from: nat, cuts: seq<nat>): set<nat> {
    if cuts == [] then {} else Points(from, cuts[..|cuts| - 1]) + {from + cuts[|cuts| - 1]}
  }

  lemma {:induction false} PointsAre(from: nat, cuts: seq<nat>, q: nat)
    ensures q in Points(from, cuts) <==> q >= from && q - from in cuts
  {
    if cuts != [] {
      var n := |cuts| - 1;
      PointsAre(from, cuts[..n], q);
      assert cuts == cuts[..n] + [cuts[n]];
    }
  }

  lemma CutsInside(piece: seq<Byte>, cuts: seq<nat>, q: nat)
    requires Ordered(piece, |piece| + 1, cuts) && cuts[|cuts| - 1] == |piece| && q in cuts
    ensures q <= |piece| && Boundary(piece, q)
  {
    var i :| 0 <= i < |cuts| && cuts[i] == q;
    assert i < |cuts| - 1 ==> cuts[i] < cuts[|cuts| - 1];
  }

  lemma CutsAre(o: Locale, piece: seq<Byte>, cuts: seq<nat>, q: nat)
    requires o.Valid() && ValidUtf8(piece) && CutsTo(o, piece, Translation, |piece| + 1, cuts)
    requires cuts[|cuts| - 1] == |piece|
    ensures q in cuts <==> q == 0 || q == |piece| || CutIn(o, piece, q)
  {
    assert UnfoldCutIn(0, o, piece, q);
    assert cuts[0] == 0;
    if q in cuts { CutsInside(piece, cuts, q); }
    if InnerBoundary(piece, q) {
      assert DecidedAt(o, piece, Translation, q, q in cuts);
      assert UnfoldDecided(0, o, piece, Translation, q, q in cuts);
    }
  }

  lemma PointsAreSplits(o: Locale, same: seq<Byte>, chunk: ByteRange, cuts: seq<nat>)
    requires o.Valid() && chunk.begin <= chunk.end <= |same|
    requires var piece := same[chunk.begin..chunk.end];
             ValidUtf8(piece) && CutsTo(o, piece, Translation, |piece| + 1, cuts) && cuts[|cuts| - 1] == |piece|
    ensures Points(chunk.begin, cuts) == SplitsOf(o, same, true, chunk)
  {
    forall q: nat ensures q in Points(chunk.begin, cuts) <==>
      chunk.begin <= q <= chunk.end && SplitsAt(o, same, true, chunk, q) {
      if chunk.begin <= q { CutInPiece(o, same[chunk.begin..chunk.end], cuts, q - chunk.begin); }
      PointIsSplit(o, same, chunk, cuts, q);
    }
    SameSet(Points(chunk.begin, cuts), o, same, chunk);
  }

  lemma SameSet(points: set<nat>, o: Locale, same: seq<Byte>, chunk: ByteRange)
    requires o.Valid() && chunk.begin <= chunk.end <= |same|
    requires forall q: nat :: q in points <==> chunk.begin <= q <= chunk.end && SplitsAt(o, same, true, chunk, q)
    ensures points == SplitsOf(o, same, true, chunk)
  {}

  lemma PointIsSplit(o: Locale, same: seq<Byte>, chunk: ByteRange, cuts: seq<nat>, q: nat)
    requires o.Valid() && chunk.begin <= chunk.end <= |same|
    requires var piece, at := same[chunk.begin..chunk.end], q - chunk.begin;
             at >= 0 ==> (at in cuts <==> at <= |piece| && (at == 0 || at == |piece| || CutIn(o, piece, at)))
    ensures q in Points(chunk.begin, cuts) <==> chunk.begin <= q <= chunk.end && SplitsAt(o, same, true, chunk, q)
  {
    PointsAre(chunk.begin, cuts, q);
  }

  lemma CutInPiece(o: Locale, piece: seq<Byte>, cuts: seq<nat>, at: nat)
    requires o.Valid() && ValidUtf8(piece) && CutsTo(o, piece, Translation, |piece| + 1, cuts)
    requires cuts[|cuts| - 1] == |piece|
    ensures at in cuts <==> at <= |piece| && (at == 0 || at == |piece| || CutIn(o, piece, at))
  {
    CutsAre(o, piece, cuts, at);
  }

  // ---- Pieces of a text ----

  lemma SliceTails(text: seq<Byte>, from: nat, to: nat)
    requires from <= to <= |text|
    ensures forall q :: 0 <= q < to - from ==> text[from..to][q] == text[from + q]
  {}

  lemma SliceReads(text: seq<Byte>, from: nat, to: nat, q: nat)
    requires from <= to <= |text| && q < to - from && LengthAt(text, from + q) > 0 && Boundary(text, to)
    ensures LengthAt(text[from..to], q) == LengthAt(text, from + q) && q + LengthAt(text, from + q) <= to - from
    ensures ScalarAt(text[from..to], q) == ScalarAt(text, from + q)
  {
    SliceTails(text, from, to);
    var n := LengthAt(text, from + q);
    if to < from + q + n { InnerTails(text, from + q, to); }
  }

  /** A piece of valid text between boundaries is valid text. */
  lemma {:induction false} SliceValid(text: seq<Byte>, from: nat, to: nat, q: nat)
    requires from + q <= to <= |text| && ValidFrom(text, from + q) && Boundary(text, to)
    ensures ValidFrom(text[from..to], q)
    decreases |text| - from - q
  {
    if from + q < to {
      SliceReads(text, from, to, q);
      SliceValid(text, from, to, q + LengthAt(text, from + q));
    }
  }

  lemma SliceBoundary(text: seq<Byte>, from: nat, to: nat, q: nat)
    requires from + q <= to <= |text| && Boundary(text, to)
    ensures Boundary(text[from..to], q) <==> Boundary(text, from + q)
  {
    SliceTails(text, from, to);
  }

  lemma SliceInk(o: Locale, text: seq<Byte>, from: nat, to: nat, q: nat)
    requires ValidUtf8(text) && from + q < to <= |text| && Boundary(text, to)
    ensures InkAt(o, text[from..to], q) <==> InkAt(o, text, from + q)
  {
    SliceBoundary(text, from, to, q);
    if Boundary(text, from + q) {
      ValidAtBoundary(text, 0, from + q);
      SliceReads(text, from, to, q);
    }
  }

  // ---- Trimming ----

  /** The text without the white space around it, as a view; empty if there is nothing else. */
  method Trim(o: Locale, text: seq<Byte>) returns (v: ByteRange)
    requires ValidUtf8(text)
    ensures v.begin <= v.end <= |text| && Blank(o, text, 0, v.begin) && Blank(o, text, v.end, |text|)
    ensures v.begin < v.end ==> Trimmed(o, text, v)
  {
    var begin, end := 0, |text|;
    while begin < end
      invariant begin <= end && ValidFrom(text, begin) && Blank(o, text, 0, begin)
    {
      var p := Read(o, text, begin);
      if !Space(p.value.kind) {
        break;
      }
      BlankMore(o, text, begin);
      begin := p.value.end;
    }
    if begin < end { InkHere(o, text, begin); }
    v := ByteRange(begin, end);
    while end > begin
      invariant begin <= end <= |text| && Boundary(text, end) && Blank(o, text, end, |text|)
      invariant v == ByteRange(begin, end)
      invariant begin < end ==> InkAt(o, text, begin)
    {
      var at := Previous(text, end);
      ValidAtBoundary(text, 0, at);
      if at < begin { InnerTails(text, at, begin); }
      var p := Read(o, text, at);
      if !Space(p.value.kind) {
        InkHere(o, text, at);
        assert LastInk(o, text, v, at);
        break;
      }
      BlankMore(o, text, at);
      end := at;
      v := ByteRange(begin, end);
    }
  }

  lemma InkHere(o: Locale, text: seq<Byte>, at: nat)
    requires at < |text| && ValidFrom(text, at) && !Space(KindAt(o, text, at))
    ensures InkAt(o, text, at)
  {
    ValidAtBoundary(text, at, at);
  }

  lemma BlankMore(o: Locale, text: seq<Byte>, at: nat)
    requires at < |text| && ValidFrom(text, at) && Space(KindAt(o, text, at))
    ensures Blank(o, text, at, at + LengthAt(text, at))
  {
    forall q: nat | at <= q < at + LengthAt(text, at) ensures !InkAt(o, text, q) {
      if q > at { InnerTails(text, at, q); }
    }
  }

  /** Trims the piece `[from, to)` and keeps it unless it is blank. */
  method AppendTrimmed(o: Locale, text: seq<Byte>, from: nat, to: nat, vs: seq<ByteRange>, ghost splits: set<nat>)
    returns (vs': seq<ByteRange>)
    requires ValidUtf8(text) && from <= to <= |text| && Boundary(text, from) && Boundary(text, to)
    requires Out(o, text, from, vs, splits)
    ensures Out(o, text, to, vs', splits + {from, to})
  {
    ValidAtBoundary(text, 0, from);
    SliceValid(text, from, to, 0);
    var s := Trim(o, text[from..to]);
    SliceBlank(o, text, from, to, 0, s.begin);
    SliceBlank(o, text, from, to, s.end, to - from);
    if s.begin < s.end {
      SliceTrimmed(o, text, from, to, s);
      OutMore(o, text, from, to, vs, ByteRange(from + s.begin, from + s.end), splits);
      vs' := vs + [ByteRange(from + s.begin, from + s.end)];
    } else {
      OutSame(o, text, from, to, vs, splits);
      vs' := vs;
    }
  }

  lemma OutMore(o: Locale, text: seq<Byte>, from: nat, to: nat, vs: seq<ByteRange>, v: ByteRange, splits: set<nat>)
    requires Out(o, text, from, vs, splits) && from <= v.begin && v.end <= to && Trimmed(o, text, v)
    requires Blank(o, text, from, v.begin) && Blank(o, text, v.end, to)
    ensures Out(o, text, to, vs + [v], splits + {from, to})
  {
    OutIs(o, text, from, vs, splits);
    assert Views(o, text, to, vs + [v]) by { ViewsMore(o, text, from, to, vs, v); }
    assert Parted(vs + [v], splits + {from, to}) && UpTo(vs + [v], splits + {from, to}, to) by {
      PartedMore(vs, v, splits, from, to);
    }
    FoldOut(o, text, to, vs + [v], splits + {from, to});
  }

  lemma OutSame(o: Locale, text: seq<Byte>, from: nat, to: nat, vs: seq<ByteRange>, splits: set<nat>)
    requires Out(o, text, from, vs, splits) && from <= to && Blank(o, text, from, to)
    ensures Out(o, text, to, vs, splits + {from, to})
  {
    OutIs(o, text, from, vs, splits);
    ViewsBlank(o, text, from, to, vs);
    PartedEnds(vs, splits, {from, to}, from);
  }

  lemma SliceBlank(o: Locale, text: seq<Byte>, from: nat, to: nat, a: nat, b: nat)
    requires ValidUtf8(text) && a <= b && from + b <= to <= |text| && Boundary(text, to)
    requires Blank(o, text[from..to], a, b)
    ensures Blank(o, text, from + a, from + b)
  {
    forall q: nat | from + a <= q < from + b ensures !InkAt(o, text, q) {
      SliceInk(o, text, from, to, q - from);
    }
  }

  lemma SliceLastInk(o: Locale, text: seq<Byte>, from: nat, to: nat, s: ByteRange, q: nat)
    requires ValidUtf8(text) && from <= to <= |text| && Boundary(text, to) && LastInk(o, text[from..to], s, q)
    ensures LastInk(o, text, ByteRange(from + s.begin, from + s.end), from + q)
  {
    assert UnfoldLastInk(0, o, text[from..to], s, q);
    SliceInk(o, text, from, to, q);
    ValidAtBoundary(text, 0, from + q);
    SliceReads(text, from, to, q);
  }

  lemma {:induction false} SliceTrimmed(o: Locale, text: seq<Byte>, from: nat, to: nat, s: ByteRange)
    requires ValidUtf8(text) && from <= to <= |text| && Boundary(text, to) && Trimmed(o, text[from..to], s)
    ensures Trimmed(o, text, ByteRange(from + s.begin, from + s.end))
  {
    var q: nat :| LastInk(o, text[from..to], s, q);
    SliceEnds(o, text, from, to, s);
    SliceLastInk(o, text, from, to, s, q);
    TrimmedTo(o, text, ByteRange(from + s.begin, from + s.end), from + q);
  }

  lemma SliceEnds(o: Locale, text: seq<Byte>, from: nat, to: nat, s: ByteRange)
    requires ValidUtf8(text) && from <= to <= |text| && Boundary(text, to) && s.begin < s.end <= to - from
    requires Boundary(text[from..to], s.end) && Visible(o, text[from..to], s.begin)
    ensures Boundary(text, from + s.end) && Visible(o, text, from + s.begin)
  {
    SliceBoundary(text, from, to, s.end);
    SliceInk(o, text, from, to, s.begin);
  }

  lemma TrimmedTo(o: Locale, text: seq<Byte>, v: ByteRange, q: nat)
    requires v.begin < v.end <= |text| && Boundary(text, v.end) && Visible(o, text, v.begin) && LastInk(o, text, v, q)
    ensures Trimmed(o, text, v)
  {}

  /** Trims what lies between one cut and the next. */
  method AppendPieces(o: Locale, text: seq<Byte>, from: nat, to: nat, cuts: seq<nat>, vs: seq<ByteRange>,
                      ghost splits: set<nat>)
    returns (vs': seq<ByteRange>)
    requires ValidUtf8(text) && from <= to <= |text| && Out(o, text, from, vs, splits)
    requires cuts != [] && cuts[0] == 0 && Increasing(cuts) && cuts[|cuts| - 1] == to - from
    requires forall i :: 0 <= i < |cuts| ==> Boundary(text, from + cuts[i])
    ensures Out(o, text, to, vs', splits + Points(from, cuts))
  {
    vs' := vs;
    FirstPoint(o, text, from, cuts, vs, splits);
    for i := 1 to |cuts|
      invariant Out(o, text, from + cuts[i - 1], vs', splits + Points(from, cuts[..i]))
    {
      vs' := AppendTrimmed(o, text, from + cuts[i - 1], from + cuts[i], vs', splits + Points(from, cuts[..i]));
      PointsMore(splits, from, cuts, i);
    }
    assert cuts[..|cuts|] == cuts;
  }

  lemma FirstPoint(o: Locale, text: seq<Byte>, from: nat, cuts: seq<nat>, vs: seq<ByteRange>, splits: set<nat>)
    requires Out(o, text, from, vs, splits) && cuts != [] && cuts[0] == 0
    ensures Out(o, text, from, vs, splits + Points(from, cuts[..1]))
  {
    OutIs(o, text, from, vs, splits);
    PartedEnds(vs, splits, {from}, from);
    assert cuts[..1][..0] == [] && Points(from, cuts[..1]) == {from};
    FoldOut(o, text, from, vs, splits + {from});
  }

  lemma PointsMore(splits: set<nat>, from: nat, cuts: seq<nat>, i: nat)
    requires 1 <= i < |cuts|
    ensures (splits + Points(from, cuts[..i])) + {from + cuts[i - 1], from + cuts[i]}
            == splits + Points(from, cuts[..i + 1])
  {
    assert cuts[..i + 1][..i] == cuts[..i] && cuts[..i][..i - 1] == cuts[..i - 1];
  }

  lemma CutsInText(text: seq<Byte>, same: seq<Byte>, from: nat, to: nat, cuts: seq<nat>, size: nat)
    requires |same| == |text| && from <= to <= |text| && Boundary(text, to) && size == to - from + 1
    requires forall q: nat :: q <= |text| ==> (Boundary(same, q) <==> Boundary(text, q))
    requires Ordered(same[from..to], size, cuts)
    ensures forall i :: 0 <= i < |cuts| ==> Boundary(text, from + cuts[i])
  {
    forall i | 0 <= i < |cuts| ensures Boundary(text, from + cuts[i]) {
      assert Boundary(same[from..to], cuts[i]);
      SliceBoundary(same, from, to, cuts[i]);
    }
  }

  lemma SplitReady(o: Locale, text: seq<Byte>, same: seq<Byte>, from: nat, to: nat, cuts: seq<nat>)
    requires o.Valid() && from <= to <= |text| && |same| == |text| && Boundary(text, to) && ValidUtf8(same[from..to])
    requires forall q: nat :: q <= |text| ==> (Boundary(same, q) <==> Boundary(text, q))
    requires CutsTo(o, same[from..to], Translation, to - from + 1, cuts) && cuts[|cuts| - 1] == to - from
    ensures cuts != [] && cuts[0] == 0 && Increasing(cuts) && cuts[|cuts| - 1] == to - from
    ensures forall i :: 0 <= i < |cuts| ==> Boundary(text, from + cuts[i])
    ensures Points(from, cuts) == SplitsOf(o, same, true, ByteRange(from, to))
  {
    CutsInText(text, same, from, to, cuts, |same[from..to]| + 1);
    PointsAreSplits(o, same, ByteRange(from, to), cuts);
  }

  /** Splits the piece `[from, to)` of a text where the same piece of `same` has boundaries. */
  method AppendSplit(o: Locale, text: seq<Byte>, same: seq<Byte>, from: nat, to: nat, vs: seq<ByteRange>,
                     ghost splits: set<nat>)
    returns (vs': seq<ByteRange>)
    requires o.Valid() && ValidUtf8(text) && from <= to <= |text| && Boundary(text, from) && Boundary(text, to)
    requires ValidUtf8(same) && |same| == |text|
    requires forall q: nat :: q <= |text| ==> (Boundary(same, q) <==> Boundary(text, q))
    requires Out(o, text, from, vs, splits)
    ensures Out(o, text, to, vs', splits + SplitsOf(o, same, true, ByteRange(from, to)))
  {
    var cuts := CutPiece(o, text, same, from, to);
    vs' := AppendPieces(o, text, from, to, cuts, vs, splits);
  }

  method CutPiece(o: Locale, text: seq<Byte>, same: seq<Byte>, from: nat, to: nat) returns (cuts: seq<nat>)
    requires o.Valid() && from <= to <= |text| && Boundary(text, from) && Boundary(text, to)
    requires ValidUtf8(same) && |same| == |text|
    requires forall q: nat :: q <= |text| ==> (Boundary(same, q) <==> Boundary(text, q))
    ensures cuts != [] && cuts[0] == 0 && Increasing(cuts) && cuts[|cuts| - 1] == to - from
    ensures forall i :: 0 <= i < |cuts| ==> Boundary(text, from + cuts[i])
    ensures Points(from, cuts) == SplitsOf(o, same, true, ByteRange(from, to))
  {
    ValidAtBoundary(same, 0, from);
    SliceValid(same, from, to, 0);
    var found := Boundaries(o, same[from..to], Translation);
    cuts := found.value;
    SplitReady(o, text, same, from, to, cuts);
  }

  /** A line: split further, or kept whole. */
  method AppendChunk(o: Locale, text: seq<Byte>, mode: Mode, from: nat, to: nat, vs: seq<ByteRange>,
                     ghost chunks: seq<ByteRange>, ghost splits: set<nat>)
    returns (vs': seq<ByteRange>, ghost splits': set<nat>)
    requires o.Valid() && ValidUtf8(text) && from <= to <= |text| && Boundary(text, from) && Boundary(text, to)
    requires Gathers(o, text, mode != Sentence, chunks, splits) && Out(o, text, from, vs, splits)
    ensures Gathers(o, text, mode != Sentence, chunks + [ByteRange(from, to)], splits')
    ensures Out(o, text, to, vs', splits')
  {
    GathersMore(o, text, mode != Sentence, chunks, splits, ByteRange(from, to));
    splits' := splits + SplitsOf(o, text, mode != Sentence, ByteRange(from, to));
    if mode == Sentence {
      assert SplitsOf(o, text, false, ByteRange(from, to)) == {from, to};
      vs' := AppendTrimmed(o, text, from, to, vs, splits);
    } else {
      vs' := AppendSplit(o, text, text, from, to, vs, splits);
    }
  }

  lemma AsciiBlank(o: Locale, text: seq<Byte>, at: nat)
    requires o.Valid() && at < |text| && (text[at] == 0x0A || text[at] == 0x0D || text[at] == 0x20 || text[at] == 0x09)
    ensures LengthAt(text, at) == 1 && Boundary(text, at) && Blank(o, text, at, at + 1)
  {}

  predicate SeparatorAt(o: Locale, text: seq<Byte>, q: nat) {
    q < |text| && LengthAt(text, q) > 0 && Separator(KindAt(o, text, q))
  }

  /** Where the paragraph separator at `q` ends; CR and LF are one. */
  function SeparatorEnd(o: Locale, text: seq<Byte>, q: nat): nat
    requires SeparatorAt(o, text, q)
  {
    var end := q + LengthAt(text, q);
    if KindAt(o, text, q) == CR && end < |text| && text[end] == 0x0A then end + 1 else end
  }

  ghost predicate NoSeparator(o: Locale, text: seq<Byte>, from: nat, to: nat) {
    forall q: nat {:trigger SeparatorAt(o, text, q)} :: from <= q < to && Boundary(text, q) ==> !SeparatorAt(o, text, q)
  }

  /** Lines from the start of the text on, each with its separator behind it. */
  ghost predicate Lines(o: Locale, text: seq<Byte>, chunks: seq<ByteRange>, next: nat) {
    && InText(text, chunks) && NextBegin(chunks, next, 0) == 0
    && forall k {:trigger NextBegin(chunks, next, k + 1)} :: 0 <= k < |chunks| ==>
       Line(o, text, chunks[k], NextBegin(chunks, next, k + 1))
  }

  ghost predicate Line(o: Locale, text: seq<Byte>, chunk: ByteRange, next: nat) {
    && NoSeparator(o, text, chunk.begin, chunk.end)
    && if chunk.end == |text| then next == |text| + 1
       else SeparatorAt(o, text, chunk.end) && next == SeparatorEnd(o, text, chunk.end)
  }

  ghost function NextBegin(chunks: seq<ByteRange>, next: nat, k: nat): nat {
    if k < |chunks| then chunks[k].begin else next
  }

  lemma LinesMore(o: Locale, text: seq<Byte>, chunks: seq<ByteRange>, chunk: ByteRange, next: nat)
    requires Lines(o, text, chunks, chunk.begin) && chunk.begin <= chunk.end <= |text| && Line(o, text, chunk, next)
    ensures Lines(o, text, chunks + [chunk], next)
  {
    var more := chunks + [chunk];
    forall k | 0 <= k < |more| ensures Line(o, text, more[k], NextBegin(more, next, k + 1)) {
      if k < |chunks| { assert Line(o, text, chunks[k], NextBegin(chunks, chunk.begin, k + 1)); }
    }
  }

  lemma NoSeparatorMore(o: Locale, text: seq<Byte>, from: nat, at: nat)
    requires NoSeparator(o, text, from, at) && at < |text| && LengthAt(text, at) > 0 && !SeparatorAt(o, text, at)
    ensures NoSeparator(o, text, from, at + LengthAt(text, at))
  {
    forall q: nat | at < q < at + LengthAt(text, at) ensures !Boundary(text, q) { InnerTails(text, at, q); }
  }

  predicate UnfoldInLine(k: nat, o: Locale, text: seq<Byte>, chunks: seq<ByteRange>, begin: nat, at: nat) { true }

  /** The lines before `begin`, and no separator from there to `at`. Unfolds only where `UnfoldInLine` is mentioned. */
  ghost predicate InLine(o: Locale, text: seq<Byte>, chunks: seq<ByteRange>, begin: nat, at: nat) {
    forall k: nat {:trigger UnfoldInLine(k, o, text, chunks, begin, at)} ::
      UnfoldInLine(k, o, text, chunks, begin, at) ==>
      begin <= at && Lines(o, text, chunks, begin) && NoSeparator(o, text, begin, at)
  }

  lemma LineGoesOn(o: Locale, text: seq<Byte>, chunks: seq<ByteRange>, begin: nat, at: nat)
    requires InLine(o, text, chunks, begin, at) && at < |text| && LengthAt(text, at) > 0 && !SeparatorAt(o, text, at)
    ensures InLine(o, text, chunks, begin, at + LengthAt(text, at))
  {
    assert UnfoldInLine(0, o, text, chunks, begin, at);
    NoSeparatorMore(o, text, begin, at);
  }

  lemma LineEnds(o: Locale, text: seq<Byte>, chunks: seq<ByteRange>, begin: nat, at: nat)
    requires InLine(o, text, chunks, begin, at) && SeparatorAt(o, text, at)
    ensures var end := SeparatorEnd(o, text, at); InLine(o, text, chunks + [ByteRange(begin, at)], end, end)
  {
    assert UnfoldInLine(0, o, text, chunks, begin, at);
    LinesMore(o, text, chunks, ByteRange(begin, at), SeparatorEnd(o, text, at));
  }

  lemma TextEnds(o: Locale, text: seq<Byte>, chunks: seq<ByteRange>, begin: nat)
    requires InLine(o, text, chunks, begin, |text|)
    ensures Lines(o, text, chunks + [ByteRange(begin, |text|)], |text| + 1)
  {
    assert UnfoldInLine(0, o, text, chunks, begin, |text|);
    LinesMore(o, text, chunks, ByteRange(begin, |text|), |text| + 1);
  }

  /** One chunk per line, split at every paragraph separator. */
  method ByLines(o: Locale, text: seq<Byte>, mode: Mode) returns (vs: seq<ByteRange>, ghost chunks: seq<ByteRange>)
    requires o.Valid() && ValidUtf8(text)
    ensures Views(o, text, |text|, vs)
    ensures Lines(o, text, chunks, |text| + 1) && Parted(vs, AllSplits(o, text, mode != Sentence, chunks))
  {
    vs, chunks := [], [];
    var begin: nat, at: nat := 0, 0;
    ghost var splits: set<nat> := {};
    ValidAtBoundary(text, 0, 0);
    OutNothing(o, text);
    while at < |text|
      invariant begin <= at <= |text| && ValidFrom(text, at) && Boundary(text, begin)
      invariant InLine(o, text, chunks, begin, at)
      invariant Gathers(o, text, mode != Sentence, chunks, splits) && Out(o, text, begin, vs, splits)
      decreases |text| - at
    {
      var p := Read(o, text, at);
      var end := p.value.end;
      ValidAtBoundary(text, 0, at);
      if Separator(p.value.kind) {
        vs, splits := AppendChunk(o, text, mode, begin, at, vs, chunks, splits);
        if p.value.kind == CR && end < |text| && text[end] == 0x0A {
          end := end + 1;
        }
        SeparatorPassed(o, text, at, vs, splits);
        LineEnds(o, text, chunks, begin, at);
        chunks := chunks + [ByteRange(begin, at)];
        begin := end;
      } else {
        LineGoesOn(o, text, chunks, begin, at);
      }
      at := end;
    }
    vs, splits := AppendChunk(o, text, mode, begin, |text|, vs, chunks, splits);
    TextEnds(o, text, chunks, begin);
    chunks := chunks + [ByteRange(begin, |text|)];
    GathersAll(o, text, text, mode != Sentence, chunks, splits, vs);
  }

  lemma SeparatorPassed(o: Locale, text: seq<Byte>, at: nat, vs: seq<ByteRange>, splits: set<nat>)
    requires o.Valid() && ValidUtf8(text) && ValidFrom(text, at) && SeparatorAt(o, text, at)
    requires Out(o, text, at, vs, splits)
    ensures var end := SeparatorEnd(o, text, at);
            at < end <= |text| && ValidFrom(text, end) && Boundary(text, end) && Out(o, text, end, vs, splits)
  {
    var end := at + LengthAt(text, at);
    BlankMore(o, text, at);
    OutBlank(o, text, at, end, vs, splits);
    ValidAtBoundary(text, 0, end);
    if KindAt(o, text, at) == CR && end < |text| && text[end] == 0x0A {
      AsciiBlank(o, text, end);
      OutBlank(o, text, end, end + 1, vs, splits);
      ValidAtBoundary(text, 0, end + 1);
    }
  }

  lemma {:induction false} LinesInOrder(o: Locale, text: seq<Byte>, chunks: seq<ByteRange>, next: nat, i: nat, j: nat)
    requires Lines(o, text, chunks, next) && i < j < |chunks|
    ensures SeparatorAt(o, text, chunks[i].end) && chunks[i].end < chunks[j].begin
    decreases j
  {
    var k := j - 1;
    assert Line(o, text, chunks[k], NextBegin(chunks, next, k + 1));
    if i < j - 1 { LinesInOrder(o, text, chunks, next, i, j - 1); }
  }

  /** A CR, an LF or another paragraph separator stands at `p`. */
  ghost predicate ParagraphEndAt(o: Locale, text: seq<Byte>, p: nat) {
    && p < |text| && LengthAt(text, p) > 0 && Boundary(text, p)
    && o.property(ScalarAt(text, p)) in {Kind.CR, Kind.LF, Kind.Sep}
  }

  /** Two places are on one line exactly if no paragraph separator stands between them. */
  lemma {:induction false} SameLineIff(o: Locale, text: seq<Byte>, chunks: seq<ByteRange>, i: nat, j: nat, q: nat,
                                       r: nat)
    requires ValidUtf8(text) && Lines(o, text, chunks, |text| + 1) && i < |chunks| && j < |chunks| && q < r
    requires chunks[i].begin <= q < chunks[i].end && chunks[j].begin <= r < chunks[j].end
    ensures i == j <==> forall p: nat :: q <= p < r ==> !ParagraphEndAt(o, text, p)
  {
    assert Line(o, text, chunks[i], NextBegin(chunks, |text| + 1, i + 1));
    assert forall p: nat {:trigger ParagraphEndAt(o, text, p)} ::
      ParagraphEndAt(o, text, p) <==> SeparatorAt(o, text, p) && Boundary(text, p);
    if i < j {
      LinesInOrder(o, text, chunks, |text| + 1, i, j);
      assert ParagraphEndAt(o, text, chunks[i].end);
    } else if j < i {
      LinesInOrder(o, text, chunks, |text| + 1, j, i);
    }
  }

  // ---- Wrapped text ----

  /** The text with its line ends turned into spaces, byte for byte. */
  function Unwrapped(text: seq<Byte>): (s: seq<Byte>)
    ensures |s| == |text|
    ensures forall q :: 0 <= q < |text| ==> s[q] == if text[q] == 0x0A || text[q] == 0x0D then 0x20 else text[q]
  {
    if text == [] then []
    else
      var n := |text| - 1;
      Unwrapped(text[..n]) + [if text[n] == 0x0A || text[n] == 0x0D then 0x20 else text[n]]
  }

  lemma {:induction false} UnwrappedValid(text: seq<Byte>, at: nat)
    requires ValidFrom(text, at)
    ensures ValidFrom(Unwrapped(text), at)
    decreases |text| - at
  {
    if at < |text| {
      assert LengthAt(Unwrapped(text), at) == LengthAt(text, at);
      UnwrappedValid(text, at + LengthAt(text, at));
    }
  }

  lemma UnwrappedBoundary(text: seq<Byte>)
    ensures forall q: nat :: q <= |text| ==> (Boundary(Unwrapped(text), q) <==> Boundary(text, q))
  {}

  method Unwrap(text: seq<Byte>) returns (normalized: seq<Byte>)
    ensures normalized == Unwrapped(text)
  {
    normalized := text;
    for i := 0 to |text|
      invariant |normalized| == |text|
      invariant forall q :: 0 <= q < |text| ==> normalized[q] == if q < i then Unwrapped(text)[q] else text[q]
    {
      if normalized[i] == 0x0D || normalized[i] == 0x0A {
        normalized := normalized[i := 0x20];
      }
    }
  }

  /** Position of the first line feed from `at` on, or the size of the text. */
  function FindLine(text: seq<Byte>, at: nat): (p: nat)
    requires at <= |text|
    ensures at <= p <= |text| && (p < |text| ==> text[p] == 0x0A) && forall q :: at <= q < p ==> text[q] != 0x0A
    decreases |text| - at
  {
    if at == |text| || text[at] == 0x0A then at else FindLine(text, at + 1)
  }

  predicate Soft(b: Byte) { b == 0x20 || b == 0x09 || b == 0x0D }

  /** The end of the blank characters behind a line feed. */
  method SkipSoft(o: Locale, text: seq<Byte>, newline: nat) returns (next: nat)
    requires o.Valid() && newline < |text| && text[newline] == 0x0A
    ensures newline < next <= |text| && Blank(o, text, newline, next)
    ensures forall q :: newline < q < next ==> Soft(text[q])
    ensures next < |text| ==> !Soft(text[next])
  {
    next := newline + 1;
    AsciiBlank(o, text, newline);
    while next < |text| && Soft(text[next])
      invariant newline < next <= |text| && Blank(o, text, newline, next)
      invariant forall q :: newline < q < next ==> Soft(text[q])
    {
      AsciiBlank(o, text, next);
      next := next + 1;
    }
  }

  /** A line end and another one with nothing but blank characters between them. */
  predicate BlankLine(text: seq<Byte>, n: nat, m: nat) {
    n < m < |text| && text[n] == 0x0A && text[m] == 0x0A && forall q :: n < q < m ==> Soft(text[q])
  }

  ghost predicate NoBlankLine(text: seq<Byte>, from: nat, to: nat) {
    forall n: nat, m: nat :: from <= n < to ==> !BlankLine(text, n, m)
  }

  /** Paragraphs from the start of the text on, each with a blank line behind it. */
  ghost predicate Paragraphs(text: seq<Byte>, chunks: seq<ByteRange>, next: nat) {
    && InText(text, chunks) && NextBegin(chunks, next, 0) == 0
    && forall k :: 0 <= k < |chunks| ==> Paragraph(text, chunks[k], NextBegin(chunks, next, k + 1))
  }

  ghost predicate Paragraph(text: seq<Byte>, chunk: ByteRange, next: nat) {
    && NoBlankLine(text, chunk.begin, chunk.end)
    && if chunk.end == |text| then next == |text| + 1 else next > 0 && BlankLine(text, chunk.end, next - 1)
  }

  lemma ParagraphsMore(text: seq<Byte>, chunks: seq<ByteRange>, chunk: ByteRange, next: nat)
    requires Paragraphs(text, chunks, chunk.begin) && chunk.begin <= chunk.end <= |text| && Paragraph(text, chunk, next)
    ensures Paragraphs(text, chunks + [chunk], next)
  {
    var more := chunks + [chunk];
    forall k | 0 <= k < |more| ensures Paragraph(text, more[k], NextBegin(more, next, k + 1)) {
      if k < |chunks| { assert Paragraph(text, chunks[k], NextBegin(chunks, chunk.begin, k + 1)); }
    }
  }

  lemma {:induction false} ParagraphAt(text: seq<Byte>, chunks: seq<ByteRange>, next: nat, k: nat)
    requires Paragraphs(text, chunks, next) && k + 1 < |chunks|
    ensures 0 < chunks[k + 1].begin && BlankLine(text, chunks[k].end, chunks[k + 1].begin - 1)
  {
    assert Paragraph(text, chunks[k], NextBegin(chunks, next, k + 1));
  }

  ghost predicate Follows(chunks: seq<ByteRange>, k: nat) {
    0 < k < |chunks| && chunks[k - 1].begin <= chunks[k].begin
  }

  lemma {:induction false} Ascending(chunks: seq<ByteRange>, i: nat, j: nat)
    requires i <= j < |chunks| && forall k: nat :: i < k <= j ==> Follows(chunks, k)
    ensures chunks[i].begin <= chunks[j].begin
    decreases j
  {
    if i < j {
      assert Follows(chunks, j);
      Ascending(chunks, i, j - 1);
    }
  }

  lemma {:induction false} ParagraphsInOrder(text: seq<Byte>, chunks: seq<ByteRange>, next: nat, i: nat, j: nat)
    requires Paragraphs(text, chunks, next) && i < j < |chunks|
    ensures chunks[i + 1].begin <= chunks[j].begin
  {
    forall k: nat | i + 1 < k <= j ensures Follows(chunks, k) { ParagraphAt(text, chunks, next, k - 1); }
    Ascending(chunks, i + 1, j);
  }

  /** A line feed at `n` and one at `m` with nothing but spaces, tabs and carriage returns between them. */
  ghost predicate EmptyLine(text: seq<Byte>, n: nat, m: nat) {
    && n < m < |text| && text[n] == 0x0A && text[m] == 0x0A
    && forall k :: n < k < m ==> text[k] in {0x20, 0x09, 0x0D}
  }

  /** Two places are in one paragraph exactly if no empty line lies between them. */
  lemma {:induction false} SameParagraphIff(text: seq<Byte>, chunks: seq<ByteRange>, i: nat, j: nat, q: nat, r: nat)
    requires Paragraphs(text, chunks, |text| + 1) && i < |chunks| && j < |chunks| && q < r
    requires chunks[i].begin <= q < chunks[i].end && chunks[j].begin <= r < chunks[j].end
    ensures i == j <==> forall n: nat, m: nat :: q <= n < m < r ==> !EmptyLine(text, n, m)
  {
    assert Paragraph(text, chunks[i], NextBegin(chunks, |text| + 1, i + 1));
    assert forall n: nat, m: nat {:trigger EmptyLine(text, n, m)} :: EmptyLine(text, n, m) <==> BlankLine(text, n, m);
    if i < j {
      ParagraphsInOrder(text, chunks, |text| + 1, i, j);
      ParagraphAt(text, chunks, |text| + 1, i);
      assert EmptyLine(text, chunks[i].end, chunks[i + 1].begin - 1);
    } else if j < i {
      ParagraphsInOrder(text, chunks, |text| + 1, j, i);
    }
  }

  /** One chunk per run of lines without a blank line between them; single line ends count as spaces. */
  method Unwrapping(o: Locale, text: seq<Byte>) returns (vs: seq<ByteRange>, ghost chunks: seq<ByteRange>)
    requires o.Valid() && ValidUtf8(text)
    ensures Views(o, text, |text|, vs)
    ensures Paragraphs(text, chunks, |text| + 1) && Parted(vs, AllSplits(o, Unwrapped(text), true, chunks))
  {
    var normalized := Unwrap(text);
    ValidAtBoundary(text, 0, 0);
    OutNothing(o, text);
    NoParagraphs(text);
    vs, chunks := [], [];
    var begin: nat, at: nat := 0, 0;
    ghost var splits: set<nat> := {};
    while at < |text|
      invariant begin <= at <= |text| && Boundary(text, begin)
      invariant Unfinished(text, chunks, begin, at)
      invariant Gathers(o, normalized, true, chunks, splits) && Out(o, text, begin, vs, splits)
      decreases |text| - at
    {
      var newline := FindLine(text, at);
      if newline == |text| {
        break;
      }
      var next := SkipSoft(o, text, newline);
      if next < |text| && text[next] == 0x0A {
        AsciiBlank(o, text, newline);
        vs, splits := AppendParagraph(o, text, normalized, begin, newline, vs, chunks, splits);
        ParagraphEnds(text, chunks, begin, at, newline, next);
        chunks := chunks + [ByteRange(begin, newline)];
        BlankLinePassed(o, text, newline, next, vs, splits);
        begin, at := next + 1, next + 1;
      } else {
        ParagraphGoesOn(text, chunks, begin, at, newline, next);
        at := newline + 1;
      }
    }
    vs, splits := AppendParagraph(o, text, normalized, begin, |text|, vs, chunks, splits);
    LastParagraph(text, chunks, begin, at);
    chunks := chunks + [ByteRange(begin, |text|)];
    GathersAll(o, text, normalized, true, chunks, splits, vs);
  }

  predicate UnfoldUnfinished(k: nat, text: seq<Byte>, chunks: seq<ByteRange>, begin: nat, at: nat) { true }

  /** Behind the paragraphs so far there is no blank line before `at`. Unfolds only where `UnfoldUnfinished` is
      mentioned. */
  ghost predicate Unfinished(text: seq<Byte>, chunks: seq<ByteRange>, begin: nat, at: nat) {
    forall k: nat {:trigger UnfoldUnfinished(k, text, chunks, begin, at)} ::
      UnfoldUnfinished(k, text, chunks, begin, at) ==>
      Paragraphs(text, chunks, begin) && NoBlankLine(text, begin, at)
  }

  lemma NoParagraphs(text: seq<Byte>)
    ensures Unfinished(text, [], 0, 0)
  {}

  lemma ParagraphEnds(text: seq<Byte>, chunks: seq<ByteRange>, begin: nat, at: nat, newline: nat, next: nat)
    requires Unfinished(text, chunks, begin, at) && begin <= at <= newline && BlankLine(text, newline, next)
    requires forall q :: at <= q < newline ==> text[q] != 0x0A
    ensures Unfinished(text, chunks + [ByteRange(begin, newline)], next + 1, next + 1)
  {
    assert Paragraph(text, ByteRange(begin, newline), next + 1) by {
      assert UnfoldUnfinished(0, text, chunks, begin, at);
      NoLineEnd(text, begin, at, newline);
    }
    assert Paragraphs(text, chunks + [ByteRange(begin, newline)], next + 1) by {
      assert UnfoldUnfinished(0, text, chunks, begin, at);
      ParagraphsMore(text, chunks, ByteRange(begin, newline), next + 1);
    }
    assert NoBlankLine(text, next + 1, next + 1);
  }

  lemma ParagraphGoesOn(text: seq<Byte>, chunks: seq<ByteRange>, begin: nat, at: nat, newline: nat, next: nat)
    requires Unfinished(text, chunks, begin, at) && newline < next <= |text|
    requires forall q :: at <= q < newline ==> text[q] != 0x0A
    requires forall q :: newline < q < next ==> Soft(text[q])
    requires next < |text| ==> !Soft(text[next]) && text[next] != 0x0A
    ensures Unfinished(text, chunks, begin, newline + 1)
  {
    assert UnfoldUnfinished(0, text, chunks, begin, at);
    NoBlankLineHere(text, begin, at, newline, next);
  }

  lemma LastParagraph(text: seq<Byte>, chunks: seq<ByteRange>, begin: nat, at: nat)
    requires Unfinished(text, chunks, begin, at) && begin <= at <= |text|
    requires forall q :: at <= q < |text| ==> text[q] != 0x0A
    ensures Paragraphs(text, chunks + [ByteRange(begin, |text|)], |text| + 1)
  {
    assert UnfoldUnfinished(0, text, chunks, begin, at);
    NoLineEnd(text, begin, at, |text|);
    ParagraphsMore(text, chunks, ByteRange(begin, |text|), |text| + 1);
  }

  lemma NoLineEnd(text: seq<Byte>, begin: nat, at: nat, to: nat)
    requires NoBlankLine(text, begin, at) && to <= |text| && forall q :: at <= q < to ==> text[q] != 0x0A
    ensures NoBlankLine(text, begin, to)
  {}

  lemma NoBlankLineHere(text: seq<Byte>, begin: nat, at: nat, newline: nat, next: nat)
    requires NoBlankLine(text, begin, at) && newline < next <= |text|
    requires forall q :: at <= q < newline ==> text[q] != 0x0A
    requires forall q :: newline < q < next ==> Soft(text[q])
    requires next < |text| ==> !Soft(text[next]) && text[next] != 0x0A
    ensures NoBlankLine(text, begin, newline + 1)
  {
  }

  method AppendParagraph(o: Locale, text: seq<Byte>, normalized: seq<Byte>, from: nat, to: nat, vs: seq<ByteRange>,
                         ghost chunks: seq<ByteRange>, ghost splits: set<nat>)
    returns (vs': seq<ByteRange>, ghost splits': set<nat>)
    requires o.Valid() && ValidUtf8(text) && from <= to <= |text| && Boundary(text, from) && Boundary(text, to)
    requires normalized == Unwrapped(text)
    requires Gathers(o, normalized, true, chunks, splits) && Out(o, text, from, vs, splits)
    ensures Gathers(o, normalized, true, chunks + [ByteRange(from, to)], splits') && Out(o, text, to, vs', splits')
  {
    UnwrappedValid(text, 0);
    UnwrappedBoundary(text);
    GathersMore(o, normalized, true, chunks, splits, ByteRange(from, to));
    splits' := splits + SplitsOf(o, normalized, true, ByteRange(from, to));
    vs' := AppendSplit(o, text, normalized, from, to, vs, splits);
  }

  lemma BlankLinePassed(o: Locale, text: seq<Byte>, newline: nat, next: nat, vs: seq<ByteRange>, splits: set<nat>)
    requires o.Valid() && ValidUtf8(text) && newline < next < |text| && text[next] == 0x0A
    requires Out(o, text, newline, vs, splits) && Blank(o, text, newline, next)
    ensures Out(o, text, next + 1, vs, splits) && Boundary(text, next + 1)
  {
    AsciiBlank(o, text, next);
    OutBlank(o, text, newline, next, vs, splits);
    OutBlank(o, text, next, next + 1, vs, splits);
    AfterAscii(text, next);
  }

  lemma AfterAscii(text: seq<Byte>, at: nat)
    requires ValidUtf8(text) && at < |text| && text[at] < 0x80
    ensures Boundary(text, at + 1)
  {
    ValidAtBoundary(text, 0, at);
    ValidAtBoundary(text, 0, at + 1);
  }

  /** The sentences of a text, in any mode: nothing but white space is outside them. They part at line ends or, in
      wrapped text, at blank lines, and where the pieces between those have boundaries. Fails exactly on invalid
      UTF-8. */
  method SentencesOf(o: Locale, text: seq<Byte>, mode: Mode)
    returns (r: Result<seq<ByteRange>>, ghost chunks: seq<ByteRange>)
    requires o.Valid()
    ensures r.Ok? <==> ValidUtf8(text)
    ensures r.Ok? ==> Views(o, text, |text|, r.value) && InText(text, chunks)
    ensures r.Ok? && mode != Wrapped ==>
              Lines(o, text, chunks, |text| + 1) && Parted(r.value, AllSplits(o, text, mode != Sentence, chunks))
    ensures r.Ok? && mode == Wrapped ==>
              Paragraphs(text, chunks, |text| + 1) && Parted(r.value, AllSplits(o, Unwrapped(text), true, chunks))
  {
    chunks := [];
    var valid := Validate(o, text);
    if valid.Err? {
      return Err(valid.error), [];
    }
    var vs;
    if mode != Wrapped {
      vs, chunks := ByLines(o, text, mode);
    } else {
      vs, chunks := Unwrapping(o, text);
    }
    r := Ok(vs);
  }

  /** Disjoint views cannot hold a position twice. */
  lemma HeldOnce(o: Locale, text: seq<Byte>, to: nat, vs: seq<ByteRange>, q: nat, i: nat, j: nat)
    requires Views(o, text, to, vs) && i < |vs| && j < |vs|
    requires vs[i].begin <= q < vs[i].end && vs[j].begin <= q < vs[j].end
    ensures i == j
  {}

  predicate UnfoldTold(k: nat, o: Locale, text: seq<Byte>, vs: seq<ByteRange>) { true }

  /** The views of a whole text. Unfolds only where `UnfoldTold` is mentioned. */
  ghost predicate Told(o: Locale, text: seq<Byte>, vs: seq<ByteRange>) {
    forall k: nat {:trigger UnfoldTold(k, o, text, vs)} :: UnfoldTold(k, o, text, vs) ==> Views(o, text, |text|, vs)
  }

  lemma FoldTold(o: Locale, text: seq<Byte>, vs: seq<ByteRange>)
    requires Views(o, text, |text|, vs)
    ensures Told(o, text, vs)
  {}

  lemma Holder(o: Locale, text: seq<Byte>, vs: seq<ByteRange>, q: nat) returns (i: nat)
    requires Told(o, text, vs) && InkAt(o, text, q)
    ensures i < |vs| && vs[i].begin <= q < vs[i].end
  {
    assert UnfoldTold(0, o, text, vs);
    i :| i < |vs| && vs[i].begin <= q < vs[i].end;
  }

  lemma ViewIs(o: Locale, text: seq<Byte>, vs: seq<ByteRange>, i: nat) returns (q: nat)
    requires Told(o, text, vs) && i < |vs|
    ensures vs[i].begin < vs[i].end <= |text| && Boundary(text, vs[i].end) && InkAt(o, text, vs[i].begin)
    ensures vs[i].begin <= q && InkAt(o, text, q) && LengthAt(text, q) > 0 && q + LengthAt(text, q) == vs[i].end
  {
    assert UnfoldTold(0, o, text, vs);
    assert Trimmed(o, text, vs[i]);
    q :| LastInk(o, text, vs[i], q);
    assert UnfoldLastInk(0, o, text, vs[i], q);
  }

  lemma Apart(o: Locale, text: seq<Byte>, vs: seq<ByteRange>, i: nat, j: nat)
    requires Told(o, text, vs) && i < |vs| && j < |vs|
    ensures i < j ==> vs[i].end <= vs[j].begin
  {
    assert UnfoldTold(0, o, text, vs);
  }

  /** The splits leave no choice: two ways of putting out the same text, split alike, are the same. */
  lemma SplitsDetermine(o: Locale, text: seq<Byte>, vs: seq<ByteRange>, ws: seq<ByteRange>, splits: set<nat>)
    requires Views(o, text, |text|, vs) && Views(o, text, |text|, ws) && Parted(vs, splits) && Parted(ws, splits)
    ensures vs == ws
  {
    FoldTold(o, text, vs);
    FoldTold(o, text, ws);
    SamePrefix(o, text, vs, ws, splits, |vs|);
    SamePrefix(o, text, ws, vs, splits, |ws|);
  }

  lemma {:induction false} SamePrefix(o: Locale, text: seq<Byte>, vs: seq<ByteRange>, ws: seq<ByteRange>,
                                      splits: set<nat>, n: nat)
    requires Told(o, text, vs) && Told(o, text, ws) && Parted(vs, splits) && Parted(ws, splits) && n <= |vs|
    ensures n <= |ws| && forall i :: 0 <= i < n ==> vs[i] == ws[i]
  {
    if n > 0 {
      SamePrefix(o, text, vs, ws, splits, n - 1);
      SameBegin(o, text, vs, ws, n - 1);
      NoLaterEnd(o, text, vs, ws, splits, n - 1);
      NoLaterEnd(o, text, ws, vs, splits, n - 1);
    }
  }

  lemma SameBegin(o: Locale, text: seq<Byte>, vs: seq<ByteRange>, ws: seq<ByteRange>, i: nat)
    requires Told(o, text, vs) && Told(o, text, ws) && i < |vs| && i <= |ws|
    requires forall j :: 0 <= j < i ==> vs[j] == ws[j]
    ensures i < |ws| && vs[i].begin == ws[i].begin
  {
    var j := HolderBehind(o, text, vs, ws, i);
    var k := HolderBehind(o, text, ws, vs, i);
    var p := ViewIs(o, text, vs, i);
    var q := ViewIs(o, text, ws, i);
    Apart(o, text, ws, i, j);
    Apart(o, text, vs, i, k);
  }

  /** What view `i` of `vs` begins with is not in an earlier view of `ws`. */
  lemma HolderBehind(o: Locale, text: seq<Byte>, vs: seq<ByteRange>, ws: seq<ByteRange>, i: nat) returns (j: nat)
    requires Told(o, text, vs) && Told(o, text, ws) && i < |vs| && i <= |ws|
    requires forall j :: 0 <= j < i ==> vs[j] == ws[j]
    ensures i <= j < |ws| && ws[j].begin <= vs[i].begin < ws[j].end
  {
    var q := ViewIs(o, text, vs, i);
    j := Holder(o, text, ws, vs[i].begin);
    if j < i { Apart(o, text, vs, j, i); }
  }

  lemma NoLaterEnd(o: Locale, text: seq<Byte>, vs: seq<ByteRange>, ws: seq<ByteRange>, splits: set<nat>, i: nat)
    requires Told(o, text, vs) && Parted(vs, splits) && Told(o, text, ws) && Parted(ws, splits)
    requires i < |vs| && i < |ws| && vs[i].begin == ws[i].begin
    ensures ws[i].end <= vs[i].end
  {
    var v, w := vs[i], ws[i];
    var p := ViewIs(o, text, vs, i);
    var q := ViewIs(o, text, ws, i);
    if v.end < w.end {
      if q < v.end { InnerTails(text, q, v.end); }
      var m := Holder(o, text, vs, q);
      Apart(o, text, vs, m, i);
    }
  }
}
