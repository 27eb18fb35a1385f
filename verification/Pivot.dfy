/** Alignments through a pivot language: probability moved between two tokenisations of the pivot text, then
    marginalised. */
module Pivot {
  import opened Basics

  /** A row holds the probability of each source token, given one target token. */
  type Alignment = seq<seq<real>>

  ghost predicate Shaped(a: Alignment, rows: nat, columns: nat) {
    |a| == rows && forall t :: 0 <= t < rows ==> |a[t]| == columns
  }

  // ---- Sums ----

  ghost function Sum(xs: seq<real>): real {
    if xs == [] then 0.0 else Sum(xs[..|xs| - 1]) + xs[|xs| - 1]
  }

  ghost predicate Nonnegative(xs: seq<real>) { forall i :: 0 <= i < |xs| ==> xs[i] >= 0.0 }

  /** A probability distribution. */
  ghost predicate Stochastic(xs: seq<real>) { Nonnegative(xs) && Sum(xs) == 1.0 }

  lemma {:induction false} SumCombined(xs: seq<real>, c: real, ys: seq<real>, zs: seq<real>)
    requires |xs| == |ys| == |zs| && forall i :: 0 <= i < |xs| ==> zs[i] == xs[i] + c * ys[i]
    ensures Sum(zs) == Sum(xs) + c * Sum(ys)
  {
    if xs != [] {
      var n := |xs| - 1;
      SumCombined(xs[..n], c, ys[..n], zs[..n]);
      Distribute(c, Sum(ys[..n]), ys[n]);
    }
  }

  lemma Distribute(c: real, x: real, y: real)
    ensures c * (x + y) == c * x + c * y
  {}

  lemma {:induction false} SumZero(xs: seq<real>)
    requires forall i :: 0 <= i < |xs| ==> xs[i] == 0.0
    ensures Sum(xs) == 0.0
  {
    if xs != [] { SumZero(xs[..|xs| - 1]); }
  }

  /** Entry `s` of the first `n` entries of a row times a matrix. */
  ghost function Mix(row: seq<real>, m: Alignment, s: nat, n: nat): real
    requires n <= |row| && n <= |m| && forall q :: 0 <= q < n ==> s < |m[q]|
  {
    if n == 0 then 0.0 else Mix(row, m, s, n - 1) + row[n - 1] * m[n - 1][s]
  }

  ghost function MixRow(row: seq<real>, m: Alignment, n: nat, columns: nat): (zs: seq<real>)
    requires n <= |row| && n <= |m| && forall q :: 0 <= q < n ==> columns <= |m[q]|
    ensures |zs| == columns && forall s :: 0 <= s < columns ==> zs[s] == Mix(row, m, s, n)
  {
    if columns == 0 then [] else MixRow(row, m, n, columns - 1) + [Mix(row, m, columns - 1, n)]
  }

  /** Multiplying by rows that each sum to one keeps a row's sum. */
  lemma {:induction false} MixKeepsSum(row: seq<real>, m: Alignment, n: nat, columns: nat, zs: seq<real>)
    requires n <= |row| && n <= |m| && |zs| == columns
    requires forall q :: 0 <= q < n ==> |m[q]| == columns && Sum(m[q]) == 1.0
    requires forall s :: 0 <= s < columns ==> zs[s] == Mix(row, m, s, n)
    ensures Sum(zs) == Sum(row[..n])
    decreases n
  {
    if n == 0 {
      SumZero(zs);
    } else {
      var before := MixRow(row, m, n - 1, columns);
      MixKeepsSum(row, m, n - 1, columns, before);
      SumCombined(before, row[n - 1], m[n - 1], zs);
      assert row[..n][..n - 1] == row[..n - 1];
    }
  }

  lemma {:induction false} MixNonnegative(row: seq<real>, m: Alignment, s: nat, n: nat)
    requires n <= |row| && n <= |m| && forall q :: 0 <= q < n ==> s < |m[q]| && Nonnegative(m[q])
    requires Nonnegative(row)
    ensures Mix(row, m, s, n) >= 0.0
  {
    if n > 0 {
      MixNonnegative(row, m, s, n - 1);
      assert row[n - 1] >= 0.0 && m[n - 1][s] >= 0.0;
    }
  }

  // ---- Tokens ----

  /** Contiguous tokens from `from` to `to`; only the last one may be empty. */
  ghost predicate Tiles(rs: seq<ByteRange>, from: nat, to: nat) {
    && rs != [] && rs[0].begin == from && rs[|rs| - 1].end == to
    && (forall i :: 0 <= i < |rs| - 1 ==> rs[i].begin < rs[i].end)
    && rs[|rs| - 1].begin <= to
    && (forall i {:trigger Start(rs, i, to)} :: 0 < i < |rs| ==> rs[i - 1].end == Start(rs, i, to))
  }

  function Start(rs: seq<ByteRange>, i: nat, to: nat): nat {
    if i < |rs| then rs[i].begin else to
  }

  predicate EndsEmpty(rs: seq<ByteRange>) { rs != [] && rs[|rs| - 1].begin == rs[|rs| - 1].end }

  lemma {:induction false} TilesInOrder(rs: seq<ByteRange>, from: nat, to: nat, i: nat, j: nat)
    requires Tiles(rs, from, to) && i < j <= |rs|
    ensures rs[i].begin <= rs[i].end <= Start(rs, j, to) <= to
    decreases |rs| - i
  {
    if i + 1 < |rs| {
      TilesInOrder(rs, from, to, i + 1, if i + 1 < j then j else i + 2);
      assert rs[i].end == Start(rs, i + 1, to);
    }
  }

  /** A token that begins at the end is the last and empty. */
  lemma AtEnd(rs: seq<ByteRange>, from: nat, to: nat, i: nat)
    requires Tiles(rs, from, to) && i < |rs| && rs[i].begin == to
    ensures i == |rs| - 1 && rs[i].end == to
  {
    TilesInOrder(rs, from, to, i, |rs|);
  }

  // ---- What is moved ----

  /** Bytes before `pos` that two tokens share. */
  function Overlap(a: ByteRange, b: ByteRange, pos: nat): nat {
    Max(0, Min(Min(a.end, b.end), pos) - Max(a.begin, b.begin))
  }

  /** How much of a target-side token's probability goes to a source-side token: the share of its bytes; an empty end
      of sentence goes to its like, or in equal parts to all tokens if there is none. */
  ghost function Weight(source: seq<ByteRange>, target: seq<ByteRange>, s: nat, q: nat): real
    requires s < |source| && q < |target|
  {
    if target[q].begin < target[q].end
      then Overlap(source[s], target[q], target[q].end) as real / target[q].Size() as real
    else if EndsEmpty(source) then (if s == |source| - 1 then 1.0 else 0.0)
    else 1.0 / |source| as real
  }

  /** The same once the bytes before `pos` have been dealt with, and the tokens before `qt`, but no surplus. */
  ghost function Moved(source: seq<ByteRange>, target: seq<ByteRange>, s: nat, q: nat, pos: nat, qt: nat): real
    requires s < |source| && q < |target|
  {
    if target[q].begin < target[q].end then Overlap(source[s], target[q], pos) as real / target[q].Size() as real
    else if EndsEmpty(source) && q < qt && s == |source| - 1 then 1.0
    else 0.0
  }

  ghost function MovedRow(source: seq<ByteRange>, target: seq<ByteRange>, q: nat, pos: nat, qt: nat,
                          k: nat): (row: seq<real>)
    requires k <= |source| && q < |target|
    ensures |row| == k
  {
    if k == 0 then [] else MovedRow(source, target, q, pos, qt, k - 1) + [Moved(source, target, k - 1, q, pos, qt)]
  }

  /** A row per target-side token. */
  ghost function MovedRows(source: seq<ByteRange>, target: seq<ByteRange>, pos: nat, qt: nat, n: nat): (m: Alignment)
    requires n <= |target|
    ensures Shaped(m, n, |source|)
  {
    if n == 0 then []
    else MovedRows(source, target, pos, qt, n - 1) + [MovedRow(source, target, n - 1, pos, qt, |source|)]
  }

  lemma {:induction false} MovedRowAt(source: seq<ByteRange>, target: seq<ByteRange>, q: nat, pos: nat, qt: nat,
                                      k: nat, s: nat)
    requires s < k <= |source| && q < |target|
    ensures MovedRow(source, target, q, pos, qt, k)[s] == Moved(source, target, s, q, pos, qt)
  {
    if s < k - 1 { MovedRowAt(source, target, q, pos, qt, k - 1, s); }
  }

  lemma {:induction false} MovedAt(source: seq<ByteRange>, target: seq<ByteRange>, pos: nat, qt: nat, n: nat, q: nat,
                                   s: nat)
    requires q < n <= |target| && s < |source|
    ensures MovedRows(source, target, pos, qt, n)[q][s] == Moved(source, target, s, q, pos, qt)
  {
    if q == n - 1 {
      MovedRowAt(source, target, q, pos, qt, |source|, s);
    } else {
      MovedAt(source, target, pos, qt, n - 1, q, s);
    }
  }

  lemma {:induction false} MixSame(row: seq<real>, m: Alignment, m': Alignment, s: nat, n: nat)
    requires n <= |row| && n <= |m| == |m'|
    requires forall q :: 0 <= q < n ==> s < |m[q]| == |m'[q]| && m'[q][s] == m[q][s]
    ensures Mix(row, m', s, n) == Mix(row, m, s, n)
  {
    if n > 0 { MixSame(row, m, m', s, n - 1); }
  }

  /** The entry changes by what changes in its column. */
  lemma {:induction false} MixOne(row: seq<real>, m: Alignment, m': Alignment, s: nat, n: nat, q0: nat, d: real)
    requires q0 < n <= |row| && n <= |m| == |m'|
    requires forall q :: 0 <= q < n ==> s < |m[q]| == |m'[q]|
    requires forall q :: 0 <= q < n && q != q0 ==> m'[q][s] == m[q][s]
    requires m'[q0][s] == m[q0][s] + d
    ensures Mix(row, m', s, n) == Mix(row, m, s, n) + row[q0] * d
  {
    if q0 == n - 1 {
      MixSame(row, m, m', s, n - 1);
      Distribute(row[q0], m[q0][s], d);
    } else {
      MixOne(row, m, m', s, n - 1, q0, d);
    }
  }

  // ---- The sweep ----

  /** Bytes before `pos` are dealt with; the two pointers stand at the tokens `pos` lies in or begins. */
  ghost predicate Standing(source: seq<ByteRange>, target: seq<ByteRange>, from: nat, to: nat, sq: nat, qt: nat,
                           pos: nat) {
    && Tiles(source, from, to) && Tiles(target, from, to) && EndsEmpty(target)
    && sq <= |source| && qt <= |target|
    && pos == Max(Start(source, sq, to), Start(target, qt, to))
    && (Start(source, sq, to) < pos ==> sq < |source| && source[sq].end > pos)
    && (Start(target, qt, to) < pos ==> qt < |target| && target[qt].end > pos)
    && (qt == |target| ==> sq == |source| && EndsEmpty(source))
    && (sq == |source| && EndsEmpty(source) ==> qt == |target|)
  }

  /** Unless they coincide, the tokens the pointers stand at overlap. */
  lemma MustOverlap(source: seq<ByteRange>, target: seq<ByteRange>, from: nat, to: nat, sq: nat, qt: nat, pos: nat)
    requires Standing(source, target, from, to, sq, qt, pos) && sq < |source| && qt < |target|
    requires source[sq] != target[qt]
    ensures pos == Max(target[qt].begin, source[sq].begin) < Min(target[qt].end, source[sq].end)
    ensures target[qt].begin < target[qt].end && source[sq].begin < source[sq].end
  {
    TilesInOrder(source, from, to, sq, |source|);
    TilesInOrder(target, from, to, qt, |target|);
    if source[sq].begin == to { AtEnd(source, from, to, sq); }
    if target[qt].begin == to { AtEnd(target, from, to, qt); }
  }

  lemma NextStart(rs: seq<ByteRange>, from: nat, to: nat, i: nat)
    requires Tiles(rs, from, to) && i < |rs|
    ensures Start(rs, i + 1, to) == rs[i].end
  {}

  lemma StandingBoth(source: seq<ByteRange>, target: seq<ByteRange>, from: nat, to: nat, sq: nat, qt: nat, pos: nat)
    requires Standing(source, target, from, to, sq, qt, pos) && sq < |source| && qt < |target|
    requires source[sq].end == target[qt].end
    ensures Standing(source, target, from, to, sq + 1, qt + 1, source[sq].end)
  {
    NextStart(source, from, to, sq);
    NextStart(target, from, to, qt);
    if source[sq] != target[qt] { MustOverlap(source, target, from, to, sq, qt, pos); }
    if qt + 1 == |target| {
      assert source[sq] == target[qt];
      AtEnd(source, from, to, sq);
    }
    if sq + 1 == |source| && EndsEmpty(source) {
      assert source[sq] == target[qt];
      AtEnd(target, from, to, qt);
    }
  }

  lemma StandingOne(source: seq<ByteRange>, target: seq<ByteRange>, from: nat, to: nat, sq: nat, qt: nat, pos: nat)
    requires Standing(source, target, from, to, sq, qt, pos) && sq < |source| && qt < |target|
    requires source[sq].end != target[qt].end
    ensures source[sq].end > target[qt].end ==> Standing(source, target, from, to, sq, qt + 1, target[qt].end)
    ensures source[sq].end < target[qt].end ==> Standing(source, target, from, to, sq + 1, qt, source[sq].end)
  {
    MustOverlap(source, target, from, to, sq, qt, pos);
    NextStart(source, from, to, sq);
    NextStart(target, from, to, qt);
    TilesInOrder(source, from, to, sq, |source|);
    TilesInOrder(target, from, to, qt, |target|);
  }

  /** When one pointer is through, the source's is, and only the end of the target may be left. */
  lemma SweepEnds(source: seq<ByteRange>, target: seq<ByteRange>, from: nat, to: nat, sq: nat, qt: nat, pos: nat)
    requires Standing(source, target, from, to, sq, qt, pos) && (sq == |source| || qt == |target|)
    ensures sq == |source| && pos == to && (qt == |target| || qt == |target| - 1)
    ensures qt == |target| <==> EndsEmpty(source)
  {
    if qt < |target| {
      TilesInOrder(target, from, to, qt, |target|);
      AtEnd(target, from, to, qt);
    } else {
      TilesInOrder(source, from, to, 0, |source|);
    }
  }

  // ---- What one step of the sweep moves ----

  lemma AddFractions(a: real, b: real, d: real)
    requires d != 0.0
    ensures (a + b) / d == a / d + b / d
  {}

  /** Moving `pos` on within `a` and `b` moves just what lies between. */
  lemma OverlapGrows(a: ByteRange, b: ByteRange, pos: nat, pos': nat)
    requires pos == Max(a.begin, b.begin) && pos <= pos' <= a.end && pos' <= b.end
    ensures Overlap(a, b, pos') == Overlap(a, b, pos) + (pos' - pos)
  {}

  lemma OverlapStays(a: ByteRange, b: ByteRange, pos: nat, pos': nat)
    requires pos <= pos' && (a.end <= pos || pos' <= a.begin || b.end <= pos || pos' <= b.begin)
    ensures Overlap(a, b, pos') == Overlap(a, b, pos)
  {}

  lemma MovedGrows(source: seq<ByteRange>, target: seq<ByteRange>, s: nat, q: nat, pos: nat, qt: nat, pos': nat,
                   qt': nat, more: nat)
    requires s < |source| && q < |target| && target[q].begin < target[q].end
    requires Overlap(source[s], target[q], pos') == Overlap(source[s], target[q], pos) + more
    ensures Moved(source, target, s, q, pos', qt')
            == Moved(source, target, s, q, pos, qt) + more as real / target[q].Size() as real
  {
    AddFractions(Overlap(source[s], target[q], pos) as real, more as real, target[q].Size() as real);
  }

  lemma OthersStay(source: seq<ByteRange>, target: seq<ByteRange>, from: nat, to: nat, sq: nat, qt: nat, pos: nat,
                   pos': nat, s: nat, q: nat)
    requires Standing(source, target, from, to, sq, qt, pos) && sq < |source| && qt < |target|
    requires pos <= pos' <= Min(source[sq].end, target[qt].end)
    requires s < |source| && q < |target| && (s != sq || q != qt)
    ensures Overlap(source[s], target[q], pos') == Overlap(source[s], target[q], pos)
  {
    if s < sq { TilesInOrder(source, from, to, s, sq); }
    if s > sq { TilesInOrder(source, from, to, sq, s); }
    if q < qt { TilesInOrder(target, from, to, q, qt); }
    if q > qt { TilesInOrder(target, from, to, qt, q); }
    OverlapStays(source[s], target[q], pos, pos');
  }

  /** The sweep's matrix before and after a step: only the pair the pointers stand at has changed, by `d`. */
  ghost predicate OnlyMoves(source: seq<ByteRange>, target: seq<ByteRange>, pos: nat, qt: nat, pos': nat, qt': nat,
                            sq: nat, q0: nat, d: real) {
    && sq < |source| && q0 < |target|
    && Moved(source, target, sq, q0, pos', qt') == Moved(source, target, sq, q0, pos, qt) + d
    && forall s, q :: 0 <= s < |source| && 0 <= q < |target| && (s != sq || q != q0) ==>
         Moved(source, target, s, q, pos', qt') == Moved(source, target, s, q, pos, qt)
  }

  lemma BytesMove(source: seq<ByteRange>, target: seq<ByteRange>, from: nat, to: nat, sq: nat, qt: nat, pos: nat,
                  pos': nat, qt': nat)
    requires Standing(source, target, from, to, sq, qt, pos) && sq < |source| && qt < |target|
    requires target[qt].begin < target[qt].end && source[sq].begin < source[sq].end
    requires pos <= pos' == Min(source[sq].end, target[qt].end) && qt <= qt' <= qt + 1
    ensures OnlyMoves(source, target, pos, qt, pos', qt', sq, qt, (pos' - pos) as real / target[qt].Size() as real)
  {
    OverlapGrows(source[sq], target[qt], pos, pos');
    MovedGrows(source, target, sq, qt, pos, qt, pos', qt', pos' - pos);
    forall s: nat, q: nat | s < |source| && q < |target| && (s != sq || q != qt)
      ensures Moved(source, target, s, q, pos', qt') == Moved(source, target, s, q, pos, qt)
    {
      if target[q].begin < target[q].end {
        OthersStay(source, target, from, to, sq, qt, pos, pos', s, q);
      } else {
        assert q == |target| - 1 && qt < q;
      }
    }
  }

  /** Two ends of sentence coincide. */
  lemma EndMoves(source: seq<ByteRange>, target: seq<ByteRange>, from: nat, to: nat, sq: nat, qt: nat, pos: nat)
    requires Standing(source, target, from, to, sq, qt, pos) && sq < |source| && qt < |target|
    requires source[sq] == target[qt] && target[qt].begin == target[qt].end
    ensures OnlyMoves(source, target, pos, qt, source[sq].end, qt + 1, sq, qt, 1.0)
  {
    TilesInOrder(source, from, to, sq, |source|);
    assert qt == |target| - 1;
    AtEnd(source, from, to, sq);
  }

  lemma BytesOfMatch(source: seq<ByteRange>, target: seq<ByteRange>, from: nat, to: nat, sq: nat, qt: nat, pos: nat)
    requires Standing(source, target, from, to, sq, qt, pos) && sq < |source| && qt < |target|
    requires source[sq] == target[qt]
    ensures OnlyMoves(source, target, pos, qt, source[sq].end, qt + 1, sq, qt, 1.0)
  {
    TilesInOrder(source, from, to, sq, |source|);
    if target[qt].begin < target[qt].end {
      BytesMove(source, target, from, to, sq, qt, pos, source[sq].end, qt + 1);
      Whole((source[sq].end - pos) as real, target[qt].Size() as real);
    } else {
      EndMoves(source, target, from, to, sq, qt, pos);
    }
  }

  lemma Whole(a: real, b: real)
    requires a == b && b != 0.0
    ensures a / b == 1.0
  {}

  /** Each entry is the row mixed with what has been moved. */
  ghost predicate Transferring(source: seq<ByteRange>, target: seq<ByteRange>, pivot: Alignment, pos: nat, qt: nat,
                               remapped: Alignment) {
    && Shaped(pivot, |pivot|, |target|) && Shaped(remapped, |pivot|, |source|)
    && forall t, s :: 0 <= t < |pivot| && 0 <= s < |source| ==>
         remapped[t][s] == Mix(pivot[t], MovedRows(source, target, pos, qt, |target|), s, |target|)
  }

  /** Entry `s` of each row has grown by a share `d` of entry `q` of the pivot's row. */
  ghost predicate Grown(pivot: Alignment, q: nat, remapped: Alignment, s: nat, d: real, remapped': Alignment)
    requires |pivot| == |remapped| == |remapped'|
  {
    forall t :: 0 <= t < |pivot| ==> q < |pivot[t]| && GrownRow(remapped[t], s, pivot[t][q], d, remapped'[t])
  }

  ghost predicate GrownRow(row: seq<real>, s: nat, p: real, d: real, row': seq<real>) {
    s < |row| && row' == row[s := row[s] + p * d]
  }

  lemma TransferringStep(source: seq<ByteRange>, target: seq<ByteRange>, pivot: Alignment, pos: nat, qt: nat,
                         remapped: Alignment, pos': nat, qt': nat, sq: nat, q0: nat, d: real, remapped': Alignment)
    requires Transferring(source, target, pivot, pos, qt, remapped) && |remapped'| == |remapped|
    requires OnlyMoves(source, target, pos, qt, pos', qt', sq, q0, d) && Grown(pivot, q0, remapped, sq, d, remapped')
    ensures Transferring(source, target, pivot, pos', qt', remapped')
  {
    var m, m' := MovedRows(source, target, pos, qt, |target|), MovedRows(source, target, pos', qt', |target|);
    forall q: nat, s: nat | q < |target| && s < |source|
      ensures m'[q][s] == if s == sq && q == q0 then m[q][s] + d else m[q][s]
    {
      MovedAt(source, target, pos, qt, |target|, q, s);
      MovedAt(source, target, pos', qt', |target|, q, s);
    }
    MixedStep(pivot, m, m', remapped, |source|, sq, q0, d, remapped');
  }

  /** What a change of one entry of the matrix does to all rows mixed with it. */
  lemma MixedStep(pivot: Alignment, m: Alignment, m': Alignment, remapped: Alignment, columns: nat, sq: nat, q0: nat,
                  d: real, remapped': Alignment)
    requires Shaped(pivot, |pivot|, |m|) && Shaped(m, |m|, columns) && Shaped(m', |m|, columns)
    requires Shaped(remapped, |pivot|, columns)
    requires sq < columns && q0 < |m| && |remapped'| == |remapped| && Grown(pivot, q0, remapped, sq, d, remapped')
    requires forall q, s :: 0 <= q < |m| && 0 <= s < columns ==>
             m'[q][s] == if s == sq && q == q0 then m[q][s] + d else m[q][s]
    requires forall t, s :: 0 <= t < |pivot| && 0 <= s < columns ==> remapped[t][s] == Mix(pivot[t], m, s, |m|)
    ensures Shaped(remapped', |pivot|, columns)
    ensures forall t, s :: 0 <= t < |pivot| && 0 <= s < columns ==> remapped'[t][s] == Mix(pivot[t], m', s, |m|)
  {
    forall t: nat, s: nat | t < |pivot| && s < columns ensures remapped'[t][s] == Mix(pivot[t], m', s, |m|) {
      if s == sq {
        MixOne(pivot[t], m, m', s, |m|, q0, d);
      } else {
        MixSame(pivot[t], m, m', s, |m|);
      }
    }
  }

  // ---- All of it ----

  ghost function WeightRow(source: seq<ByteRange>, target: seq<ByteRange>, q: nat, k: nat): (row: seq<real>)
    requires k <= |source| && q < |target|
    ensures |row| == k
  {
    if k == 0 then [] else WeightRow(source, target, q, k - 1) + [Weight(source, target, k - 1, q)]
  }

  /** For each target-side token the shares the source-side tokens get. */
  ghost function Shares(source: seq<ByteRange>, target: seq<ByteRange>, n: nat): (m: Alignment)
    requires n <= |target|
    ensures Shaped(m, n, |source|)
  {
    if n == 0 then [] else Shares(source, target, n - 1) + [WeightRow(source, target, n - 1, |source|)]
  }

  lemma {:induction false} WeightRowAt(source: seq<ByteRange>, target: seq<ByteRange>, q: nat, k: nat, s: nat)
    requires s < k <= |source| && q < |target|
    ensures WeightRow(source, target, q, k)[s] == Weight(source, target, s, q)
  {
    if s < k - 1 { WeightRowAt(source, target, q, k - 1, s); }
  }

  lemma {:induction false} SharesAt(source: seq<ByteRange>, target: seq<ByteRange>, n: nat, q: nat)
    requires q < n <= |target|
    ensures Shares(source, target, n)[q] == WeightRow(source, target, q, |source|)
  {
    if q < n - 1 { SharesAt(source, target, n - 1, q); }
  }

  lemma ShareAt(source: seq<ByteRange>, target: seq<ByteRange>, q: nat, s: nat)
    requires q < |target| && s < |source|
    ensures Shares(source, target, |target|)[q][s] == Weight(source, target, s, q)
  {
    SharesAt(source, target, |target|, q);
    WeightRowAt(source, target, q, |source|, s);
  }

  lemma OverlapSplits(from: nat, mid: nat, end: nat, b: ByteRange)
    requires from <= mid <= end
    ensures Overlap(ByteRange(from, end), b, b.end)
            == Overlap(ByteRange(from, mid), b, b.end) + Overlap(ByteRange(mid, end), b, b.end)
  {}

  lemma WeightRowSum(source: seq<ByteRange>, target: seq<ByteRange>, q: nat, k: nat)
    requires 0 < k <= |source| && q < |target|
    ensures Sum(WeightRow(source, target, q, k))
            == Sum(WeightRow(source, target, q, k - 1)) + Weight(source, target, k - 1, q)
  {
    var row := WeightRow(source, target, q, k);
    assert row[..k - 1] == WeightRow(source, target, q, k - 1);
  }

  /** Contiguous tokens share all their bytes: up to token `k`, those before its start. */
  lemma {:induction false} BytesUpTo(source: seq<ByteRange>, target: seq<ByteRange>, from: nat, to: nat, q: nat, k: nat)
    requires Tiles(source, from, to) && q < |target| && target[q].begin < target[q].end && k <= |source|
    ensures from <= Start(source, k, to)
    ensures Sum(WeightRow(source, target, q, k))
         == Overlap(ByteRange(from, Start(source, k, to)), target[q], target[q].end) as real / target[q].Size() as real
  {
    if k > 0 {
      BytesUpTo(source, target, from, to, q, k - 1);
      OneMoreToken(source, target, from, to, q, k);
      WeightRowSum(source, target, q, k);
      var b := target[q];
      OneMoreShare(Overlap(ByteRange(from, Start(source, k - 1, to)), b, b.end), Overlap(source[k - 1], b, b.end),
                   Overlap(ByteRange(from, Start(source, k, to)), b, b.end), b.Size() as real,
                   Sum(WeightRow(source, target, q, k - 1)), Weight(source, target, k - 1, q),
                   Sum(WeightRow(source, target, q, k)));
    }
  }

  lemma OneMoreToken(source: seq<ByteRange>, target: seq<ByteRange>, from: nat, to: nat, q: nat, k: nat)
    requires Tiles(source, from, to) && q < |target| && 0 < k <= |source| && from <= Start(source, k - 1, to)
    ensures var b := target[q];
            && from <= Start(source, k, to)
            && Overlap(ByteRange(from, Start(source, k, to)), b, b.end)
               == Overlap(ByteRange(from, Start(source, k - 1, to)), b, b.end) + Overlap(source[k - 1], b, b.end)
  {
    TilesInOrder(source, from, to, k - 1, k);
    NextStart(source, from, to, k - 1);
    OverlapSplits(from, source[k - 1].begin, source[k - 1].end, target[q]);
  }

  lemma OneMoreShare(before: nat, here: nat, all: nat, size: real, sum: real, weight: real, total: real)
    requires size != 0.0 && all == before + here && total == sum + weight
    requires sum == before as real / size && weight == here as real / size
    ensures total == all as real / size
  {
    AddFractions(before as real, here as real, size);
  }

  lemma {:induction false} SumAllButLast(xs: seq<real>)
    requires xs != [] && forall i :: 0 <= i < |xs| - 1 ==> xs[i] == 0.0
    ensures Sum(xs) == xs[|xs| - 1]
  {
    SumZero(xs[..|xs| - 1]);
  }

  lemma {:induction false} SumEqual(xs: seq<real>, c: real)
    requires forall i :: 0 <= i < |xs| ==> xs[i] == c
    ensures Sum(xs) == |xs| as real * c
  {
    if xs != [] { SumEqual(xs[..|xs| - 1], c); }
  }

  lemma Quotient(a: real, b: real)
    requires a >= 0.0 && b > 0.0
    ensures a / b >= 0.0
  {}

  lemma WeightNonnegative(source: seq<ByteRange>, target: seq<ByteRange>, s: nat, q: nat)
    requires s < |source| && q < |target|
    ensures Weight(source, target, s, q) >= 0.0
  {
    var b := target[q];
    if b.begin < b.end {
      Quotient(Overlap(source[s], b, b.end) as real, b.Size() as real);
    } else if !EndsEmpty(source) {
      Quotient(1.0, |source| as real);
    }
  }

  lemma BytesSum(source: seq<ByteRange>, target: seq<ByteRange>, from: nat, to: nat, q: nat)
    requires Tiles(source, from, to) && Tiles(target, from, to) && q < |target| && target[q].begin < target[q].end
    ensures Sum(WeightRow(source, target, q, |source|)) == 1.0
  {
    BytesUpTo(source, target, from, to, q, |source|);
    var all := Overlap(ByteRange(from, to), target[q], target[q].end);
    assert all == target[q].Size() by {
      TilesInOrder(target, from, to, q, |target|);
      if q > 0 { TilesInOrder(target, from, to, 0, q); }
    }
    Whole(all as real, target[q].Size() as real);
  }

  /** Each token's share of an empty end of sentence. */
  lemma EndEntry(source: seq<ByteRange>, target: seq<ByteRange>, q: nat, part: real, s: nat)
    requires s < |source| && q < |target| && target[q].begin >= target[q].end && part == 1.0 / |source| as real
    ensures WeightRow(source, target, q, |source|)[s]
            == if !EndsEmpty(source) then part else if s == |source| - 1 then 1.0 else 0.0
  {
    WeightRowAt(source, target, q, |source|, s);
  }

  lemma EndSumOne(source: seq<ByteRange>, target: seq<ByteRange>, q: nat, row: seq<real>)
    requires EndsEmpty(source) && q < |target| && target[q].begin >= target[q].end
    requires row == WeightRow(source, target, q, |source|)
    ensures Sum(row) == 1.0
  {
    forall s: nat | s < |source| ensures row[s] == if s == |source| - 1 then 1.0 else 0.0 {
      EndEntry(source, target, q, 1.0 / |source| as real, s);
    }
    SumAllButLast(row);
  }

  lemma EndRow(source: seq<ByteRange>, target: seq<ByteRange>, q: nat, row: seq<real>, part: real)
    requires source != [] && !EndsEmpty(source) && q < |target| && target[q].begin >= target[q].end
    requires row == WeightRow(source, target, q, |source|) && part == 1.0 / |source| as real
    ensures forall s :: 0 <= s < |source| ==> row[s] == part
  {
    forall s: nat | s < |source| ensures row[s] == part {
      EndEntry(source, target, q, part, s);
    }
  }

  lemma UnitSum(row: seq<real>, part: real, n: real)
    requires n == |row| as real && n * part == 1.0 && forall s :: 0 <= s < |row| ==> row[s] == part
    ensures Sum(row) == 1.0
  {
    SumEqual(row, part);
  }

  lemma Parts(n: real)
    requires n != 0.0
    ensures n * (1.0 / n) == 1.0
  {}

  lemma EndPart(source: seq<ByteRange>, target: seq<ByteRange>, q: nat, row: seq<real>) returns (part: real)
    requires source != [] && !EndsEmpty(source) && q < |target| && target[q].begin >= target[q].end
    requires row == WeightRow(source, target, q, |source|)
    ensures |source| as real * part == 1.0 && forall s :: 0 <= s < |source| ==> row[s] == part
  {
    part := 1.0 / |source| as real;
    EndRow(source, target, q, row, part);
    Parts(|source| as real);
  }

  lemma EndSum(source: seq<ByteRange>, target: seq<ByteRange>, q: nat, row: seq<real>)
    requires source != [] && q < |target| && target[q].begin >= target[q].end
    requires row == WeightRow(source, target, q, |source|)
    ensures Sum(row) == 1.0
  {
    if EndsEmpty(source) {
      EndSumOne(source, target, q, row);
    } else {
      var part := EndPart(source, target, q, row);
      UnitSum(row, part, |source| as real);
    }
  }

  /** Each target-side token's shares are a distribution over the source side's tokens. */
  lemma SharesStochastic(source: seq<ByteRange>, target: seq<ByteRange>, from: nat, to: nat, q: nat)
    requires Tiles(source, from, to) && Tiles(target, from, to) && q < |target|
    ensures Stochastic(WeightRow(source, target, q, |source|))
  {
    var row := WeightRow(source, target, q, |source|);
    forall s: nat | s < |row| ensures row[s] >= 0.0 {
      WeightRowAt(source, target, q, |source|, s);
      WeightNonnegative(source, target, s, q);
    }
    if target[q].begin < target[q].end {
      BytesSum(source, target, from, to, q);
    } else {
      EndSum(source, target, q, row);
    }
  }

  // ---- The methods ----

  /** Adds to entry `sq` of each row the share `count / spread` of entry `qt` of the pivot's row. */
  method Collect(remapped: Alignment, sq: nat, pivot: Alignment, qt: nat, count: real, spread: real, ghost d: real)
    returns (remapped': Alignment)
    requires |remapped| == |pivot| && spread != 0.0 && d == count / spread
    requires forall t :: 0 <= t < |pivot| ==> qt < |pivot[t]| && sq < |remapped[t]|
    ensures |remapped'| == |remapped| && Grown(pivot, qt, remapped, sq, d, remapped')
  {
    remapped' := remapped;
    for t := 0 to |pivot|
      invariant |remapped'| == |remapped|
      invariant forall i :: 0 <= i < t ==> GrownRow(remapped[i], sq, pivot[i][qt], d, remapped'[i])
      invariant forall i :: t <= i < |pivot| ==> remapped'[i] == remapped[i]
    {
      var amount := count * pivot[t][qt] / spread;
      assert amount == pivot[t][qt] * d by { Regroup(count, pivot[t][qt], spread); }
      var row := remapped'[t][sq := remapped'[t][sq] + amount];
      assert GrownRow(remapped[t], sq, pivot[t][qt], d, row);
      remapped' := remapped'[t := row];
    }
  }

  lemma Regroup(count: real, p: real, spread: real)
    requires spread != 0.0
    ensures count * p / spread == p * (count / spread)
  {}

  method Zeros(rows: nat, columns: nat) returns (zeros: Alignment)
    ensures Shaped(zeros, rows, columns)
    ensures forall t, s :: 0 <= t < rows && 0 <= s < columns ==> zeros[t][s] == 0.0
  {
    var row: seq<real> := [];
    for s := 0 to columns
      invariant |row| == s && forall i :: 0 <= i < s ==> row[i] == 0.0
    {
      row := row + [0.0];
    }
    zeros := [];
    for t := 0 to rows
      invariant |zeros| == t && forall i :: 0 <= i < t ==> zeros[i] == row
    {
      zeros := zeros + [row];
    }
  }

  lemma {:induction false} MixZero(row: seq<real>, m: Alignment, s: nat, n: nat)
    requires n <= |row| && n <= |m| && forall q :: 0 <= q < n ==> s < |m[q]| && m[q][s] == 0.0
    ensures Mix(row, m, s, n) == 0.0
  {
    if n > 0 { MixZero(row, m, s, n - 1); }
  }

  lemma NothingMoved(source: seq<ByteRange>, target: seq<ByteRange>, from: nat, to: nat, s: nat, q: nat)
    requires Tiles(source, from, to) && Tiles(target, from, to) && s < |source| && q < |target|
    ensures Moved(source, target, s, q, from, 0) == 0.0
  {
    if q > 0 { TilesInOrder(target, from, to, 0, q); }
  }

  lemma TransferringStart(source: seq<ByteRange>, target: seq<ByteRange>, from: nat, to: nat, pivot: Alignment,
                          zeros: Alignment)
    requires Tiles(source, from, to) && Tiles(target, from, to) && EndsEmpty(target) && Shaped(pivot, |pivot|, |target|)
    requires Shaped(zeros, |pivot|, |source|)
    requires forall t, s :: 0 <= t < |pivot| && 0 <= s < |source| ==> zeros[t][s] == 0.0
    ensures Standing(source, target, from, to, 0, 0, from) && Transferring(source, target, pivot, from, 0, zeros)
  {
    TilesInOrder(source, from, to, 0, |source|);
    var m := MovedRows(source, target, from, 0, |target|);
    forall q: nat, s: nat | q < |target| && s < |source| ensures m[q][s] == 0.0 {
      MovedAt(source, target, from, 0, |target|, q, s);
      NothingMoved(source, target, from, to, s, q);
    }
    forall t: nat, s: nat | t < |pivot| && s < |source| ensures zeros[t][s] == Mix(pivot[t], m, s, |target|) {
      MixZero(pivot[t], m, s, |target|);
    }
  }

  /** Every entry of each row has grown by the same share of entry `q` of the pivot's row. */
  ghost predicate Given(pivot: Alignment, q: nat, remapped: Alignment, part: real, remapped': Alignment)
    requires |pivot| == |remapped| == |remapped'|
  {
    forall t :: 0 <= t < |pivot| ==>
      && q < |pivot[t]| && |remapped'[t]| == |remapped[t]|
      && forall s :: 0 <= s < |remapped[t]| ==> remapped'[t][s] == remapped[t][s] + pivot[t][q] * part
  }

  /** The surplus of an end of sentence that the source side does not have, in equal parts to all. */
  method Gift(source: seq<ByteRange>, pivot: Alignment, qt: nat, remapped: Alignment, ghost part: real)
    returns (remapped': Alignment)
    requires |source| > 0 && Shaped(remapped, |pivot|, |source|) && forall t :: 0 <= t < |pivot| ==> qt < |pivot[t]|
    requires part == 1.0 / |source| as real
    ensures Shaped(remapped', |pivot|, |source|) && Given(pivot, qt, remapped, part, remapped')
  {
    remapped' := [];
    for t := 0 to |pivot|
      invariant |remapped'| == t && Given(pivot[..t], qt, remapped[..t], part, remapped')
    {
      var gift := pivot[t][qt] / |source| as real;
      assert gift == pivot[t][qt] * part by { Regroup(1.0, pivot[t][qt], |source| as real); }
      var row := AddToAll(remapped[t], gift);
      remapped' := remapped' + [row];
      assert pivot[..t + 1] == pivot[..t] + [pivot[t]] && remapped[..t + 1] == remapped[..t] + [remapped[t]];
    }
    assert pivot[..|pivot|] == pivot && remapped[..|pivot|] == remapped;
  }

  method AddToAll(xs: seq<real>, gift: real) returns (row: seq<real>)
    ensures |row| == |xs| && forall s :: 0 <= s < |xs| ==> row[s] == xs[s] + gift
  {
    row := xs;
    for s := 0 to |xs|
      invariant |row| == |xs| && forall i :: 0 <= i < |xs| ==> row[i] == if i < s then xs[i] + gift else xs[i]
    {
      row := row[s := row[s] + gift];
    }
  }

  /** The matrix by the shares, entry by entry. */
  ghost predicate Transferred(source: seq<ByteRange>, target: seq<ByteRange>, pivot: Alignment, remapped: Alignment) {
    && Shaped(pivot, |pivot|, |target|) && Shaped(remapped, |pivot|, |source|)
    && forall t, s :: 0 <= t < |pivot| && 0 <= s < |source| ==>
         remapped[t][s] == Mix(pivot[t], Shares(source, target, |target|), s, |target|)
  }

  lemma SweptBytes(source: seq<ByteRange>, target: seq<ByteRange>, from: nat, to: nat, s: nat, q: nat, qt: nat)
    requires Tiles(source, from, to) && Tiles(target, from, to) && s < |source| && q < |target|
    requires if EndsEmpty(source) then qt == |target| else true
    ensures Moved(source, target, s, q, to, qt) ==
            if target[q].begin < target[q].end || EndsEmpty(source) then Weight(source, target, s, q) else 0.0
  {
    TilesInOrder(target, from, to, q, |target|);
    TilesInOrder(source, from, to, s, |source|);
  }

  lemma AllTransferred(source: seq<ByteRange>, target: seq<ByteRange>, from: nat, to: nat, pivot: Alignment,
                       remapped: Alignment)
    requires Tiles(source, from, to) && Tiles(target, from, to) && EndsEmpty(target) && EndsEmpty(source)
    requires Transferring(source, target, pivot, to, |target|, remapped)
    ensures Transferred(source, target, pivot, remapped)
  {
    var m, m' := MovedRows(source, target, to, |target|, |target|), Shares(source, target, |target|);
    forall q: nat, s: nat | q < |target| && s < |source| ensures m[q][s] == m'[q][s] {
      MovedAt(source, target, to, |target|, |target|, q, s);
      ShareAt(source, target, q, s);
      SweptBytes(source, target, from, to, s, q, |target|);
    }
    forall t: nat, s: nat | t < |pivot| && s < |source| ensures remapped[t][s] == Mix(pivot[t], m', s, |target|) {
      MixSame(pivot[t], m, m', s, |target|);
    }
  }

  lemma GiftTransferred(source: seq<ByteRange>, target: seq<ByteRange>, from: nat, to: nat, pivot: Alignment,
                        remapped: Alignment, remapped': Alignment, part: real)
    requires Tiles(source, from, to) && Tiles(target, from, to) && EndsEmpty(target) && !EndsEmpty(source)
    requires Transferring(source, target, pivot, to, |target| - 1, remapped) && Shaped(remapped', |pivot|, |source|)
    requires part == 1.0 / |source| as real && Given(pivot, |target| - 1, remapped, part, remapped')
    ensures Transferred(source, target, pivot, remapped')
  {
    var n := |target| - 1;
    var m, m' := MovedRows(source, target, to, n, |target|), Shares(source, target, |target|);
    forall q: nat, s: nat | q < |target| && s < |source|
      ensures m'[q][s] == if q == n then m[q][s] + part else m[q][s] {
      MovedAt(source, target, to, n, |target|, q, s);
      ShareAt(source, target, q, s);
      SweptBytes(source, target, from, to, s, q, n);
    }
    GivenStep(pivot, m, m', remapped, |source|, n, part, remapped');
  }

  lemma GivenStep(pivot: Alignment, m: Alignment, m': Alignment, remapped: Alignment, columns: nat, n: nat, part: real,
                  remapped': Alignment)
    requires Shaped(pivot, |pivot|, |m|) && Shaped(m, |m|, columns) && Shaped(m', |m|, columns)
    requires Shaped(remapped, |pivot|, columns) && Shaped(remapped', |pivot|, columns) && n < |m|
    requires Given(pivot, n, remapped, part, remapped')
    requires forall q, s :: 0 <= q < |m| && 0 <= s < columns ==> m'[q][s] == if q == n then m[q][s] + part else m[q][s]
    requires forall t, s :: 0 <= t < |pivot| && 0 <= s < columns ==> remapped[t][s] == Mix(pivot[t], m, s, |m|)
    ensures forall t, s :: 0 <= t < |pivot| && 0 <= s < columns ==> remapped'[t][s] == Mix(pivot[t], m', s, |m|)
  {
    forall t: nat, s: nat | t < |pivot| && s < columns ensures remapped'[t][s] == Mix(pivot[t], m', s, |m|) {
      MixOne(pivot[t], m, m', s, |m|, n, part);
    }
  }

  method SweepMatch(source: seq<ByteRange>, target: seq<ByteRange>, pivot: Alignment, ghost from: nat, ghost to: nat,
                    sq: nat, qt: nat, ghost pos: nat, remapped: Alignment)
    returns (remapped': Alignment)
    requires Standing(source, target, from, to, sq, qt, pos) && sq < |source| && qt < |target|
    requires source[sq] == target[qt]
    requires Transferring(source, target, pivot, pos, qt, remapped)
    ensures Transferring(source, target, pivot, source[sq].end, qt + 1, remapped')
  {
    BytesOfMatch(source, target, from, to, sq, qt, pos);
    remapped' := Collect(remapped, sq, pivot, qt, 1.0, 1.0, 1.0);
    TransferringStep(source, target, pivot, pos, qt, remapped, source[sq].end, qt + 1, sq, qt, 1.0, remapped');
  }

  /** One turn of the sweep: a perfect match, or an overlap. */
  method Sweep(source: seq<ByteRange>, target: seq<ByteRange>, pivot: Alignment, ghost from: nat, ghost to: nat,
               sq: nat, qt: nat, ghost pos: nat, remapped: Alignment)
    returns (sq': nat, qt': nat, ghost pos': nat, remapped': Alignment)
    requires Standing(source, target, from, to, sq, qt, pos) && sq < |source| && qt < |target|
    requires Transferring(source, target, pivot, pos, qt, remapped)
    ensures Standing(source, target, from, to, sq', qt', pos') && sq <= sq' && qt <= qt' && sq + qt < sq' + qt'
    ensures Transferring(source, target, pivot, pos', qt', remapped')
  {
    var a, b := source[sq], target[qt];
    if a.begin == b.begin && a.end == b.end {
      remapped' := SweepMatch(source, target, pivot, from, to, sq, qt, pos, remapped);
      StandingBoth(source, target, from, to, sq, qt, pos);
      pos', sq', qt' := a.end, sq + 1, qt + 1;
    } else {
      var left, right := Max(b.begin, a.begin), Min(b.end, a.end);
      MustOverlap(source, target, from, to, sq, qt, pos);
      assert left < right;
      remapped' := SweepOverlap(source, target, pivot, from, to, sq, qt, pos, right, remapped);
      if a.end == b.end {
        StandingBoth(source, target, from, to, sq, qt, pos);
        sq', qt' := sq + 1, qt + 1;
      } else if a.end > b.end {
        StandingOne(source, target, from, to, sq, qt, pos);
        sq', qt' := sq, qt + 1;
      } else {
        StandingOne(source, target, from, to, sq, qt, pos);
        sq', qt' := sq + 1, qt;
      }
      pos' := right;
    }
  }

  method SweepOverlap(source: seq<ByteRange>, target: seq<ByteRange>, pivot: Alignment, ghost from: nat, ghost to: nat,
                      sq: nat, qt: nat, ghost pos: nat, right: nat, remapped: Alignment)
    returns (remapped': Alignment)
    requires Standing(source, target, from, to, sq, qt, pos) && sq < |source| && qt < |target|
    requires source[sq] != target[qt]
    requires Transferring(source, target, pivot, pos, qt, remapped)
    requires right == Min(target[qt].end, source[sq].end)
    ensures Transferring(source, target, pivot, right,
                         if source[sq].end >= target[qt].end then qt + 1 else qt, remapped')
  {
    var left := Max(target[qt].begin, source[sq].begin);
    MustOverlap(source, target, from, to, sq, qt, pos);
    ghost var next := if source[sq].end >= target[qt].end then qt + 1 else qt;
    ghost var share := (right - left) as real / target[qt].Size() as real;
    BytesMove(source, target, from, to, sq, qt, pos, right, next);
    remapped' := Collect(remapped, sq, pivot, qt, (right - left) as real, target[qt].Size() as real, share);
    TransferringStep(source, target, pivot, pos, qt, remapped, right, next, sq, qt, share, remapped');
  }

  /** Two pointers sweep over both tokenisations of one text. Every entry ends up as the declared shares say, so each
      row keeps its total, and every source-side token is reached. */
  method TransferThroughCharacters(source: seq<ByteRange>, target: seq<ByteRange>, pivot: Alignment, ghost from: nat,
                                   ghost to: nat)
    returns (remapped: Alignment)
    requires Tiles(source, from, to) && Tiles(target, from, to) && EndsEmpty(target) && Shaped(pivot, |pivot|, |target|)
    ensures Transferred(source, target, pivot, remapped)
    ensures forall t :: 0 <= t < |pivot| ==> Sum(remapped[t]) == Sum(pivot[t])
  {
    remapped := Zeros(|pivot|, |source|);
    TransferringStart(source, target, from, to, pivot, remapped);
    var sq: nat, qt: nat := 0, 0;
    ghost var pos: nat := from;
    while sq < |source| && qt < |target|
      invariant Standing(source, target, from, to, sq, qt, pos)
      invariant Transferring(source, target, pivot, pos, qt, remapped)
      decreases |source| + |target| - sq - qt
    {
      sq, qt, pos, remapped := Sweep(source, target, pivot, from, to, sq, qt, pos, remapped);
    }
    SweepEnds(source, target, from, to, sq, qt, pos);
    assert sq == |source|;
    if qt < |target| {
      assert qt == |target| - 1 && target[qt].Size() == 0;
      ghost var before := remapped;
      ghost var part := 1.0 / |source| as real;
      remapped := Gift(source, pivot, qt, remapped, part);
      GiftTransferred(source, target, from, to, pivot, before, remapped, part);
    } else {
      AllTransferred(source, target, from, to, pivot, remapped);
    }
    RowsKeepSum(source, target, from, to, pivot, remapped);
  }

  lemma RowsKeepSum(source: seq<ByteRange>, target: seq<ByteRange>, from: nat, to: nat, pivot: Alignment,
                    remapped: Alignment)
    requires Tiles(source, from, to) && Tiles(target, from, to) && Transferred(source, target, pivot, remapped)
    ensures forall t :: 0 <= t < |pivot| ==> Sum(remapped[t]) == Sum(pivot[t])
    ensures forall t :: 0 <= t < |pivot| && Nonnegative(pivot[t]) ==> Nonnegative(remapped[t])
  {
    var n, m := |target|, Shares(source, target, |target|);
    forall q: nat | q < n ensures |m[q]| == |source| && Stochastic(m[q]) {
      SharesAt(source, target, n, q);
      SharesStochastic(source, target, from, to, q);
    }
    forall t: nat | t < |pivot|
      ensures Sum(remapped[t]) == Sum(pivot[t]) && (Nonnegative(pivot[t]) ==> Nonnegative(remapped[t]))
    {
      MixKeepsSum(pivot[t], m, n, |source|, remapped[t]);
      assert pivot[t][..n] == pivot[t];
      if Nonnegative(pivot[t]) {
        forall s: nat | s < |source| ensures remapped[t][s] >= 0.0 { MixNonnegative(pivot[t], m, s, n); }
      }
    }
  }

  // ---- Marginalising the pivot ----

  /** One row times the matrix, accumulated entry by entry. */
  method MarginalizeRow(row: seq<real>, sourceGivenPivots: Alignment, columns: nat) returns (output: seq<real>)
    requires |row| == |sourceGivenPivots| && Shaped(sourceGivenPivots, |row|, columns)
    ensures |output| == columns && forall s :: 0 <= s < columns ==> output[s] == Mix(row, sourceGivenPivots, s, |row|)
  {
    output := [];
    for s := 0 to columns
      invariant |output| == s && forall i :: 0 <= i < s ==> output[i] == 0.0
    {
      output := output + [0.0];
    }
    for q := 0 to |row|
      invariant |output| == columns && forall s :: 0 <= s < columns ==> output[s] == Mix(row, sourceGivenPivots, s, q)
    {
      ghost var before := output;
      for s := 0 to columns
        invariant |output| == columns
        invariant forall i :: 0 <= i < columns ==>
                  output[i] == if i < s then Mix(row, sourceGivenPivots, i, q + 1) else before[i]
      {
        output := output[s := output[s] + sourceGivenPivots[q][s] * row[q]];
      }
    }
  }

  /** A pivot sentence: its tokens as either model sees them, and both models' alignments. */
  datatype PivotSentence = PivotSentence(sourceWords: nat, sourceSide: seq<ByteRange>, targetSide: seq<ByteRange>,
                                         sourceGivenPivots: Alignment, pivotGivenTargets: Alignment)
  {
    ghost predicate Valid() {
      && targetSide != [] && EndsEmpty(targetSide)
      && Tiles(targetSide, targetSide[0].begin, targetSide[|targetSide| - 1].end)
      && Tiles(sourceSide, targetSide[0].begin, targetSide[|targetSide| - 1].end)
      && Shaped(sourceGivenPivots, |sourceSide|, sourceWords)
         && Shaped(pivotGivenTargets, |pivotGivenTargets|, |targetSide|)
    }

    ghost predicate Distributions() {
      && (forall q :: 0 <= q < |sourceGivenPivots| ==> Stochastic(sourceGivenPivots[q]))
      && (forall t :: 0 <= t < |pivotGivenTargets| ==> Stochastic(pivotGivenTargets[t]))
    }
  }

  /** The alignment obtained by spreading the second model's rows over the first one's tokens and mixing its rows. */
  ghost predicate Remapped(p: PivotSentence, output: Alignment) {
    && p.Valid() && Shaped(output, |p.pivotGivenTargets|, p.sourceWords)
    && exists spread: Alignment ::
         && Transferred(p.sourceSide, p.targetSide, p.pivotGivenTargets, spread)
         && MixedRows(p.sourceGivenPivots, spread, output, p.sourceWords)
  }

  ghost predicate MixedRows(m: Alignment, rows: Alignment, output: Alignment, columns: nat) {
    && |output| == |rows| && Shaped(rows, |rows|, |m|) && Shaped(m, |m|, columns) && Shaped(output, |rows|, columns)
    && forall t, s :: 0 <= t < |rows| && 0 <= s < columns ==> output[t][s] == Mix(rows[t], m, s, |m|)
  }

  lemma RemappedStochastic(p: PivotSentence, output: Alignment)
    requires Remapped(p, output) && p.Distributions()
    ensures forall t :: 0 <= t < |output| ==> Stochastic(output[t])
  {
    var spread: Alignment :|
      && Transferred(p.sourceSide, p.targetSide, p.pivotGivenTargets, spread)
      && MixedRows(p.sourceGivenPivots, spread, output, p.sourceWords);
    var n := |p.sourceGivenPivots|;
    RowsKeepSum(p.sourceSide, p.targetSide, p.targetSide[0].begin, p.targetSide[|p.targetSide| - 1].end,
                p.pivotGivenTargets, spread);
    forall t: nat | t < |output| ensures Stochastic(output[t]) {
      assert Stochastic(p.pivotGivenTargets[t]);
      MixKeepsSum(spread[t], p.sourceGivenPivots, n, p.sourceWords, output[t]);
      assert spread[t][..n] == spread[t];
      forall s: nat | s < p.sourceWords ensures output[t][s] >= 0.0 {
        MixNonnegative(spread[t], p.sourceGivenPivots, s, n);
      }
    }
  }

  method RemapSentence(p: PivotSentence) returns (output: Alignment)
    requires p.Valid()
    ensures Remapped(p, output)
  {
    var spread := TransferThroughCharacters(p.sourceSide, p.targetSide, p.pivotGivenTargets,
                                            p.targetSide[0].begin, p.targetSide[|p.targetSide| - 1].end);
    output := [];
    for t := 0 to |spread|
      invariant |output| == t && MixedRows(p.sourceGivenPivots, spread[..t], output, p.sourceWords)
    {
      var row := MarginalizeRow(spread[t], p.sourceGivenPivots, p.sourceWords);
      output := output + [row];
    }
    assert spread[..|spread|] == spread;
  }

  /** Whatever both models' alignments, distributions stay distributions. */
  method RemapAlignments(sentences: seq<PivotSentence>) returns (alignments: seq<Alignment>)
    requires forall i :: 0 <= i < |sentences| ==> sentences[i].Valid()
    ensures |alignments| == |sentences| && forall i :: 0 <= i < |sentences| ==> Remapped(sentences[i], alignments[i])
    ensures forall i :: 0 <= i < |sentences| && sentences[i].Distributions() ==>
              forall t :: 0 <= t < |alignments[i]| ==> Stochastic(alignments[i][t])
  {
    alignments := [];
    for i := 0 to |sentences|
      invariant |alignments| == i && forall j :: 0 <= j < i ==> Remapped(sentences[j], alignments[j])
    {
      var output := RemapSentence(sentences[i]);
      alignments := alignments + [output];
    }
    forall i | 0 <= i < |sentences| && sentences[i].Distributions()
      ensures forall t :: 0 <= t < |alignments[i]| ==> Stochastic(alignments[i][t])
    {
      RemappedStochastic(sentences[i], alignments[i]);
    }
  }
}
