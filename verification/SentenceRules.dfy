/** The sentence boundary rules of UAX #29, section 5.1, and the one-pass automaton that decides them. */
module SentenceRules {

  /** Values of the Sentence_Break property. */
  datatype Kind =
    | Other | CR | LF | Extend | Sep | Format | Sp | Lower | Upper | OLetter
    | Numeric | ATerm | STerm | Close | SContinue

  predicate Ignored(k: Kind) { k == Extend || k == Format }

  predicate Separator(k: Kind) { k == CR || k == LF || k == Sep }

  predicate Space(k: Kind) { k == Sp || Separator(k) }

  predicate Letter(k: Kind) { k == Upper || k == Lower || k == OLetter }

  predicate Term(k: Kind) { k == ATerm || k == STerm }

  // ---- The rules ----

  /** SB5: Extend and Format characters count only at the start of text and behind a paragraph separator. */
  predicate Kept(ks: seq<Kind>, i: nat)
    requires i < |ks|
  {
    i == 0 || Separator(ks[i - 1]) || !Ignored(ks[i])
  }

  function Effective(ks: seq<Kind>): (eff: seq<Kind>)
    ensures ks != [] ==> eff != []
  {
    if ks == [] then [] else Effective(ks[..|ks| - 1]) + LastKept(ks)
  }

  function LastKept(ks: seq<Kind>): (last: seq<Kind>)
    requires ks != []
    ensures |ks| == 1 ==> last != []
  {
    if Kept(ks, |ks| - 1) then [ks[|ks| - 1]] else []
  }

  /** The text ends in the terminator at `t`, then Close* up to `c`, then Sp*. */
  ghost predicate AfterTerm(eff: seq<Kind>, t: nat, c: nat) {
    && t < c <= |eff| && Term(eff[t])
    && (forall k :: t < k < c ==> eff[k] == Close)
    && (forall k :: c <= k < |eff| ==> eff[k] == Sp)
  }

  predicate Stops(k: Kind) { Letter(k) || Separator(k) || Term(k) }

  /** ( ¬(OLetter | Upper | Lower | ParaSep | SATerm) )* Lower. Ignored characters are among those it skips. */
  ghost predicate LowerFollows(right: seq<Kind>) {
    exists j :: 0 <= j < |right| && right[j] == Lower && forall k :: 0 <= k < j ==> !Stops(right[k])
  }

  /** Lower case follows exactly if the first letter, separator or terminator that follows is in lower case. */
  lemma {:induction false} LowerFollowsIs(right: seq<Kind>)
    ensures LowerFollows(right) <==>
            exists j :: 0 <= j < |right| && right[j] == Lower &&
              forall k :: 0 <= k < j ==> right[k] !in {OLetter, Upper, Lower, CR, LF, Sep, ATerm, STerm}
  {
    assert forall k: Kind :: Stops(k) <==> k in {OLetter, Upper, Lower, CR, LF, Sep, ATerm, STerm};
  }

  ghost predicate TermBefore(eff: seq<Kind>) { exists t: nat, c: nat :: AfterTerm(eff, t, c) }

  ghost predicate DotBefore(eff: seq<Kind>) { exists t: nat, c: nat :: AfterTerm(eff, t, c) && eff[t] == ATerm }

  ghost predicate TermAndCloseBefore(eff: seq<Kind>) { exists t: nat :: AfterTerm(eff, t, |eff|) }

  ghost predicate TermAndSeparatorBefore(eff: seq<Kind>) {
    eff != [] && Separator(eff[|eff| - 1]) && TermBefore(eff[..|eff| - 1])
  }

  /** Whether there is a boundary between `left` and `right`: the first rule that applies decides. */
  ghost predicate Break(left: seq<Kind>, right: seq<Kind>)
    requires left != [] && right != []
  {
    var prev, next, eff := left[|left| - 1], right[0], Effective(left);
    var n := |eff|;
    if prev == CR && next == LF then false                                                // SB3
    else if Separator(prev) then true                                                     // SB4
    else if Ignored(next) then false                                                      // SB5
    else if eff[n - 1] == ATerm && next == Numeric then false                             // SB6
    else if n >= 2 && (eff[n - 2] == Upper || eff[n - 2] == Lower) && eff[n - 1] == ATerm && next == Upper then
      false                                                                               // SB7
    else if DotBefore(eff) && LowerFollows(right) then false                              // SB8
    else if TermBefore(eff) && (next == SContinue || Term(next)) then false               // SB8a
    else if TermAndCloseBefore(eff) && (next == Close || Space(next)) then false          // SB9
    else if TermBefore(eff) && Space(next) then false                                     // SB10
    else TermBefore(eff) || TermAndSeparatorBefore(eff)                                   // SB11, SB998
  }

  // ---- The automaton ----

  /** What the scan remembers of the text behind it. `followedByLower` was looked up when the terminator was passed. */
  datatype Scan = Scan(last: Kind, beforeLast: Kind, rawLast: Kind, active: bool, afterSpace: bool, dotTail: bool,
                       followedByLower: bool)

  const START := Scan(Other, Other, Other, false, false, false, false)

  predicate Cuts(s: Scan, p: Kind) {
    if s.rawLast == CR && p == LF then false
    else if Separator(s.rawLast) then true
    else if Ignored(p) then false
    else if s.last == ATerm && p == Numeric then false
    else if s.last == ATerm && (s.beforeLast == Upper || s.beforeLast == Lower) && p == Upper then false
    else if s.active && s.dotTail && s.followedByLower then false
    else if s.active && (p == SContinue || Term(p)) then false
    else if s.active && !s.afterSpace && (p == Close || p == Sp || Separator(p)) then false
    else if s.active && (p == Sp || Separator(p)) then false
    else s.active
  }

  function Next(s: Scan, p: Kind, lowerAhead: bool): Scan {
    var s' :=
      if Ignored(p) && !Separator(s.rawLast) then s
      else
        var t :=
          if Term(p) then
            s.(active := true, afterSpace := false, dotTail := p == ATerm, followedByLower := p == ATerm && lowerAhead)
          else if s.active && (p == Sp || (p == Close && !s.afterSpace)) then s.(afterSpace := s.afterSpace || p == Sp)
          else s.(active := false);
        t.(beforeLast := s.last, last := p);
    s'.(rawLast := p)
  }

  /** `k` is the `n`th kind from the end, as far as the rules can tell. */
  predicate Stands(k: Kind, eff: seq<Kind>, n: nat)
    requires n > 0
  {
    if |eff| < n then k == Other else k == eff[|eff| - n] || (k == Other && Ignored(eff[|eff| - n]))
  }

  /** The scan state says what the rules ask about the text before a position. */
  ghost predicate Means(s: Scan, left: seq<Kind>, right: seq<Kind>) {
    var eff := Effective(left);
    && s.rawLast == (if left == [] then Other else left[|left| - 1])
    && Stands(s.last, eff, 1) && Stands(s.beforeLast, eff, 2)
    && Tells(s, eff, right)
  }

  ghost predicate Tells(s: Scan, eff: seq<Kind>, right: seq<Kind>) {
    && (s.active <==> TermBefore(eff))
    && forall t: nat, c: nat :: AfterTerm(eff, t, c) ==>
         && (s.afterSpace <==> c < |eff|) && (s.dotTail <==> eff[t] == ATerm)
         && (s.dotTail ==> (s.followedByLower <==> LowerFollows(right)))
  }

  lemma {:induction false} SeparatorLast(left: seq<Kind>)
    requires left != []
    ensures var eff := Effective(left); Separator(eff[|eff| - 1]) ==> Separator(left[|left| - 1])
  {
    var n := |left| - 1;
    if !Kept(left, n) {
      SeparatorLast(left[..n]);
    }
  }

  lemma TellsMore(s: Scan, eff: seq<Kind>, right: seq<Kind>)
    requires Tells(s, eff, right)
    ensures DotBefore(eff) && LowerFollows(right) <==> s.active && s.dotTail && s.followedByLower
    ensures TermAndCloseBefore(eff) <==> s.active && !s.afterSpace
  {
    if s.active {
      var t: nat, c: nat :| AfterTerm(eff, t, c);
      if !s.afterSpace { assert AfterTerm(eff, t, |eff|); }
    }
  }

  /** The automaton cuts exactly where the rules put a boundary. */
  lemma CutIffBreak(s: Scan, left: seq<Kind>, right: seq<Kind>)
    requires left != [] && right != [] && Means(s, left, right)
    ensures Cuts(s, right[0]) <==> Break(left, right)
  {
    var eff := Effective(left);
    TellsMore(s, eff, right);
    LastTwo(s, eff);
    SeparatedLast(left);
    CutIffRules(s, left, right, DotBefore(eff) && LowerFollows(right), TermBefore(eff), TermAndCloseBefore(eff),
                TermAndSeparatorBefore(eff));
  }

  /** The last two kinds are those rules SB6 and SB7 ask for. */
  lemma LastTwo(s: Scan, eff: seq<Kind>)
    requires eff != [] && Stands(s.last, eff, 1) && Stands(s.beforeLast, eff, 2)
    ensures Behind(s, eff)
  {}

  lemma {:induction false} SeparatedLast(left: seq<Kind>)
    requires left != []
    ensures TermAndSeparatorBefore(Effective(left)) ==> Separator(left[|left| - 1])
  {
    SeparatorLast(left);
  }

  predicate Behind(s: Scan, eff: seq<Kind>)
    requires eff != []
  {
    var n := |eff|;
    && (s.last == ATerm <==> eff[n - 1] == ATerm)
    && (s.beforeLast == Upper || s.beforeLast == Lower <==> n >= 2 && (eff[n - 2] == Upper || eff[n - 2] == Lower))
  }

  lemma {:induction false} CutIffRules(s: Scan, left: seq<Kind>, right: seq<Kind>, dot: bool, term: bool, close: bool,
                                       separated: bool)
    requires left != [] && right != [] && s.rawLast == left[|left| - 1] && Behind(s, Effective(left))
    requires dot == (DotBefore(Effective(left)) && LowerFollows(right)) && term == TermBefore(Effective(left))
    requires close == TermAndCloseBefore(Effective(left)) && separated == TermAndSeparatorBefore(Effective(left))
    requires s.active == term && (dot <==> s.active && s.dotTail && s.followedByLower)
    requires close <==> s.active && !s.afterSpace
    requires separated ==> Separator(s.rawLast)
    ensures Cuts(s, right[0]) <==> Break(left, right)
  {}

  lemma SkipsLower(right: seq<Kind>)
    requires right != [] && !Stops(right[0])
    ensures LowerFollows(right) <==> LowerFollows(right[1..])
  {
    if LowerFollows(right) {
      var j :| 0 <= j < |right| && right[j] == Lower && forall k :: 0 <= k < j ==> !Stops(right[k]);
      assert right[1..][j - 1] == Lower;
      forall k | 0 <= k < j - 1 ensures !Stops(right[1..][k]) { assert right[1..][k] == right[k + 1]; }
    }
    if LowerFollows(right[1..]) {
      var j :| 0 <= j < |right[1..]| && right[1..][j] == Lower && forall k :: 0 <= k < j ==> !Stops(right[1..][k]);
      assert right[j + 1] == Lower;
      forall k | 0 <= k < j + 1 ensures !Stops(right[k]) { if k > 0 { assert right[k] == right[1..][k - 1]; } }
    }
  }

  /** How one more kind moves the reading of the text before it. */
  lemma AfterTermMore(eff: seq<Kind>, p: Kind, t: nat, c: nat)
    ensures AfterTerm(eff + [p], t, c) <==>
            || (t == |eff| && c == |eff| + 1 && Term(p))
            || (p == Sp && c <= |eff| && AfterTerm(eff, t, c))
            || (p == Close && c == |eff| + 1 && AfterTerm(eff, t, |eff|))
  {
    var more := eff + [p];
    assert more[|eff|] == p;
    assert forall k :: 0 <= k < |eff| ==> more[k] == eff[k];
  }

  lemma TellsNext(s: Scan, eff: seq<Kind>, right: seq<Kind>)
    requires right != [] && Tells(s, eff, right) && !(Ignored(right[0]) && !Separator(s.rawLast))
    ensures Tells(Next(s, right[0], LowerFollows(right[1..])), eff + [right[0]], right[1..])
  {
    var p, more := right[0], eff + [right[0]];
    var s' := Next(s, p, LowerFollows(right[1..]));
    if p == Sp || p == Close { SkipsLower(right); }
    forall t: nat, c: nat | AfterTerm(more, t, c)
      ensures s'.active && (s'.afterSpace <==> c < |more|) && (s'.dotTail <==> more[t] == ATerm)
      ensures s'.dotTail ==> (s'.followedByLower <==> LowerFollows(right[1..]))
    {
      AfterTermMore(eff, p, t, c);
    }
    if s'.active && !Term(p) {
      var t: nat, c: nat :| AfterTerm(eff, t, c);
      var c' := if p == Sp then c else |eff| + 1;
      AfterTermMore(eff, p, t, c');
      assert AfterTerm(more, t, c');
    } else if s'.active {
      AfterTermMore(eff, p, |eff|, |eff| + 1);
      assert AfterTerm(more, |eff|, |eff| + 1);
    }
  }

  lemma EffectiveMore(left: seq<Kind>, p: Kind)
    ensures Effective(left + [p]) == Effective(left) + LastKept(left + [p])
  {
    var more := left + [p];
    assert more[..|left|] == left;
  }

  lemma LastKeptIs(left: seq<Kind>, p: Kind)
    ensures LastKept(left + [p]) == if left != [] && !Separator(left[|left| - 1]) && Ignored(p) then [] else [p]
  {}

  /** An ignored character: at the start of text it counts, but as nothing the rules look for. */
  lemma TellsIgnored(s: Scan, eff: seq<Kind>, right: seq<Kind>)
    requires right != [] && Tells(s, eff, right) && Ignored(right[0])
    ensures Tells(s.(rawLast := right[0]), eff, right[1..])
    ensures eff == [] ==> Tells(s.(rawLast := right[0]), [right[0]], right[1..])
  {
    SkipsLower(right);
    if eff == [] {
      forall t: nat, c: nat ensures !AfterTerm([right[0]], t, c) {}
      forall t: nat, c: nat ensures !AfterTerm([], t, c) {}
    }
  }

  /** Looking ahead once per terminator keeps the state's meaning from one position to the next. */
  lemma NextMeans(s: Scan, left: seq<Kind>, right: seq<Kind>)
    requires right != [] && Means(s, left, right)
    ensures Means(Next(s, right[0], LowerFollows(right[1..])), left + [right[0]], right[1..])
  {
    var p, eff := right[0], Effective(left);
    var s' := Next(s, p, LowerFollows(right[1..]));
    EffectiveMore(left, p);
    LastKeptIs(left, p);
    if Ignored(p) && !Separator(s.rawLast) {
      TellsIgnored(s, eff, right);
      if left == [] {
        assert eff + [p] == [p];
      } else {
        assert eff + [] == eff;
      }
    } else {
      TellsNext(s, eff, right);
      StandsNext(s, eff, p, LowerFollows(right[1..]));
    }
  }

  lemma StandsNext(s: Scan, eff: seq<Kind>, p: Kind, ahead: bool)
    requires Stands(s.last, eff, 1) && Stands(s.beforeLast, eff, 2) && !(Ignored(p) && !Separator(s.rawLast))
    ensures var s' := Next(s, p, ahead); Stands(s'.last, eff + [p], 1) && Stands(s'.beforeLast, eff + [p], 2)
  {}

  lemma StartMeans(right: seq<Kind>)
    ensures Means(START, [], right)
  {}

  // ---- From one end of the text to the other ----

  /** The state after the first `n` characters, each terminator looked up against all that follows it. */
  ghost function ScanOf(ks: seq<Kind>, n: nat): Scan
    requires n <= |ks|
  {
    if n == 0 then START else Next(ScanOf(ks, n - 1), ks[n - 1], LowerFollows(ks[n..]))
  }

  lemma {:induction false} ScanMeans(ks: seq<Kind>, n: nat)
    requires n <= |ks|
    ensures Means(ScanOf(ks, n), ks[..n], ks[n..])
  {
    if n > 0 {
      ScanMeans(ks, n - 1);
      assert ks[n - 1..][1..] == ks[n..] && ks[..n - 1] + [ks[n - 1..][0]] == ks[..n];
      NextMeans(ScanOf(ks, n - 1), ks[..n - 1], ks[n - 1..]);
    } else {
      assert ks[..0] == [];
      StartMeans(ks[0..]);
    }
  }

  /** For every sequence of kinds and every position in it, the one-pass decision is the rules' decision. */
  lemma ScanRefinesRules(ks: seq<Kind>, n: nat)
    requires 0 < n < |ks|
    ensures Cuts(ScanOf(ks, n), ks[n]) <==> Break(ks[..n], ks[n..])
  {
    ScanMeans(ks, n);
    CutIffBreak(ScanOf(ks, n), ks[..n], ks[n..]);
  }
}
