/**
 What the CRTC search is after: feasible assignments, their score, and the order that decides
 between equal scores. Everything here is about values; the search itself works on the records.
 */
module CrtcSearch {
  import opened RandR

  /** A CRTC as the server reported it. */
  datatype Head = Head(xid: Xid, config: CrtcConfig)

  /** An output as the search sees it; `current` is the CRTC it would rather keep. */
  datatype Want = Want(xid: Xid, mode: Option<Mode>, x: int, y: int, rotation: Rotation,
                       crtcs: seq<Xid>, clones: seq<Xid>, current: Option<nat>)

  datatype Problem = Problem(heads: seq<Head>, modes: seq<Mode>, wants: seq<Want>)

  /** No CRTC, or a CRTC's place in the array. */
  type Choice = Option<nat>

  ghost predicate DistinctHeads(p: Problem) {
    forall i, j :: 0 <= i < j < |p.heads| ==> p.heads[i].xid != p.heads[j].xid
  }

  /** A CRTC already in use must be in exactly the state the output asks for. */
  predicate StateMatches(p: Problem, k: nat, c: nat)
    requires k < |p.wants| && c < |p.heads|
  {
    var config, want := p.heads[c].config, p.wants[k];
    config.outputs != [] ==>
      && FindMode(p.modes, config.mode) == want.mode
      && config.x == want.x && config.y == want.y && config.rotation == want.rotation
  }

  /** Output `j`, when it is on and on CRTC `c`, is one that output `k` can share a CRTC with. */
  predicate CanShare(p: Problem, k: nat, c: nat, j: nat, a: Choice)
    requires k < |p.wants| && j < |p.wants|
  {
    p.wants[j].mode.Some? && a == Some(c) ==> p.wants[j].xid in p.wants[k].clones
  }

  /** CRTC `c` may drive output `k` beside the choices `a` of the first |a| outputs. */
  ghost predicate Usable(p: Problem, k: nat, c: nat, a: seq<Choice>)
    requires k < |p.wants| && |a| <= |p.wants|
  {
    && c < |p.heads| && p.heads[c].xid in p.wants[k].crtcs
    && (forall j :: 0 <= j < |a| && j != k ==> CanShare(p, k, c, j, a[j]))
    && StateMatches(p, k, c)
  }

  /** The choice `ch` for the output after `pre`: off, or lit by a usable CRTC. */
  ghost predicate ChoiceOk(p: Problem, pre: seq<Choice>, ch: Choice)
    requires |pre| < |p.wants|
  {
    ch.Some? ==> p.wants[|pre|].mode.Some? && Usable(p, |pre|, ch.value, pre)
  }

  /** `suf` completes the choices `pre` made for the earlier outputs. */
  ghost predicate Completes(p: Problem, pre: seq<Choice>, suf: seq<Choice>)
    requires |pre| + |suf| == |p.wants|
    decreases |suf|
  {
    suf == [] || (ChoiceOk(p, pre, suf[0]) && Completes(p, pre + [suf[0]], suf[1..]))
  }

  /** A whole assignment each of whose choices fits the choices before it. */
  ghost predicate Feasible(p: Problem, a: seq<Choice>) {
    |a| == |p.wants| && forall k :: 0 <= k < |a| ==> ChoiceOk(p, a[..k], a[k])
  }

  function Weight(p: Problem, k: nat, ch: Choice): nat
    requires k < |p.wants|
  {
    if ch.None? then 0 else if ch == p.wants[k].current then 1001 else 1000
  }

  function Score(p: Problem, k: nat, suf: seq<Choice>): nat
    requires k + |suf| == |p.wants|
    decreases |suf|
  {
    if suf == [] then 0 else Weight(p, k, suf[0]) + Score(p, k + 1, suf[1..])
  }

  /** The order in which the search tries the choices of one output: off, then its CRTC list. */
  function Rank(p: Problem, k: nat, ch: Choice): nat
    requires k < |p.wants|
  {
    if ch.Some? && ch.value < |p.heads| then 1 + IndexOf(p.wants[k].crtcs, p.heads[ch.value].xid) else 0
  }

  /** `s` is tried no later than `t`. */
  ghost predicate NoLater(p: Problem, k: nat, s: seq<Choice>, t: seq<Choice>)
    requires k + |s| == |p.wants| && |s| == |t|
    decreases |s|
  {
    || s == []
    || Rank(p, k, s[0]) < Rank(p, k, t[0])
    || (s[0] == t[0] && NoLater(p, k + 1, s[1..], t[1..]))
  }

  /** `s` is worth more than `t`, or as much and tried no later. */
  ghost predicate Beats(p: Problem, k: nat, s: seq<Choice>, t: seq<Choice>)
    requires k + |s| == |p.wants| && |s| == |t|
  {
    Score(p, k, s) > Score(p, k, t) || (Score(p, k, s) == Score(p, k, t) && NoLater(p, k, s, t))
  }

  /** The best completion of `pre`: highest score, and first among the highest. */
  ghost predicate IsBest(p: Problem, pre: seq<Choice>, suf: seq<Choice>)
    requires |pre| + |suf| == |p.wants|
  {
    && Completes(p, pre, suf)
    && forall other {:trigger Beats(p, |pre|, suf, other)} ::
         |pre| + |other| == |p.wants| && Completes(p, pre, other) ==> Beats(p, |pre|, suf, other)
  }

  lemma {:induction false} NoLaterAntisymmetric(p: Problem, pre: seq<Choice>, s: seq<Choice>, t: seq<Choice>)
    requires DistinctHeads(p)
    requires |pre| + |s| == |p.wants| && |s| == |t|
    requires Completes(p, pre, s) && Completes(p, pre, t)
    requires NoLater(p, |pre|, s, t) && NoLater(p, |pre|, t, s)
    ensures s == t
    decreases |s|
  {
    if s != [] {
      NoLaterAntisymmetric(p, pre + [s[0]], s[1..], t[1..]);
      assert s == [s[0]] + s[1..] && t == [t[0]] + t[1..];
    }
  }

  /** The best completion is unique, so two searches from the same earlier choices agree. */
  lemma BestUnique(p: Problem, pre: seq<Choice>, s: seq<Choice>, t: seq<Choice>)
    requires DistinctHeads(p) && |pre| + |s| == |p.wants| && |s| == |t|
    requires IsBest(p, pre, s) && IsBest(p, pre, t)
    ensures s == t
  {
    assert Beats(p, |pre|, s, t) && Beats(p, |pre|, t, s);
    NoLaterAntisymmetric(p, pre, s, t);
  }

  /** Completing nothing is the same as being feasible as a whole. */
  lemma {:induction false} CompletesIsFeasible(p: Problem, pre: seq<Choice>, suf: seq<Choice>)
    requires |pre| + |suf| == |p.wants|
    ensures Completes(p, pre, suf) <==>
      forall k :: |pre| <= k < |p.wants| ==> ChoiceOk(p, (pre + suf)[..k], (pre + suf)[k])
    decreases |suf|
  {
    var a := pre + suf;
    if suf != [] {
      assert a == (pre + [suf[0]]) + suf[1..];
      CompletesIsFeasible(p, pre + [suf[0]], suf[1..]);
      assert a[..|pre|] == pre && a[|pre|] == suf[0];
    }
  }

  lemma FeasibleCompletes(p: Problem, a: seq<Choice>)
    requires |a| == |p.wants|
    ensures Feasible(p, a) <==> Completes(p, [], a)
  {
    CompletesIsFeasible(p, [], a);
    assert [] + a == a;
  }

  // ----- what the weights mean -----

  function Lit(suf: seq<Choice>): nat {
    if suf == [] then 0 else (if suf[0].Some? then 1 else 0) + Lit(suf[1..])
  }

  function Kept(p: Problem, k: nat, suf: seq<Choice>): nat
    requires k + |suf| == |p.wants|
    decreases |suf|
  {
    if suf == [] then 0
    else (if suf[0].Some? && suf[0] == p.wants[k].current then 1 else 0) + Kept(p, k + 1, suf[1..])
  }

  /** How many outputs from `k` on are to be on. */
  function Enabled(p: Problem, k: nat): nat
    requires k <= |p.wants|
    decreases |p.wants| - k
  {
    if k == |p.wants| then 0 else (if p.wants[k].mode.Some? then 1 else 0) + Enabled(p, k + 1)
  }

  lemma {:induction false} ScoreCounts(p: Problem, pre: seq<Choice>, suf: seq<Choice>)
    requires |pre| + |suf| == |p.wants| && Completes(p, pre, suf)
    ensures Score(p, |pre|, suf) == 1000 * Lit(suf) + Kept(p, |pre|, suf)
    ensures Kept(p, |pre|, suf) <= Lit(suf) <= Enabled(p, |pre|)
    ensures Lit(suf) == Enabled(p, |pre|) <==>
      forall k :: 0 <= k < |suf| && p.wants[|pre| + k].mode.Some? ==> suf[k].Some?
    decreases |suf|
  {
    if suf != [] {
      var rest := suf[1..];
      ScoreCounts(p, pre + [suf[0]], rest);
      assert forall k :: 0 <= k < |rest| ==>
        rest[k] == suf[k + 1] && p.wants[|pre| + 1 + k] == p.wants[|pre| + (k + 1)];
      assert (forall k :: 0 <= k < |suf| && p.wants[|pre| + k].mode.Some? ==> suf[k].Some?) <==>
             ((p.wants[|pre|].mode.Some? ==> suf[0].Some?)
              && forall k :: 0 <= k < |rest| && p.wants[|pre| + 1 + k].mode.Some? ==> rest[k].Some?) by {
        if forall k :: 0 <= k < |suf| && p.wants[|pre| + k].mode.Some? ==> suf[k].Some? {
          forall k | 0 <= k < |rest| && p.wants[|pre| + 1 + k].mode.Some? ensures rest[k].Some? {
            assert p.wants[|pre| + (k + 1)].mode.Some? ==> suf[k + 1].Some?;
          }
        }
      }
    }
  }

  ghost predicate LightsAll(p: Problem, a: seq<Choice>)
    requires |a| == |p.wants|
  {
    forall k :: 0 <= k < |a| && p.wants[k].mode.Some? ==> a[k].Some?
  }

  /** Up to 1000 enabled outputs, the best assignment lights the most outputs, then keeps the most CRTCs. */
  lemma BestIsLexicographic(p: Problem, best: seq<Choice>, other: seq<Choice>)
    requires |best| == |p.wants| == |other| && IsBest(p, [], best) && Feasible(p, other)
    requires Enabled(p, 0) <= 1000
    ensures Lit(best) >= Lit(other)
    ensures Lit(best) == Lit(other) ==> Kept(p, 0, best) >= Kept(p, 0, other)
  {
    FeasibleCompletes(p, other);
    assert Beats(p, 0, best, other);
    ScoreCounts(p, [], best);
    ScoreCounts(p, [], other);
  }

  /** Up to 1000 enabled outputs, the best assignment leaves one dark only if every feasible one does. */
  lemma BestLightsAllIfPossible(p: Problem, best: seq<Choice>)
    requires |best| == |p.wants| && IsBest(p, [], best) && Enabled(p, 0) <= 1000
    ensures LightsAll(p, best) <==> exists a :: Feasible(p, a) && LightsAll(p, a)
  {
    FeasibleCompletes(p, best);
    if a :| Feasible(p, a) && LightsAll(p, a) {
      BestIsLexicographic(p, best, a);
      FeasibleCompletes(p, a);
      ScoreCounts(p, [], a);
      ScoreCounts(p, [], best);
    }
  }

  // ----- one output's turn in the search -----

  /** The choice is one of: off, or a CRTC among the first `n` of output `k`'s list. */
  ghost predicate Tried(p: Problem, k: nat, n: nat, ch: Choice)
    requires k < |p.wants| && n <= |p.wants[k].crtcs|
  {
    ch.Some? ==> ch.value < |p.heads| && p.heads[ch.value].xid in p.wants[k].crtcs[..n]
  }

  /** `best` is the best completion of `pre` among those whose first choice was tried. */
  ghost predicate BestTried(p: Problem, pre: seq<Choice>, n: nat, best: seq<Choice>)
    requires |pre| + |best| == |p.wants| && best != [] && n <= |p.wants[|pre|].crtcs|
  {
    && Completes(p, pre, best)
    && Tried(p, |pre|, n, best[0])
    && IsBest(p, pre + [best[0]], best[1..])
    && forall other {:trigger Beats(p, |pre|, best, other)} ::
         |pre| + |other| == |p.wants| && Completes(p, pre, other) && Tried(p, |pre|, n, other[0]) ==>
         Beats(p, |pre|, best, other)
  }

  /** With the first choice fixed, the best rest makes the best whole. */
  lemma BestRest(p: Problem, pre: seq<Choice>, ch: Choice, rest: seq<Choice>, other: seq<Choice>)
    requires |pre| + 1 + |rest| == |p.wants| && |other| == 1 + |rest|
    requires ChoiceOk(p, pre, ch) && IsBest(p, pre + [ch], rest)
    requires Completes(p, pre, other) && other[0] == ch
    ensures Beats(p, |pre|, [ch] + rest, other)
  {
    assert ([ch] + rest)[1..] == rest;
    assert Beats(p, |pre| + 1, rest, other[1..]);
  }

  lemma StartWithOff(p: Problem, pre: seq<Choice>, rest: seq<Choice>)
    requires |pre| + 1 + |rest| == |p.wants| && IsBest(p, pre + [None], rest)
    ensures BestTried(p, pre, 0, [None] + rest)
    ensures p.wants[|pre|].mode.None? ==> IsBest(p, pre, [None] + rest)
    ensures Score(p, |pre|, [None] + rest) == Score(p, |pre| + 1, rest)
  {
    var best := [None] + rest;
    assert best[1..] == rest;
    forall other: seq<Choice> | |pre| + |other| == |p.wants| && Completes(p, pre, other) && other[0].None?
      ensures Beats(p, |pre|, best, other)
    {
      BestRest(p, pre, None, rest, other);
    }
  }

  /** The next CRTC on the list is no use: nothing changes. */
  lemma SkipUnusable(p: Problem, pre: seq<Choice>, n: nat, c: nat, best: seq<Choice>)
    requires DistinctHeads(p) && |pre| + |best| == |p.wants| && best != [] && n < |p.wants[|pre|].crtcs|
    requires BestTried(p, pre, n, best)
    requires c < |p.heads| && p.heads[c].xid == p.wants[|pre|].crtcs[n]
    requires !ChoiceOk(p, pre, Some(c))
    ensures BestTried(p, pre, n + 1, best)
  {
    var list := p.wants[|pre|].crtcs;
    assert list[..n + 1] == list[..n] + [list[n]];
  }

  /** The next CRTC on the list was tried with the best rest for it; it wins only by a higher score. */
  lemma TryUsable(p: Problem, pre: seq<Choice>, n: nat, c: nat, best: seq<Choice>, rest: seq<Choice>)
    requires DistinctHeads(p) && |pre| + |best| == |p.wants| && best != [] && n < |p.wants[|pre|].crtcs|
    requires BestTried(p, pre, n, best)
    requires c < |p.heads| && p.heads[c].xid == p.wants[|pre|].crtcs[n]
    requires ChoiceOk(p, pre, Some(c)) && |rest| + 1 == |best| && IsBest(p, pre + [Some(c)], rest)
    ensures var cand := [Some(c)] + rest;
      && Score(p, |pre|, cand) == Weight(p, |pre|, Some(c)) + Score(p, |pre| + 1, rest)
      && BestTried(p, pre, n + 1, if Score(p, |pre|, cand) > Score(p, |pre|, best) then cand else best)
  {
    var list, k, cand := p.wants[|pre|].crtcs, |pre|, [Some(c)] + rest;
    assert cand[1..] == rest;
    assert list[..n + 1] == list[..n] + [list[n]];
    assert Completes(p, pre, cand);
    var winner := if Score(p, k, cand) > Score(p, k, best) then cand else best;
    forall other: seq<Choice> | k + |other| == |p.wants| && Completes(p, pre, other) && Tried(p, k, n + 1, other[0])
      ensures Beats(p, k, winner, other)
    {
      if Tried(p, k, n, other[0]) {
        assert Beats(p, k, best, other);
      } else {
        assert other[0] == Some(c);
        BestRest(p, pre, Some(c), rest, other);
        RankAfterTried(p, k, n, best[0], c);
      }
    }
  }

  lemma RankAfterTried(p: Problem, k: nat, n: nat, ch: Choice, c: nat)
    requires k < |p.wants| && n < |p.wants[k].crtcs| && Tried(p, k, n, ch)
    requires c < |p.heads| && p.heads[c].xid == p.wants[k].crtcs[n] && !Tried(p, k, n, Some(c))
    ensures Rank(p, k, ch) < Rank(p, k, Some(c))
  {
    var list := p.wants[k].crtcs;
    assert forall q :: 0 <= q < n ==> list[..n][q] == list[q];
    assert IndexOf(list, p.heads[c].xid) == n;
    if ch.Some? {
      var m :| 0 <= m < n && list[..n][m] == p.heads[ch.value].xid;
      assert list[m] == p.heads[ch.value].xid;
    }
  }

  /** When the whole list was tried, nothing feasible is left out. */
  lemma AllTried(p: Problem, pre: seq<Choice>, best: seq<Choice>)
    requires |pre| + |best| == |p.wants| && best != []
    requires BestTried(p, pre, |p.wants[|pre|].crtcs|, best)
    ensures IsBest(p, pre, best)
  {
    var list := p.wants[|pre|].crtcs;
    assert list[..|list|] == list;
  }

  /** Some output from `k` on that is to be on lists a CRTC the server does not have. */
  ghost predicate UnknownCrtc(p: Problem, k: nat)
    requires k <= |p.wants|
    decreases |p.wants| - k
  {
    k < |p.wants| && ((p.wants[k].mode.Some? && !CrtcsExist(p, k)) || UnknownCrtc(p, k + 1))
  }

  ghost predicate CrtcsExist(p: Problem, j: nat)
    requires j < |p.wants|
  {
    FirstExist(p, j, |p.wants[j].crtcs|)
  }

  /** The server has the first `n` CRTCs of output `j`'s list. */
  ghost predicate FirstExist(p: Problem, j: nat, n: nat)
    requires j < |p.wants| && n <= |p.wants[j].crtcs|
  {
    n == 0 || (FirstExist(p, j, n - 1) && HasHead(p, p.wants[j].crtcs[n - 1]))
  }

  lemma {:induction false} UnknownAmongFirst(p: Problem, j: nat, m: nat, n: nat)
    requires j < |p.wants| && m < n <= |p.wants[j].crtcs| && !HasHead(p, p.wants[j].crtcs[m])
    ensures !FirstExist(p, j, n)
  {
    if m < n - 1 { UnknownAmongFirst(p, j, m, n - 1); }
  }

  lemma {:induction false} FirstUnknown(p: Problem, j: nat, n: nat) returns (m: nat)
    requires j < |p.wants| && n <= |p.wants[j].crtcs| && !FirstExist(p, j, n)
    ensures m < n && !HasHead(p, p.wants[j].crtcs[m])
  {
    if HasHead(p, p.wants[j].crtcs[n - 1]) {
      m := FirstUnknown(p, j, n - 1);
    } else {
      m := n - 1;
    }
  }

  /** There always is a best completion, unless a list has a CRTC the server does not have. */
  lemma {:induction false} BestExists(p: Problem, pre: seq<Choice>) returns (best: seq<Choice>)
    requires DistinctHeads(p) && |pre| <= |p.wants| && !UnknownCrtc(p, |pre|)
    ensures |pre| + |best| == |p.wants| && IsBest(p, pre, best)
    decreases |p.wants| - |pre|, 1, 0
  {
    if |pre| == |p.wants| {
      best := [];
    } else {
      var rest := BestExists(p, pre + [None]);
      StartWithOff(p, pre, rest);
      best := [None] + rest;
      if p.wants[|pre|].mode.Some? {
        best := BestOfTried(p, pre, |p.wants[|pre|].crtcs|, best);
        AllTried(p, pre, best);
      }
    }
  }

  /** The best completion among the first `n` CRTCs of the next output's list. */
  lemma {:induction false} BestOfTried(p: Problem, pre: seq<Choice>, n: nat, off: seq<Choice>)
    returns (best: seq<Choice>)
    requires DistinctHeads(p) && |pre| + |off| == |p.wants| && off != [] && !UnknownCrtc(p, |pre|)
    requires p.wants[|pre|].mode.Some? && n <= |p.wants[|pre|].crtcs| && BestTried(p, pre, 0, off)
    ensures |best| == |off| && BestTried(p, pre, n, best)
    decreases |p.wants| - |pre|, 0, n
  {
    best := off;
    if n > 0 {
      var m := n - 1;
      best := BestOfTried(p, pre, m, off);
      var list := p.wants[|pre|].crtcs;
      var c := HeadIndex(p.heads, list[m]);
      if c == |p.heads| { UnknownAmongFirst(p, |pre|, m, |list|); }
      if ChoiceOk(p, pre, Some(c)) {
        var rest := BestExists(p, pre + [Some(c)]);
        TryUsable(p, pre, m, c, best, rest);
        var cand := [Some(c)] + rest;
        best := if Score(p, |pre|, cand) > Score(p, |pre|, best) then cand else best;
      } else {
        SkipUnusable(p, pre, m, c, best);
      }
    }
  }

  ghost predicate HasHead(p: Problem, x: Xid) {
    HeadIndex(p.heads, x) < |p.heads|
  }

  ghost function HeadIndex(heads: seq<Head>, x: Xid): (c: nat)
    ensures c <= |heads|
    ensures c < |heads| ==> heads[c].xid == x
    ensures forall j :: 0 <= j < c ==> heads[j].xid != x
  {
    if heads == [] then 0 else if heads[0].xid == x then 0 else 1 + HeadIndex(heads[1..], x)
  }
}
