/**
 What the choice of CRTCs means for the outputs: each is on a CRTC of its own list, and which of them
 share one. Two outputs that are told to use the same idle CRTC share it, clones or not.
 */
module Sharing {
  import opened RandR
  import opened Records
  import opened CrtcSearch
  import opened Picking = PickCrtcs

  /** The records after `pick_crtcs`, from these choices and changes: matched up, or else the best assignment. */
  ghost predicate PickedFrom(outs: seq<Output>, crtcs: seq<Crtc>, modes: seq<Mode>,
                             was: seq<set<Change>>, before: seq<Choice>)
    requires |before| == |outs| == |was|
    reads outs`modeInfo, outs`x, outs`y, outs`rotation, outs`crtcInfo, outs`currentCrtcInfo, outs`changes
  {
    if GetsStuck(outs, crtcs, modes, was, before) then
      && LeavesStuck(outs, crtcs, modes, was, before, CurrentsOf(outs))
      && BestAssignment(ProblemOf(outs, crtcs, modes), ChoicesOf(outs)) && AllLit(outs)
      && FlaggedUpTo(outs, was, |outs|)
    else
      && AllMatchedUp(outs, crtcs, modes, was, |outs|, before, ChoicesOf(outs))
      && FlaggedUpTo(outs, was, 0)
  }

  /** Picks CRTCs; if it succeeds, as `PickedFrom` says. */
  method PickFrom(outs: seq<Output>, crtcs: seq<Crtc>, modes: seq<Mode>,
                  ghost was: seq<set<Change>>, ghost before: seq<Choice>)
    returns (r: PickResult)
    requires DistinctOutputs(outs) && DistinctXids(crtcs) && NothingPlanned(crtcs) && InRange(before, |crtcs|)
    requires was == ChangesOf(outs) && before == ChoicesOf(outs)
    modifies outs`crtcInfo, outs`currentCrtcInfo, outs`changes
    ensures r == Picked ==> PickedFrom(outs, crtcs, modes, was, before) && Settled(outs, crtcs, was, before)
    ensures r == NoSuchCrtc ==> ListsUnknown(outs, crtcs)
    ensures r.NoCrtcFor? ==>
      BestAssignment(ProblemOf(outs, crtcs, modes), ChoicesOf(outs)) && r.output < |outs| && FirstDark(outs, r.output)
  {
    var searched;
    r, searched := Picking.PickCrtcs(outs, crtcs, modes);
    if r == Picked && searched {
      assert LeavesStuck(outs, crtcs, modes, was, before, CurrentsOf(outs));
    }
  }

  /** Every CRTC chosen is real and on the output's list. */
  ghost predicate Listed(outs: seq<Output>, crtcs: seq<Crtc>, a: seq<Choice>) {
    && |a| == |outs|
    && forall k {:trigger a[k]} :: 0 <= k < |a| && a[k].Some? ==>
         a[k].value < |crtcs| && crtcs[a[k].value].xid in outs[k].info.crtcs
  }

  /** One of the two can clone to the other. */
  predicate Clones(a: Output, b: Output) {
    a.xid in b.info.clones || b.xid in a.info.clones
  }

  /** Two outputs that are on, on the same CRTC. */
  predicate Share(a: Output, b: Output)
    reads a`modeInfo, a`crtcInfo, b`modeInfo, b`crtcInfo
  {
    a.modeInfo.Some? && b.modeInfo.Some? && a.crtcInfo.Some? && a.crtcInfo == b.crtcInfo
  }

  /** Outputs share a CRTC as clones, or because both came with it. */
  ghost predicate SharersAllowed(outs: seq<Output>, before: seq<Choice>)
    requires |before| == |outs|
    reads outs`modeInfo, outs`crtcInfo
  {
    forall j, k {:trigger outs[j], outs[k]} :: 0 <= j < k < |outs| && Share(outs[j], outs[k]) ==>
      Clones(outs[j], outs[k]) || before[j] == before[k] == outs[k].crtcInfo
  }

  // ----- matched up -----

  lemma {:induction false} MatchedIsListed(outs: seq<Output>, crtcs: seq<Crtc>, modes: seq<Mode>,
                                           was: seq<set<Change>>, before: seq<Choice>, a: seq<Choice>)
    requires |before| == |outs| == |was| == |a| && Listed(outs, crtcs, before)
    requires AllMatchedUp(outs, crtcs, modes, was, |outs|, before, a)
    ensures Listed(outs, crtcs, a)
  {
    forall k | 0 <= k < |a| && a[k].Some?
      ensures a[k].value < |crtcs| && crtcs[a[k].value].xid in outs[k].info.crtcs
    {
      assert MatchedUp(outs, crtcs, modes, was, k, before, a);
      var came := before[k];
    }
  }

  /** The later of two that share, or the one that came without a CRTC, lists the other as a clone. */
  lemma {:induction false} MatchedSharers(outs: seq<Output>, crtcs: seq<Crtc>, modes: seq<Mode>,
                                          was: seq<set<Change>>, before: seq<Choice>, a: seq<Choice>, j: nat, k: nat)
    requires |before| == |outs| == |was| == |a| && j < k < |outs|
    requires AllMatchedUp(outs, crtcs, modes, was, |outs|, before, a)
    requires outs[j].modeInfo.Some? && outs[k].modeInfo.Some? && a[j].Some? && a[j] == a[k]
    ensures Clones(outs[j], outs[k]) || before[j] == before[k] == a[k]
  {
    assert MatchedUp(outs, crtcs, modes, was, j, before, a) && MatchedUp(outs, crtcs, modes, was, k, before, a);
    if before[k].None? {
      assert UpTo(a, before, k)[j] == a[j];
    } else if before[j].None? {
      assert UpTo(a, before, j)[k] == before[k];
    }
  }

  // ----- the best assignment -----

  /** Each choice of the best assignment is usable beside those before it. */
  lemma {:induction false} BestIsUsable(outs: seq<Output>, crtcs: seq<Crtc>, modes: seq<Mode>, k: nat)
    requires k < |outs| && BestAssignment(ProblemOf(outs, crtcs, modes), ChoicesOf(outs))
    ensures outs[k].crtcInfo.Some? ==>
      CrtcSearch.Usable(ProblemOf(outs, crtcs, modes), k, outs[k].crtcInfo.value, ChoicesOf(outs)[..k])
  {
    var p, a := ProblemOf(outs, crtcs, modes), ChoicesOf(outs);
    FeasibleCompletes(p, a);
    assert ChoiceOk(p, a[..k], a[k]);
  }

  lemma {:induction false} BestIsListed(outs: seq<Output>, crtcs: seq<Crtc>, modes: seq<Mode>)
    requires BestAssignment(ProblemOf(outs, crtcs, modes), ChoicesOf(outs))
    ensures Listed(outs, crtcs, ChoicesOf(outs))
  {
    var p, a := ProblemOf(outs, crtcs, modes), ChoicesOf(outs);
    forall k | 0 <= k < |a| && a[k].Some?
      ensures a[k].value < |crtcs| && crtcs[a[k].value].xid in outs[k].info.crtcs
    {
      BestIsUsable(outs, crtcs, modes, k);
      assert p.heads[a[k].value].xid == crtcs[a[k].value].xid && p.wants[k] == WantOf(outs[k]);
    }
  }

  lemma {:induction false} BestSharers(outs: seq<Output>, crtcs: seq<Crtc>, modes: seq<Mode>, j: nat, k: nat)
    requires j < k < |outs| && BestAssignment(ProblemOf(outs, crtcs, modes), ChoicesOf(outs))
    requires Share(outs[j], outs[k])
    ensures outs[j].xid in outs[k].info.clones
  {
    var p, a := ProblemOf(outs, crtcs, modes), ChoicesOf(outs);
    BestIsUsable(outs, crtcs, modes, k);
    assert CanShare(p, k, a[k].value, j, a[..k][j]);
    assert p.wants[j] == WantOf(outs[j]) && p.wants[k] == WantOf(outs[k]);
  }

  // ----- either way -----

  lemma {:induction false} PickedIsListed(outs: seq<Output>, crtcs: seq<Crtc>, modes: seq<Mode>,
                                          was: seq<set<Change>>, before: seq<Choice>)
    requires |before| == |outs| == |was| && PickedFrom(outs, crtcs, modes, was, before)
    requires Listed(outs, crtcs, before)
    ensures Listed(outs, crtcs, ChoicesOf(outs))
  {
    if GetsStuck(outs, crtcs, modes, was, before) {
      BestIsListed(outs, crtcs, modes);
    } else {
      MatchedIsListed(outs, crtcs, modes, was, before, ChoicesOf(outs));
    }
  }

  lemma {:induction false} PickedSharers(outs: seq<Output>, crtcs: seq<Crtc>, modes: seq<Mode>,
                                         was: seq<set<Change>>, before: seq<Choice>)
    requires |before| == |outs| == |was| && PickedFrom(outs, crtcs, modes, was, before)
    ensures SharersAllowed(outs, before)
  {
    var a := ChoicesOf(outs);
    forall j, k | 0 <= j < k < |outs| && Share(outs[j], outs[k])
      ensures Clones(outs[j], outs[k]) || before[j] == before[k] == outs[k].crtcInfo
    {
      if GetsStuck(outs, crtcs, modes, was, before) {
        BestSharers(outs, crtcs, modes, j, k);
      } else {
        assert a[j] == outs[j].crtcInfo && a[k] == outs[k].crtcInfo;
        MatchedSharers(outs, crtcs, modes, was, before, a, j, k);
      }
    }
  }

  ghost predicate AllSharersClone(outs: seq<Output>)
    reads outs`modeInfo, outs`crtcInfo
  {
    forall j, k {:trigger outs[j], outs[k]} :: 0 <= j < k < |outs| && Share(outs[j], outs[k]) ==>
      Clones(outs[j], outs[k])
  }

  /** Outputs to be on that come with the same CRTC are clones. */
  ghost predicate ComeAsClones(outs: seq<Output>, before: seq<Choice>)
    requires |before| == |outs|
    reads outs`modeInfo
  {
    forall j, k {:trigger outs[j], outs[k]} :: 0 <= j < k < |outs| ==>
      (outs[j].modeInfo.Some? && outs[k].modeInfo.Some? && before[j].Some? && before[j] == before[k] ==>
         Clones(outs[j], outs[k]))
  }

  /** Only clones share a CRTC exactly if the search had to be run, or the outputs came that way. */
  lemma {:induction false} SharersCloneExactly(outs: seq<Output>, crtcs: seq<Crtc>, modes: seq<Mode>,
                                               was: seq<set<Change>>, before: seq<Choice>)
    requires |before| == |outs| == |was| && PickedFrom(outs, crtcs, modes, was, before)
    ensures AllSharersClone(outs) <==> GetsStuck(outs, crtcs, modes, was, before) || ComeAsClones(outs, before)
  {
    PickedSharers(outs, crtcs, modes, was, before);
    if GetsStuck(outs, crtcs, modes, was, before) {
      forall j, k | 0 <= j < k < |outs| && Share(outs[j], outs[k]) ensures Clones(outs[j], outs[k]) {
        BestSharers(outs, crtcs, modes, j, k);
      }
    } else {
      var a := ChoicesOf(outs);
      forall k | 0 <= k < |outs| && before[k].Some? ensures outs[k].crtcInfo == before[k] {
        assert MatchedUp(outs, crtcs, modes, was, k, before, a) && a[k] == outs[k].crtcInfo;
      }
    }
  }

  // ----- CRTCs that drive other outputs -----

  /** An output to be changed that comes with a CRTC driving another one makes the program search. */
  lemma {:induction false} TakenIsSearched(outs: seq<Output>, crtcs: seq<Crtc>, modes: seq<Mode>,
                                           was: seq<set<Change>>, before: seq<Choice>, k: nat, x: Xid)
    requires |before| == |outs| == |was| && PickedFrom(outs, crtcs, modes, was, before)
    requires k < |outs| && was[k] != {} && outs[k].modeInfo.Some? && before[k].Some? && before[k].value < |crtcs|
    requires x in crtcs[before[k].value].info.outputs && FindOutput(outs, x) != k
    ensures GetsStuck(outs, crtcs, modes, was, before)
    ensures BestAssignment(ProblemOf(outs, crtcs, modes), ChoicesOf(outs)) && AllSharersClone(outs)
  {
    TakenStops(outs, crtcs, modes, was, before, k, x, ChoicesOf(outs));
    SharersCloneExactly(outs, crtcs, modes, was, before);
  }

  /** Told to use the CRTC that drives another output, and no clone of it: both may be lit, but apart. */
  method PickBesideAnother(outs: seq<Output>, crtcs: seq<Crtc>, modes: seq<Mode>) returns (r: PickResult)
    requires DistinctOutputs(outs) && DistinctXids(crtcs) && NothingPlanned(crtcs) && InRange(ChoicesOf(outs), |crtcs|)
    requires |outs| == 2 && |crtcs| > 0 && crtcs[0].info.outputs == [1]
    requires outs[0].xid == 1 && outs[1].xid == 2 && outs[0].info.clones == outs[1].info.clones == []
    requires outs[0].changes == {} && outs[1].changes != {} && outs[1].modeInfo.Some?
    requires outs[0].crtcInfo == outs[1].crtcInfo == Some(0)
    modifies outs`crtcInfo, outs`currentCrtcInfo, outs`changes
    ensures r == Picked ==> !Share(outs[0], outs[1])
  {
    ghost var was, before := ChangesOf(outs), ChoicesOf(outs);
    r := PickFrom(outs, crtcs, modes, was, before);
    if r == Picked {
      assert was[1] != {} && before[1] == Some(0);
      TakenIsSearched(outs, crtcs, modes, was, before, 1, 1);
      assert !Clones(outs[0], outs[1]);
    }
  }

  // ----- two inputs -----

  /** Runs `pick_crtcs` where the first pass is known to get through. */
  method PickThrough(outs: seq<Output>, crtcs: seq<Crtc>, modes: seq<Mode>, ghost after: seq<Choice>)
    returns (r: PickResult)
    requires DistinctOutputs(outs) && DistinctXids(crtcs) && NothingPlanned(crtcs) && InRange(ChoicesOf(outs), |crtcs|)
    requires |after| == |outs|
    requires AllMatchedUp(outs, crtcs, modes, ChangesOf(outs), |outs|, ChoicesOf(outs), after)
    modifies outs`crtcInfo, outs`currentCrtcInfo, outs`changes
    ensures r == Picked && ChoicesOf(outs) == after
  {
    ghost var was, before := ChangesOf(outs), ChoicesOf(outs);
    ThroughIsNotStopped(outs, crtcs, modes, was, before, after);
    var searched;
    r, searched := Picking.PickCrtcs(outs, crtcs, modes);
    assert !searched && r == Picked;
    MatchedUpOnce(outs, crtcs, modes, was, |outs|, before, after, ChoicesOf(outs));
    assert after == after[..|outs|] && ChoicesOf(outs) == ChoicesOf(outs)[..|outs|];
  }

  /** Two outputs that are to be on, and an idle CRTC 7 that both list. */
  ghost predicate TwoForOne(outs: seq<Output>, crtcs: seq<Crtc>)
    reads outs`modeInfo
  {
    && |outs| == 2 && outs[0] != outs[1] && |crtcs| == 1 && crtcs[0].xid == 7 && crtcs[0].info == OFF
    && outs[0].xid == 1 && outs[1].xid == 2 && outs[0].info.crtcs == outs[1].info.crtcs == [7]
    && outs[0].modeInfo.Some? && outs[1].modeInfo.Some?
  }

  /** Both are told to use that CRTC, and neither can clone to the other: they get it. */
  method PickTogether(outs: seq<Output>, crtcs: seq<Crtc>, modes: seq<Mode>) returns (r: PickResult)
    requires TwoForOne(outs, crtcs) && NothingPlanned(crtcs)
    requires outs[0].changes != {} && outs[1].changes != {}
    requires outs[0].info.clones == outs[1].info.clones == [] && outs[0].crtcInfo == outs[1].crtcInfo == Some(0)
    modifies outs`crtcInfo, outs`currentCrtcInfo, outs`changes
    ensures r == Picked && Share(outs[0], outs[1]) && !Clones(outs[0], outs[1])
  {
    ghost var before := ChoicesOf(outs);
    assert before == [Some(0), Some(0)];
    r := PickThrough(outs, crtcs, modes, before);
    assert ChoicesOf(outs)[0] == Some(0) && ChoicesOf(outs)[1] == Some(0);
  }

  /** They are to be changed, and can clone to one another: the first pass gives it to both, whatever their modes. */
  lemma {:induction false} TwinsMatch(outs: seq<Output>, crtcs: seq<Crtc>, modes: seq<Mode>, was: seq<set<Change>>)
    requires TwoForOne(outs, crtcs) && |was| == 2 && was[0] != {} && was[1] != {}
    requires outs[0].info.clones == [2] && outs[1].info.clones == [1]
    ensures AllMatchedUp(outs, crtcs, modes, was, 2, [None, None], [Some(0), Some(0)])
  {
    var before: seq<Choice>, after: seq<Choice> := [None, None], [Some(0), Some(0)];
    forall k | 0 <= k < 2 ensures MatchedUp(outs, crtcs, modes, was, k, before, after) {
      var a := UpTo(after, before, k);
      assert FindCrtc(crtcs, outs[k].info.crtcs[0]) == 0;
      assert FirstCandidate(outs, crtcs, modes, k, 0, a, 0);
    }
  }

  lemma {:induction false} TwinsShare(outs: seq<Output>, crtcs: seq<Crtc>, modes: seq<Mode>, was: seq<set<Change>>)
    requires TwoForOne(outs, crtcs) && |was| == 2 && was[0] != {} && was[1] != {}
    requires outs[0].info.clones == [2] && outs[1].info.clones == [1]
    requires PickedFrom(outs, crtcs, modes, was, [None, None])
    ensures Share(outs[0], outs[1])
  {
    var before: seq<Choice>, after: seq<Choice>, a := [None, None], [Some(0), Some(0)], ChoicesOf(outs);
    TwinsMatch(outs, crtcs, modes, was);
    ThroughIsNotStopped(outs, crtcs, modes, was, before, after);
    MatchedUpOnce(outs, crtcs, modes, was, 2, before, after, a);
    assert a[0] == a[..2][0] == after[..2][0] && a[1] == a[..2][1] == after[..2][1];
  }
}
