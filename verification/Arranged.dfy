/**
 The records once CRTCs are picked for what was asked, and when the outputs that come to share a CRTC
 are sure to agree.
 */
module Arranged {
  import opened RandR
  import opened Records
  import opened Server
  import opened Plan
  import opened Sharing
  import opened Shown
  import opened Asked
  import PickCrtcs
  import Placement
  import SetPositions

  /** The changes `was` are those asked for, and a new position exactly if the output was placed or moved. */
  ghost predicate MovedSince(o: Output, load: Load, was: set<Change>)
    reads o`x, o`y
  {
    && load.changes <= was <= load.changes + {ChangedPosition}
    && (ChangedPosition !in was ==> o.x == load.view.x && o.y == load.view.y)
    && (was != load.changes ==>
          ChangedRelation in load.changes || o.x != load.view.x || o.y != load.view.y)
  }

  ghost predicate PickedSince(outs: seq<Output>, crtcs: seq<Crtc>, modes: seq<Mode>, loads: seq<Load>,
                              was: seq<set<Change>>)
    reads outs`modeInfo, outs`x, outs`y, outs`rotation, outs`crtcInfo, outs`currentCrtcInfo, outs`changes
  {
    && |was| == |outs| == |loads|
    && (forall k {:trigger was[k]} {:trigger loads[k]} :: 0 <= k < |outs| ==> MovedSince(outs[k], loads[k], was[k]))
    && PickedFrom(outs, crtcs, modes, was, ChosenOf(loads))
  }

  /** CRTCs have been picked for the outputs as they were loaded and placed. */
  ghost predicate PickedFor(outs: seq<Output>, crtcs: seq<Crtc>, modes: seq<Mode>, loads: seq<Load>)
    reads outs`modeInfo, outs`x, outs`y, outs`rotation, outs`crtcInfo, outs`currentCrtcInfo, outs`changes
  {
    exists was :: PickedSince(outs, crtcs, modes, loads, was)
  }

  /** Every output is on a CRTC of its own list, and shares it with its clones or with those it came with. */
  ghost predicate OnOwnCrtcs(outs: seq<Output>, crtcs: seq<Crtc>, loads: seq<Load>)
    reads outs`modeInfo, outs`crtcInfo
  {
    |loads| == |outs| && Listed(outs, crtcs, PickCrtcs.ChoicesOf(outs)) && SharersAllowed(outs, ChosenOf(loads))
  }

  lemma {:induction false} PickedIsOwn(outs: seq<Output>, crtcs: seq<Crtc>, modes: seq<Mode>, loads: seq<Load>)
    requires PickedFor(outs, crtcs, modes, loads) && Listed(outs, crtcs, ChosenOf(loads))
    ensures OnOwnCrtcs(outs, crtcs, loads)
  {
    var was :| PickedSince(outs, crtcs, modes, loads, was);
    PickedIsListed(outs, crtcs, modes, was, ChosenOf(loads));
    PickedSharers(outs, crtcs, modes, was, ChosenOf(loads));
  }

  // ----- a condition to be read before the run -----

  /** Outputs to be on that list a common CRTC and are clones, or start from the same CRTC. */
  ghost predicate MayShare(outs: seq<Output>, loads: seq<Load>, j: nat, k: nat)
    requires |loads| == |outs| && j < |outs| && k < |outs|
  {
    && loads[j].mode.Some? && loads[k].mode.Some?
    && (exists x :: x in outs[j].info.crtcs && x in outs[k].info.crtcs)
    && (Clones(outs[j], outs[k]) || loads[j].chosen == loads[k].chosen)
  }

  /** Output `k` is to be on top of output `j`, and relations will hold. */
  ghost predicate OnTop(outs: seq<Output>, loads: seq<Load>, j: nat, k: nat)
    requires |loads| == |outs| && j < |outs| && k < |outs|
  {
    && ChangedRelation in loads[k].changes && loads[k].beside.relation == Placement.SameAs
    && FindByName(outs, loads[k].beside.name) == j
    && SetPositions.PinsAgree(GraphOf(outs, loads), SpotsOf(loads))
  }

  /** They are to look alike, at the same place. */
  ghost predicate MeantAlike(outs: seq<Output>, loads: seq<Load>, j: nat, k: nat)
    requires |loads| == |outs| && j < |outs| && k < |outs| && loads[j].mode.Some? && loads[k].mode.Some?
  {
    var a, b := loads[j], loads[k];
    && a.mode.value.id == b.mode.value.id && a.view.rotation == b.view.rotation && a.view.transform == b.view.transform
    && ((ChangedRelation !in a.changes && ChangedRelation !in b.changes && a.view.x == b.view.x && a.view.y == b.view.y)
        || OnTop(outs, loads, j, k) || OnTop(outs, loads, k, j))
  }

  /** No two outputs that may come to share a CRTC are meant to differ. */
  ghost predicate Compatible(outs: seq<Output>, loads: seq<Load>)
    requires |loads| == |outs|
  {
    forall j, k {:trigger outs[j], outs[k]} :: 0 <= j < k < |outs| && MayShare(outs, loads, j, k) ==>
      MeantAlike(outs, loads, j, k)
  }

  lemma {:induction false} SharersMayShare(outs: seq<Output>, crtcs: seq<Crtc>, loads: seq<Load>, sweeps: nat,
                                           j: nat, k: nat)
    requires AsAsked(outs, loads, sweeps) && OnOwnCrtcs(outs, crtcs, loads)
    requires j < k < |outs| && Share(outs[j], outs[k])
    ensures MayShare(outs, loads, j, k)
  {
    var a := PickCrtcs.ChoicesOf(outs);
    assert a[j] == outs[j].crtcInfo && a[k] == outs[k].crtcInfo;
    assert loads[j].mode == outs[j].modeInfo && loads[k].mode == outs[k].modeInfo;
    assert crtcs[a[j].value].xid in outs[j].info.crtcs && crtcs[a[j].value].xid in outs[k].info.crtcs;
    assert ChosenOf(loads)[j] == loads[j].chosen && ChosenOf(loads)[k] == loads[k].chosen;
  }

  /** Outputs without a relation are as far apart as they were. */
  lemma {:induction false} StayApart(outs: seq<Output>, loads: seq<Load>, sweeps: nat, j: nat, k: nat)
    requires AsAsked(outs, loads, sweeps) && j < |outs| && k < |outs|
    requires outs[j].modeInfo.Some? && outs[k].modeInfo.Some?
    requires ChangedRelation !in loads[j].changes && ChangedRelation !in loads[k].changes
    ensures outs[j].x - outs[k].x == loads[j].view.x - loads[k].view.x
    ensures outs[j].y - outs[k].y == loads[j].view.y - loads[k].view.y
  {
    var g, spots := GraphOf(outs, loads), SpotsOf(loads);
    var dx, dy :| SetPositions.PlacedBy(outs, PlacingOf(outs, loads, sweeps), dx, dy);
    Placement.UnrelatedStay(g, spots, sweeps);
    var after := PlacingOf(outs, loads, sweeps).spots;
    assert g[j] == NodeFor(outs, loads[j]) && g[k] == NodeFor(outs, loads[k]);
    assert after[j] == spots[j] && after[k] == spots[k];
  }

  /** A position was asked for, and no relation. */
  predicate GivenPlace(t: Told) { ChangedPosition in t.changes && ChangedRelation !in t.changes }

  /**
   The outputs have the modes, turns and transforms that were asked for, and those that are on at positions
   asked for are as far apart as these.
   */
  ghost predicate AsTold(outs: seq<Output>, told: seq<Told>)
    reads outs`modeInfo, outs`rotation, outs`transform, outs`x, outs`y
  {
    && |told| == |outs|
    && (forall k {:trigger told[k]} :: 0 <= k < |outs| ==>
          && (ChangedMode in told[k].changes ==> outs[k].modeInfo == told[k].mode)
          && (ChangedRotation in told[k].changes ==> outs[k].rotation.direction == told[k].view.rotation.direction)
          && (ChangedRotation in told[k].changes && ChangedReflection in told[k].changes ==>
                outs[k].rotation == told[k].view.rotation)
          && (ChangedTransform in told[k].changes ==> outs[k].transform == told[k].view.transform))
    && (forall j, k {:trigger told[j], told[k]} :: 0 <= j < |outs| && 0 <= k < |outs| ==>
          (GivenPlace(told[j]) && GivenPlace(told[k]) && outs[j].modeInfo.Some? && outs[k].modeInfo.Some? ==>
             && outs[j].x - outs[k].x == told[j].view.x - told[k].view.x
             && outs[j].y - outs[k].y == told[j].view.y - told[k].view.y))
  }

  lemma {:induction false} AskedAsTold(outs: seq<Output>, told: seq<Told>, loads: seq<Load>, sweeps: nat)
    requires AsAsked(outs, loads, sweeps) && |told| == |outs|
    requires forall k {:trigger told[k]} :: 0 <= k < |told| ==> TakesTold(told[k], loads[k])
    ensures AsTold(outs, told)
  {
    forall k | 0 <= k < |outs|
      ensures TakesTold(told[k], loads[k]) && outs[k].modeInfo == loads[k].mode
      ensures outs[k].rotation == loads[k].view.rotation && outs[k].transform == loads[k].view.transform
    {
    }
    forall j, k | 0 <= j < |outs| && 0 <= k < |outs| && GivenPlace(told[j]) && GivenPlace(told[k])
                  && outs[j].modeInfo.Some? && outs[k].modeInfo.Some?
      ensures outs[j].x - outs[k].x == told[j].view.x - told[k].view.x
      ensures outs[j].y - outs[k].y == told[j].view.y - told[k].view.y
    {
      assert TakesTold(told[j], loads[j]) && TakesTold(told[k], loads[k]);
      StayApart(outs, loads, sweeps, j, k);
    }
  }

  lemma {:induction false} AlikeAgree(outs: seq<Output>, loads: seq<Load>, sweeps: nat, j: nat, k: nat)
    requires AsAsked(outs, loads, sweeps) && j < |outs| && k < |outs|
    requires outs[j].modeInfo.Some? && outs[k].modeInfo.Some?
    requires loads[j].mode.Some? && loads[k].mode.Some? && MeantAlike(outs, loads, j, k)
    ensures Agree(outs[j], outs[k], true) && Agree(outs[k], outs[j], true)
  {
    assert loads[j].mode == outs[j].modeInfo && loads[k].mode == outs[k].modeInfo;
    if OnTop(outs, loads, j, k) {
      assert SetPositions.StandsBy(outs[k], outs[j]);
    } else if OnTop(outs, loads, k, j) {
      assert SetPositions.StandsBy(outs[j], outs[k]);
    } else {
      StayApart(outs, loads, sweeps, j, k);
    }
  }

  /** If no two that may share are meant to differ, no two that share do. */
  lemma {:induction false} CompatibleAgree(outs: seq<Output>, crtcs: seq<Crtc>, loads: seq<Load>, sweeps: nat,
                                           has13: bool)
    requires AsAsked(outs, loads, sweeps) && OnOwnCrtcs(outs, crtcs, loads) && Compatible(outs, loads)
    ensures SharersAgree(outs, has13)
  {
    forall a, b | a in outs && b in outs && Share(a, b) ensures Agree(a, b, has13) {
      var j, k :| 0 <= j < |outs| && 0 <= k < |outs| && outs[j] == a && outs[k] == b;
      if j < k {
        SharersMayShare(outs, crtcs, loads, sweeps, j, k);
        AlikeAgree(outs, loads, sweeps, j, k);
      } else if k < j {
        SharersMayShare(outs, crtcs, loads, sweeps, k, j);
        AlikeAgree(outs, loads, sweeps, k, j);
      }
    }
  }

  /**
   Two outputs to be switched on that can clone to one another, with the same idle CRTC on their lists
   and different modes: if all requests are granted, one of them shows the other's mode.
   */
  lemma {:induction false} TwinsNotShown(server: Server, outs: seq<Output>, crtcs: seq<Crtc>, loads: seq<Load>,
                                         has13: bool)
    requires PickedFor(outs, crtcs, server.modes, loads) && AllOnCrtcs(outs, crtcs)
    requires |server.state.crtcs| == |crtcs| && ServerShowsPlan(server, outs, crtcs, has13)
    requires TwoForOne(outs, crtcs) && outs[0].info.clones == [2] && outs[1].info.clones == [1]
    requires outs[0].modeInfo.value.id != outs[1].modeInfo.value.id
    requires loads[0].chosen == loads[1].chosen == None && loads[0].changes != {} && loads[1].changes != {}
    ensures !AllShown(server, outs, crtcs, has13)
  {
    var was :| PickedSince(outs, crtcs, server.modes, loads, was);
    assert was[0] != {} && was[1] != {};
    assert ChosenOf(loads) == [None, None];
    TwinsShare(outs, crtcs, server.modes, was);
    assert outs[0] in outs && outs[1] in outs;
    assert Share(outs[0], outs[1]) && !Agree(outs[0], outs[1], has13);
    ShownExactlyWhenAgree(server, outs, crtcs, has13);
  }
}
