/** The whole configuration run, from what the server reported to the server's final state. */
module Configure {
  import opened RandR
  import opened Geometry
  import opened Records
  import opened Server
  import opened Transaction
  import opened Plan
  import opened Shown
  import opened Asked
  import opened Arranged
  import Sharing
  import PickCrtcs
  import ScreenSize
  import SetPositions
  import CrtcSearch
  import Placement

  // ----- the run -----

  datatype Ending =
    | NotLoaded(load: LoadResult)
    | NotPlaced(placing: SetPositions.Result)
    | BadScreenSize(size: ScreenSize.SizeResult)
    | NotPicked(picking: PickCrtcs.PickResult)
    | UnknownOldOutput
    | Ran(outcome: Outcome)

  /** What the records show when the program gives up before its first request. */
  ghost predicate GivesUpFor(e: Ending, outs: seq<Output>, crtcs: seq<Crtc>, modes: seq<Mode>,
                             limits: ScreenSize.Limits, width: int, height: int, loads: seq<Load>, sweeps: nat)
    requires |loads| == |outs|
    reads outs, crtcs
  {
    match e
    case NotPlaced(p) => p != SetPositions.Positioned && SetPositions.Ends(PlacingOf(outs, loads, sweeps), p)
    case BadScreenSize(s) => ScreenSize.Refused(outs, crtcs, width, height, limits, s)
    case NotPicked(p) => PickFails(outs, crtcs, modes, p)
    case UnknownOldOutput => exists c :: 0 <= c < |crtcs| && !OldOutputsKnown(outs, crtcs[c])
    case _ => true
  }

  /** A CRTC on a list does not exist, or the best assignment there is leaves somebody dark. */
  ghost predicate PickFails(outs: seq<Output>, crtcs: seq<Crtc>, modes: seq<Mode>, p: PickCrtcs.PickResult)
    reads outs
  {
    match p
    case Picked => false
    case NoSuchCrtc => PickCrtcs.ListsUnknown(outs, crtcs)
    case NoCrtcFor(_) =>
      PickCrtcs.BestAssignment(PickCrtcs.ProblemOf(outs, crtcs, modes), PickCrtcs.ChoicesOf(outs))
        && !PickCrtcs.AllLit(outs)
  }

  /** Of what picking CRTCs ensures, the part that the rest of the run needs. */
  method PickSettled(outs: seq<Output>, crtcs: seq<Crtc>, modes: seq<Mode>,
                     ghost was: seq<set<Change>>, ghost before: seq<CrtcSearch.Choice>)
    returns (r: PickCrtcs.PickResult)
    requires DistinctOutputs(outs) && PickCrtcs.DistinctXids(crtcs) && PickCrtcs.NothingPlanned(crtcs)
    requires was == PickCrtcs.ChangesOf(outs) && before == PickCrtcs.ChoicesOf(outs)
    requires PickCrtcs.InRange(before, |crtcs|)
    modifies outs`crtcInfo, outs`currentCrtcInfo, outs`changes
    ensures r == PickCrtcs.Picked ==>
      PickCrtcs.Settled(outs, crtcs, was, before) && Sharing.PickedFrom(outs, crtcs, modes, was, before)
    ensures r != PickCrtcs.Picked ==> PickFails(outs, crtcs, modes, r)
  {
    r := Sharing.PickFrom(outs, crtcs, modes, was, before);
  }

  method PickReady(outs: seq<Output>, crtcs: seq<Crtc>, modes: seq<Mode>,
                   ghost was: seq<set<Change>>, ghost before: seq<CrtcSearch.Choice>)
    returns (r: PickCrtcs.PickResult)
    requires DistinctOutputs(outs) && PickCrtcs.DistinctXids(crtcs) && PickCrtcs.NothingPlanned(crtcs)
    requires was == PickCrtcs.ChangesOf(outs) && before == PickCrtcs.ChoicesOf(outs)
    requires Ready(outs, crtcs, modes)
    modifies outs`crtcInfo, outs`currentCrtcInfo, outs`changes
    ensures r == PickCrtcs.Picked ==>
      && Ready(outs, crtcs, modes) && AllOnCrtcs(outs, crtcs)
      && Sharing.PickedFrom(outs, crtcs, modes, was, before)
    ensures r != PickCrtcs.Picked ==> PickFails(outs, crtcs, modes, r)
  {
    r := PickSettled(outs, crtcs, modes, was, before);
    if r == PickCrtcs.Picked {
      forall k | 0 <= k < |outs|
        ensures outs[k].crtcInfo.Some? ==> outs[k].crtcInfo.value < |crtcs|
        ensures outs[k].modeInfo.Some? ==> outs[k].crtcInfo.Some?
        ensures outs[k].changes == {} ==> AsDriven(outs[k], crtcs, modes)
      {
        assert before[k] == old(outs[k].crtcInfo) && was[k] == old(outs[k].changes);
        if outs[k].changes == {} {
          assert outs[k] in outs && old(AsDriven(outs[k], crtcs, modes));
        }
      }
    }
  }

  method Pick(outs: seq<Output>, crtcs: seq<Crtc>, modes: seq<Mode>, ghost loads: seq<Load>)
    returns (r: PickCrtcs.PickResult)
    requires DistinctOutputs(outs) && PickCrtcs.DistinctXids(crtcs) && PickCrtcs.NothingPlanned(crtcs)
    requires Ready(outs, crtcs, modes) && AllStay(outs, crtcs, loads)
    modifies outs`crtcInfo, outs`currentCrtcInfo, outs`changes
    ensures r == PickCrtcs.Picked ==>
      && Ready(outs, crtcs, modes) && AllOnCrtcs(outs, crtcs)
      && PickedFor(outs, crtcs, modes, loads) && OnOwnCrtcs(outs, crtcs, loads)
    ensures r != PickCrtcs.Picked ==> PickFails(outs, crtcs, modes, r)
  {
    ghost var was := PickCrtcs.ChangesOf(outs);
    LoadsStay(outs, crtcs, loads);
    forall k | 0 <= k < |outs| ensures MovedSince(outs[k], loads[k], was[k]) {
      assert LoadStays(outs[k], crtcs, loads[k]);
    }
    r := PickReady(outs, crtcs, modes, was, ChosenOf(loads));
    if r == PickCrtcs.Picked {
      assert PickedSince(outs, crtcs, modes, loads, was);
      PickedIsOwn(outs, crtcs, modes, loads);
    }
  }

  /** Outputs that fit the screen make plans that fit it, under a server that takes transforms. */
  lemma PlansFit(outs: seq<Output>, crtcs: seq<Crtc>, modes: seq<Mode>, width: int, height: int)
    requires AllSound(outs, crtcs, modes) && AllPlannedFor(crtcs, outs, |outs|)
    requires SameFit(outs, width, height)
    ensures AllPlansFit(crtcs, modes, true, width, height)
  {
    forall c | 0 <= c < |crtcs| ensures PlanFits(crtcs[c], modes, true, width, height) {
      var mine := Mine(outs, |outs|, c);
      assert PlannedFor(crtcs[c], mine);
      if mine != [] {
        InWhole(outs, mine[0], c);
        var k :| 0 <= k < |outs| && outs[k] == mine[0];
        assert outs[k].modeInfo.Some?;
      }
    }
  }

  /** No output that is on gets a transform other than the one its CRTC has. */
  ghost predicate TransformsKept(outs: seq<Output>, crtcs: seq<Crtc>)
    reads outs`modeInfo, outs`crtcInfo, outs`transform
  {
    forall o :: o in outs && o.modeInfo.Some? && o.crtcInfo.Some? && o.crtcInfo.value < |crtcs| ==>
      o.transform == crtcs[o.crtcInfo.value].currentTransform
  }

  /** A server that takes no transforms makes no difference if none is changed. */
  lemma {:induction false} PlansFitAnyServer(outs: seq<Output>, crtcs: seq<Crtc>, modes: seq<Mode>, has13: bool,
                                             width: int, height: int)
    requires AllPlannedFor(crtcs, outs, |outs|) && AllPlansFit(crtcs, modes, true, width, height)
    requires has13 || TransformsKept(outs, crtcs)
    ensures AllPlansFit(crtcs, modes, has13, width, height)
  {
    forall c | 0 <= c < |crtcs| ensures PlanFits(crtcs[c], modes, has13, width, height) {
      var mine := Mine(outs, |outs|, c);
      assert PlannedFor(crtcs[c], mine) && PlanFits(crtcs[c], modes, true, width, height);
      if mine != [] { InWhole(outs, mine[0], c); }
    }
  }

  /** A CRTC that one of its outputs gives a new panning area has it, the last one, and is marked. */
  ghost predicate PanningPlanned(outs: seq<Output>, crtcs: seq<Crtc>)
    reads outs`crtcInfo, outs`changes, outs`panning, crtcs`panning, crtcs`changing
  {
    forall c {:trigger NewPanning(outs, |outs|, c)} :: 0 <= c < |crtcs| && NewPanning(outs, |outs|, c).Some? ==>
      crtcs[c].changing && crtcs[c].panning == NewPanning(outs, |outs|, c)
  }

  /** Plans the CRTCs: hands out the outputs, marks what changes and passes panning areas on. */
  method PlanCrtcs(outs: seq<Output>, crtcs: seq<Crtc>) returns (known: bool)
    requires DistinctCrtcs(crtcs) && Unplanned(crtcs) && AllOnCrtcs(outs, crtcs)
    modifies crtcs
    ensures AllPlannedFor(crtcs, outs, |outs|)
    ensures known ==> AllMarked(outs, crtcs) && PanningPlanned(outs, crtcs)
    ensures !known ==> exists c :: 0 <= c < |crtcs| && !OldOutputsKnown(outs, crtcs[c])
  {
    SetCrtcs(outs, crtcs);
    known := MarkChangingCrtcs(outs, crtcs);
    if known {
      SetPanning(outs, crtcs);
    }
  }

  /** From the server's reports to outputs in place. */
  method LoadAndPlace(outs: seq<Output>, crtcs: seq<Crtc>, modes: seq<Mode>, wanted: seq<Wanted>, sweeps: nat,
                      ghost loads: seq<Load>)
    returns (failure: Option<Ending>)
    requires DistinctOutputs(outs) && |wanted| == |outs| && ModesReported(modes, wanted)
    requires loads == Loads(outs, crtcs, modes, wanted)
    modifies outs`crtcInfo, outs`modeInfo, outs`x, outs`y, outs`rotation, outs`transform, outs`changes
    ensures failure.Some? ==> failure.value.NotLoaded? || failure.value.NotPlaced?
    ensures StopsFor(failure, old(AllCanLoad(outs, crtcs, modes, wanted)), outs, loads, sweeps)
    ensures failure.None? ==> Ready(outs, crtcs, modes) && AllStay(outs, crtcs, loads) && AsAsked(outs, loads, sweeps)
  {
    var load := LoadOutputs(outs, crtcs, modes, wanted);
    if load != Loaded {
      return Some(NotLoaded(load));
    }
    var placing := Place(outs, crtcs, modes, sweeps, loads);
    failure := if placing == SetPositions.Positioned then None else Some(NotPlaced(placing));
  }

  /** Why outputs are not prepared: exactly when loading or placing fails, and what the records show. */
  ghost predicate StopsFor(failure: Option<Ending>, canLoad: bool, outs: seq<Output>, loads: seq<Load>, sweeps: nat)
    requires |loads| == |outs|
  {
    && (failure.Some? ==> !failure.value.Ran?)
    && (failure.Some? && failure.value.NotLoaded? <==> !canLoad)
    && (failure.Some? && failure.value.NotPlaced? <==> canLoad && !PlacingOf(outs, loads, sweeps).Placed?)
    && (failure.Some? && failure.value.NotPlaced? ==>
          SetPositions.Ends(PlacingOf(outs, loads, sweeps), failure.value.placing))
  }

  /** From the server's reports to outputs in place on a screen large enough. */
  method PrepareOutputs(outs: seq<Output>, crtcs: seq<Crtc>, modes: seq<Mode>, wanted: seq<Wanted>,
                        fb: ScreenSize.Framebuffer, limits: ScreenSize.Limits, sweeps: nat, ghost loads: seq<Load>)
    returns (failure: Option<Ending>, warned: bool)
    requires DistinctOutputs(outs) && |wanted| == |outs| && ModesReported(modes, wanted)
    requires loads == Loads(outs, crtcs, modes, wanted)
    modifies outs`crtcInfo, outs`modeInfo, outs`x, outs`y, outs`rotation, outs`transform, outs`changes, fb
    ensures StopsFor(failure, old(AllCanLoad(outs, crtcs, modes, wanted)), outs, loads, sweeps)
    ensures failure.Some? ==> failure.value.NotLoaded? || failure.value.NotPlaced? || failure.value.BadScreenSize?
    ensures failure.Some? && failure.value.BadScreenSize? ==>
      ScreenSize.Refused(outs, crtcs, old(fb.width), old(fb.height), limits, failure.value.size)
    ensures failure.None? ==> Ready(outs, crtcs, modes) && AllStay(outs, crtcs, loads)
    ensures failure.None? && !warned ==> ScreenSize.AllFit(outs, |outs|, fb.width, fb.height)
    ensures failure.None? ==>
      && AsAsked(outs, loads, sweeps)
      && SizedFor(outs, loads, limits, old(fb.width), old(fb.height), fb.width, fb.height)
  {
    warned := false;
    failure := LoadAndPlace(outs, crtcs, modes, wanted, sweeps, loads);
    if failure.None? {
      LoadsStay(outs, crtcs, loads);
      var size := SizeScreen(outs, crtcs, fb, limits, loads);
      if size.SizeSet? {
        warned := size.warned;
      } else {
        failure := Some(BadScreenSize(size));
      }
    }
  }

  method SizeScreen(outs: seq<Output>, crtcs: seq<Crtc>, fb: ScreenSize.Framebuffer, limits: ScreenSize.Limits,
                    ghost loads: seq<Load>)
    returns (size: ScreenSize.SizeResult)
    requires ScreenSize.CrtcsKnown(outs, crtcs) && ScreenSize.PansAre(outs, crtcs, PansOf(loads))
    modifies fb
    ensures size.SizeSet? ==> SizedFor(outs, loads, limits, old(fb.width), old(fb.height), fb.width, fb.height)
    ensures size == ScreenSize.SizeSet(false) ==> ScreenSize.AllFit(outs, |outs|, fb.width, fb.height)
    ensures !size.SizeSet? ==> ScreenSize.Refused(outs, crtcs, old(fb.width), old(fb.height), limits, size)
  {
    size := ScreenSize.SetScreenSize(outs, crtcs, fb, limits);
    if size.SizeSet? && old(fb.width == 0 || fb.height == 0) {
      ScreenSize.LeastIsLeastFor(outs, crtcs, PansOf(loads), ScreenSize.Max(old(fb.width), limits.minWidth),
                                 ScreenSize.Max(old(fb.height), limits.minHeight), fb.width, fb.height);
    }
  }

  /** A screen size asked for is kept; an unset one is the least that covers outputs, panning areas and the minimum. */
  ghost predicate SizedFor(outs: seq<Output>, loads: seq<Load>, limits: ScreenSize.Limits,
                           startWidth: int, startHeight: int, width: int, height: int)
    reads outs`modeInfo, outs`rotation, outs`transform, outs`x, outs`y
  {
    if startWidth != 0 && startHeight != 0 then width == startWidth && height == startHeight
    else
      ScreenSize.LeastFor(outs, PansOf(loads), ScreenSize.Max(startWidth, limits.minWidth),
                          ScreenSize.Max(startHeight, limits.minHeight), width, height)
  }

  /** The later steps of the plan read no more of an output than this, and none of them changes it. */
  ghost predicate SameFit(outs: seq<Output>, width: int, height: int)
    reads outs`modeInfo, outs`x, outs`y, outs`rotation, outs`transform
  {
    forall k :: 0 <= k < |outs| && outs[k].modeInfo.Some? ==>
      var box := ModeBounds(outs[k].modeInfo.value, outs[k].rotation, outs[k].transform.matrix);
      outs[k].x + box.x2 <= width && outs[k].y + box.y2 <= height
  }

  /** Everything up to the first request. */
  method Prepare(outs: seq<Output>, crtcs: seq<Crtc>, modes: seq<Mode>, wanted: seq<Wanted>, fb: ScreenSize.Framebuffer,
                 limits: ScreenSize.Limits, sweeps: nat, ghost loads: seq<Load>)
    returns (failure: Option<Ending>, warned: bool)
    requires DistinctOutputs(outs) && DistinctCrtcs(crtcs) && PickCrtcs.DistinctXids(crtcs)
    requires |wanted| == |outs| && ModesReported(modes, wanted) && Unplanned(crtcs)
    requires loads == Loads(outs, crtcs, modes, wanted)
    modifies outs`changes, outs`crtcInfo, outs`currentCrtcInfo, outs`modeInfo, outs`x, outs`y, outs`rotation
    modifies outs`transform, crtcs, fb
    ensures StopsFor(failure, old(AllCanLoad(outs, crtcs, modes, wanted)), outs, loads, sweeps)
    ensures failure.Some? ==>
      GivesUpFor(failure.value, outs, crtcs, modes, limits, old(fb.width), old(fb.height), loads, sweeps)
    ensures failure.None? ==> Prepared(outs, crtcs, modes)
    ensures failure.None? && !warned ==> AllPlansFit(crtcs, modes, true, fb.width, fb.height)
    ensures failure.None? ==>
      && PlanStands(outs, crtcs, modes, loads, sweeps)
      && SizedFor(outs, loads, limits, old(fb.width), old(fb.height), fb.width, fb.height)
  {
    failure, warned := PrepareOutputs(outs, crtcs, modes, wanted, fb, limits, sweeps, loads);
    if failure.Some? {
      return;
    }
    failure := PrepareRest(outs, crtcs, modes, warned, fb, limits, old(fb.width), old(fb.height), loads, sweeps);
  }

  /** Planning the CRTCs keeps what the outputs are to be. */
  method PrepareRest(outs: seq<Output>, crtcs: seq<Crtc>, modes: seq<Mode>, ghost warned: bool,
                     fb: ScreenSize.Framebuffer, ghost limits: ScreenSize.Limits, ghost startWidth: int,
                     ghost startHeight: int, ghost loads: seq<Load>, ghost sweeps: nat)
    returns (failure: Option<Ending>)
    requires DistinctOutputs(outs) && DistinctCrtcs(crtcs) && PickCrtcs.DistinctXids(crtcs)
    requires Unplanned(crtcs) && Ready(outs, crtcs, modes) && AllStay(outs, crtcs, loads)
    requires !warned ==> ScreenSize.AllFit(outs, |outs|, fb.width, fb.height)
    requires AsAsked(outs, loads, sweeps)
    requires SizedFor(outs, loads, limits, startWidth, startHeight, fb.width, fb.height)
    modifies outs`crtcInfo, outs`currentCrtcInfo, outs`changes, crtcs
    ensures failure.Some? ==> failure.value.NotPicked? || failure.value.UnknownOldOutput?
    ensures failure.Some? ==>
      GivesUpFor(failure.value, outs, crtcs, modes, limits, startWidth, startHeight, loads, sweeps)
    ensures failure.None? ==> Prepared(outs, crtcs, modes)
    ensures failure.None? && !warned ==> AllPlansFit(crtcs, modes, true, fb.width, fb.height)
    ensures failure.None? ==> PlanStands(outs, crtcs, modes, loads, sweeps)
    ensures SizedFor(outs, loads, limits, startWidth, startHeight, fb.width, fb.height)
  {
    failure := PrepareCrtcs(outs, crtcs, modes, warned, fb.width, fb.height, loads);
  }

  /** From outputs in place to CRTCs planned and marked. */
  method PrepareCrtcs(outs: seq<Output>, crtcs: seq<Crtc>, modes: seq<Mode>, ghost warned: bool,
                      ghost width: int, ghost height: int, ghost loads: seq<Load>)
    returns (failure: Option<Ending>)
    requires DistinctOutputs(outs) && DistinctCrtcs(crtcs) && PickCrtcs.DistinctXids(crtcs)
    requires Unplanned(crtcs) && Ready(outs, crtcs, modes) && AllStay(outs, crtcs, loads)
    requires !warned ==> ScreenSize.AllFit(outs, |outs|, width, height)
    modifies outs`crtcInfo, outs`currentCrtcInfo, outs`changes, crtcs
    ensures failure.Some? ==> failure.value.NotPicked? || failure.value.UnknownOldOutput?
    ensures failure.Some? && failure.value.NotPicked? ==> PickFails(outs, crtcs, modes, failure.value.picking)
    ensures failure.Some? && failure.value.UnknownOldOutput? ==>
      exists c :: 0 <= c < |crtcs| && !OldOutputsKnown(outs, crtcs[c])
    ensures failure.None? ==>
      AllOnCrtcs(outs, crtcs) && PickedFor(outs, crtcs, modes, loads) && OnOwnCrtcs(outs, crtcs, loads)
    ensures failure.None? ==> Prepared(outs, crtcs, modes)
    ensures failure.None? && !warned ==> AllPlansFit(crtcs, modes, true, width, height)
  {
    if !warned {
      FitIsSameFit(outs, width, height);
    }
    UnplannedIsNothingPlanned(crtcs);
    var picking := Pick(outs, crtcs, modes, loads);
    if picking != PickCrtcs.Picked {
      return Some(NotPicked(picking));
    }
    var known := PlanPicked(outs, crtcs, modes, warned, width, height, loads);
    failure := if known then None else Some(UnknownOldOutput);
  }

  /** Planning the CRTCs changes nothing about which ones were picked. */
  method PlanPicked(outs: seq<Output>, crtcs: seq<Crtc>, modes: seq<Mode>, ghost warned: bool, ghost width: int,
                    ghost height: int, ghost loads: seq<Load>)
    returns (known: bool)
    requires DistinctCrtcs(crtcs) && Unplanned(crtcs) && AllOnCrtcs(outs, crtcs) && Ready(outs, crtcs, modes)
    requires !warned ==> SameFit(outs, width, height)
    requires PickedFor(outs, crtcs, modes, loads) && OnOwnCrtcs(outs, crtcs, loads)
    modifies crtcs
    ensures AllOnCrtcs(outs, crtcs) && PickedFor(outs, crtcs, modes, loads) && OnOwnCrtcs(outs, crtcs, loads)
    ensures known ==> Prepared(outs, crtcs, modes) && (!warned ==> AllPlansFit(crtcs, modes, true, width, height))
    ensures !known ==> exists c :: 0 <= c < |crtcs| && !OldOutputsKnown(outs, crtcs[c])
  {
    known := PlanFitting(outs, crtcs, modes, warned, width, height);
  }

  /** Plans the CRTCs for outputs that have theirs. */
  method PlanFitting(outs: seq<Output>, crtcs: seq<Crtc>, modes: seq<Mode>, ghost warned: bool, ghost width: int,
                     ghost height: int)
    returns (known: bool)
    requires DistinctCrtcs(crtcs) && Unplanned(crtcs) && AllOnCrtcs(outs, crtcs) && Ready(outs, crtcs, modes)
    requires !warned ==> SameFit(outs, width, height)
    modifies crtcs
    ensures known ==> Prepared(outs, crtcs, modes) && (!warned ==> AllPlansFit(crtcs, modes, true, width, height))
    ensures !known ==> exists c :: 0 <= c < |crtcs| && !OldOutputsKnown(outs, crtcs[c])
  {
    known := PlanCrtcs(outs, crtcs);
    if known && !warned {
      PlansFit(outs, crtcs, modes, width, height);
    }
  }

  lemma FitIsSameFit(outs: seq<Output>, width: int, height: int)
    requires ScreenSize.AllFit(outs, |outs|, width, height)
    ensures SameFit(outs, width, height)
  {
    assert forall k :: 0 <= k < |outs| ==> ScreenSize.FitsScreen(outs[k], width, height);
  }

  lemma UnplannedIsNothingPlanned(crtcs: seq<Crtc>)
    requires Unplanned(crtcs)
    ensures PickCrtcs.NothingPlanned(crtcs)
  {
    assert forall c :: 0 <= c < |crtcs| ==> PlannedFor(crtcs[c], []);
  }

  ghost predicate Prepared(outs: seq<Output>, crtcs: seq<Crtc>, modes: seq<Mode>)
    reads outs, crtcs, PlannedOutputs(crtcs)
  {
    && UnchangedAsDriven(outs, crtcs, modes) && AllPlannedFor(crtcs, outs, |outs|)
    && AllMarked(outs, crtcs) && PanningPlanned(outs, crtcs)
  }

  /** Runs the transaction; it may mark more CRTCs, which keeps the plan prepared. */
  method ApplyPrepared(outs: seq<Output>, crtcs: seq<Crtc>, server: Server, size: Size, display: Size, has13: bool)
    returns (outcome: Outcome)
    requires Prepared(outs, crtcs, server.modes)
    requires Indexed(server, crtcs) && AllAsRead(server, crtcs) && server.state.size == display
    modifies crtcs`changing, server
    ensures |server.state.crtcs| == |crtcs|
    ensures outcome == Applied ==>
      Prepared(outs, crtcs, server.modes) && AllAsPlanned(server, crtcs, has13) && server.state.size == size
    ensures outcome == Panicked(0) ==> server.state.size == display && AllAsRead(server, crtcs)
    ensures outcome == Panicked(0) ==> RolledBack(server, |old(server.trace)|, size, display)
    ensures outcome == Applied ==> server.refused == old(server.refused)
    ensures outcome.Panicked? ==>
      server.refused > old(server.refused) + outcome.refusedWhileReverting || AnyModeUnknown(crtcs, server.modes)
    ensures old(server.trace) <= server.trace
    ensures old(Safe(server.modes, server.state) && AllPlansFit(crtcs, server.modes, has13, size.width, size.height))
            && (outcome == Applied || outcome == Panicked(0)) ==>
      TraceSafe(server, |old(server.trace)|)
  {
    outcome := Apply(server, crtcs, size, display, has13);
    forall c | 0 <= c < |crtcs| ensures Unmarked(outs, crtcs[c]) {
      assert old(Unmarked(outs, crtcs[c]));
    }
    assert PanningPlanned(outs, crtcs) by {
      forall c | 0 <= c < |crtcs| && NewPanning(outs, |outs|, c).Some?
        ensures crtcs[c].changing && crtcs[c].panning == NewPanning(outs, |outs|, c)
      {
        assert old(NewPanning(outs, |outs|, c)) == NewPanning(outs, |outs|, c);
      }
    }
  }

  /** The plan stands: outputs as asked for, on CRTCs picked for that, on a screen of the right size. */
  ghost predicate PlanStands(outs: seq<Output>, crtcs: seq<Crtc>, modes: seq<Mode>, loads: seq<Load>, sweeps: nat)
    reads outs
  {
    && AsAsked(outs, loads, sweeps)
    && PickedFor(outs, crtcs, modes, loads) && OnOwnCrtcs(outs, crtcs, loads) && AllOnCrtcs(outs, crtcs)
  }

  /** The plan is in force: on every CRTC, for every output, and on those that share a CRTC if they agree. */
  ghost predicate PlanShown(server: Server, outs: seq<Output>, crtcs: seq<Crtc>, loads: seq<Load>, has13: bool)
    requires |server.state.crtcs| == |crtcs| && |loads| == |outs|
    reads server, outs
  {
    && ServerShowsPlan(server, outs, crtcs, has13) && AllDriven(server, outs, crtcs)
    && (AllShown(server, outs, crtcs, has13) <==> SharersAgree(outs, has13))
    && (Compatible(outs, loads) ==> AllShown(server, outs, crtcs, has13))
    && PanningShown(server, outs, crtcs)
  }

  /** Every CRTC that is on has the new panning area that one of its outputs asks for. */
  ghost predicate PanningShown(server: Server, outs: seq<Output>, crtcs: seq<Crtc>)
    requires |server.state.crtcs| == |crtcs|
    reads server, outs`crtcInfo, outs`changes, outs`panning, outs`modeInfo
  {
    forall c {:trigger NewPanning(outs, |outs|, c)} ::
      (0 <= c < |crtcs| && NewPanning(outs, |outs|, c).Some? && Mine(outs, |outs|, c) != []) ==>
      server.state.crtcs[c].panning == NewPanning(outs, |outs|, c)
  }

  lemma {:induction false} PlannedPanningIsShown(server: Server, outs: seq<Output>, crtcs: seq<Crtc>, has13: bool)
    requires |server.state.crtcs| == |crtcs| && AllPlannedFor(crtcs, outs, |outs|) && PanningPlanned(outs, crtcs)
    requires AllAsPlanned(server, crtcs, has13)
    ensures PanningShown(server, outs, crtcs)
  {
    forall c | 0 <= c < |crtcs| && NewPanning(outs, |outs|, c).Some? && Mine(outs, |outs|, c) != []
      ensures server.state.crtcs[c].panning == NewPanning(outs, |outs|, c)
    {
      var mine := Mine(outs, |outs|, c);
      InWhole(outs, mine[0], c);
      assert PlannedFor(crtcs[c], mine) && AsPlanned(server.state.crtcs[c], crtcs[c], has13);
    }
  }

  lemma {:induction false} AppliedIsShown(server: Server, outs: seq<Output>, crtcs: seq<Crtc>, loads: seq<Load>,
                                          sweeps: nat, has13: bool)
    requires Consistent(outs, crtcs) && |server.state.crtcs| == |crtcs|
    requires Prepared(outs, crtcs, server.modes) && AllAsPlanned(server, crtcs, has13)
    requires PlanStands(outs, crtcs, server.modes, loads, sweeps)
    ensures PlanShown(server, outs, crtcs, loads, has13)
  {
    AppliedShowsPlan(server, outs, crtcs, server.modes, has13);
    ShownIsDriven(server, outs, crtcs, has13);
    ShownExactlyWhenAgree(server, outs, crtcs, has13);
    PlannedPanningIsShown(server, outs, crtcs, has13);
    if Compatible(outs, loads) { CompatibleAgree(outs, crtcs, loads, sweeps, has13); }
  }

  /** Runs the transaction, also on a server that takes no transforms if none is changed. */
  method ApplySafely(outs: seq<Output>, crtcs: seq<Crtc>, server: Server, size: Size, display: Size, has13: bool)
    returns (outcome: Outcome)
    requires Prepared(outs, crtcs, server.modes)
    requires Indexed(server, crtcs) && AllAsRead(server, crtcs) && server.state.size == display
    modifies crtcs`changing, server
    ensures |server.state.crtcs| == |crtcs|
    ensures outcome == Applied ==>
      && Prepared(outs, crtcs, server.modes) && AllAsPlanned(server, crtcs, has13)
      && server.state.size == size && server.refused == old(server.refused)
    ensures outcome == Panicked(0) ==>
      && server.state.size == display && AllAsRead(server, crtcs)
      && RolledBack(server, |old(server.trace)|, size, display)
    ensures outcome.Panicked? ==>
      server.refused > old(server.refused) + outcome.refusedWhileReverting || AnyModeUnknown(crtcs, server.modes)
    ensures old(server.trace) <= server.trace
    ensures (old(Safe(server.modes, server.state) && AllPlansFit(crtcs, server.modes, true, size.width, size.height))
             && (has13 || TransformsKept(outs, crtcs)) && (outcome == Applied || outcome == Panicked(0))) ==>
      TraceSafe(server, |old(server.trace)|)
  {
    if AllPlansFit(crtcs, server.modes, true, size.width, size.height) && (has13 || TransformsKept(outs, crtcs)) {
      PlansFitAnyServer(outs, crtcs, server.modes, has13, size.width, size.height);
    }
    outcome := ApplyPrepared(outs, crtcs, server, size, display, has13);
  }

  /** Running the transaction changes nothing about a plan that stands. */
  method ApplyStanding(outs: seq<Output>, crtcs: seq<Crtc>, server: Server, size: Size, display: Size, has13: bool,
                       ghost loads: seq<Load>, ghost sweeps: nat, ghost limits: ScreenSize.Limits,
                       ghost startWidth: int, ghost startHeight: int)
    returns (outcome: Outcome)
    requires Prepared(outs, crtcs, server.modes)
    requires PlanStands(outs, crtcs, server.modes, loads, sweeps)
    requires SizedFor(outs, loads, limits, startWidth, startHeight, size.width, size.height)
    requires Indexed(server, crtcs) && AllAsRead(server, crtcs) && server.state.size == display
    modifies crtcs`changing, server
    ensures |server.state.crtcs| == |crtcs| && PlanStands(outs, crtcs, server.modes, loads, sweeps)
    ensures SizedFor(outs, loads, limits, startWidth, startHeight, size.width, size.height)
    ensures outcome == Applied ==>
      && Prepared(outs, crtcs, server.modes) && AllAsPlanned(server, crtcs, has13)
      && server.state.size == size && server.refused == old(server.refused)
    ensures outcome == Panicked(0) ==>
      && server.state.size == display && AllAsRead(server, crtcs)
      && RolledBack(server, |old(server.trace)|, size, display)
    ensures outcome.Panicked? ==>
      server.refused > old(server.refused) + outcome.refusedWhileReverting || AnyModeUnknown(crtcs, server.modes)
    ensures old(server.trace) <= server.trace
    ensures (old(Safe(server.modes, server.state) && AllPlansFit(crtcs, server.modes, true, size.width, size.height))
             && (has13 || TransformsKept(outs, crtcs)) && (outcome == Applied || outcome == Panicked(0))) ==>
      TraceSafe(server, |old(server.trace)|)
  {
    outcome := ApplySafely(outs, crtcs, server, size, display, has13);
  }

  /** Runs the transaction on a plan that stands. */
  method ApplyPlan(outs: seq<Output>, crtcs: seq<Crtc>, server: Server, size: Size, display: Size, has13: bool,
                   ghost loads: seq<Load>, ghost sweeps: nat, ghost limits: ScreenSize.Limits, ghost startWidth: int,
                   ghost startHeight: int)
    returns (outcome: Outcome)
    requires Consistent(outs, crtcs) && Prepared(outs, crtcs, server.modes)
    requires PlanStands(outs, crtcs, server.modes, loads, sweeps)
    requires SizedFor(outs, loads, limits, startWidth, startHeight, size.width, size.height)
    requires Indexed(server, crtcs) && AllAsRead(server, crtcs) && server.state.size == display
    modifies crtcs`changing, server
    ensures |server.state.crtcs| == |crtcs| && PlanStands(outs, crtcs, server.modes, loads, sweeps)
    ensures SizedFor(outs, loads, limits, startWidth, startHeight, size.width, size.height)
    ensures outcome == Applied ==>
      PlanShown(server, outs, crtcs, loads, has13) && server.state.size == size && server.refused == old(server.refused)
    ensures outcome == Panicked(0) ==>
      && server.state.size == display && AllAsRead(server, crtcs)
      && RolledBack(server, |old(server.trace)|, size, display)
    ensures outcome.Panicked? ==>
      server.refused > old(server.refused) + outcome.refusedWhileReverting || AnyModeUnknown(crtcs, server.modes)
    ensures old(server.trace) <= server.trace
    ensures (old(Safe(server.modes, server.state) && AllPlansFit(crtcs, server.modes, true, size.width, size.height))
             && (has13 || TransformsKept(outs, crtcs)) && (outcome == Applied || outcome == Panicked(0))) ==>
      TraceSafe(server, |old(server.trace)|)
  {
    outcome := ApplyStanding(outs, crtcs, server, size, display, has13, loads, sweeps, limits, startWidth, startHeight);
    if outcome == Applied {
      AppliedIsShown(server, outs, crtcs, loads, sweeps, has13);
    }
  }

  /** The whole run, for what loading makes of the outputs (`loads`). */
  method ConfigureFor(outs: seq<Output>, crtcs: seq<Crtc>, wanted: seq<Wanted>, server: Server,
                      fb: ScreenSize.Framebuffer, limits: ScreenSize.Limits, display: Size, mm: (int, int),
                      has13: bool, sweeps: nat, ghost loads: seq<Load>)
    returns (r: Ending, warned: bool)
    requires Consistent(outs, crtcs) && |wanted| == |outs| && ModesReported(server.modes, wanted)
    requires loads == Loads(outs, crtcs, server.modes, wanted)
    requires Unplanned(crtcs)
    requires Indexed(server, crtcs) && AllAsRead(server, crtcs) && server.state.size == display
    modifies outs`changes, outs`crtcInfo, outs`currentCrtcInfo, outs`modeInfo, outs`x, outs`y, outs`rotation
    modifies outs`transform, crtcs, server, fb
    ensures |server.state.crtcs| == |crtcs|
    ensures r == Ran(Applied) ==>
      && PlanShown(server, outs, crtcs, loads, has13)
      && server.state.size == Size(fb.width, fb.height, mm.0, mm.1) && server.refused == old(server.refused)
    ensures r.Ran? ==>
      && PlanStands(outs, crtcs, server.modes, loads, sweeps)
      && SizedFor(outs, loads, limits, old(fb.width), old(fb.height), fb.width, fb.height)
    ensures r == Ran(Panicked(0)) ==>
      && server.state.size == display && AllAsRead(server, crtcs)
      && RolledBack(server, |old(server.trace)|, Size(fb.width, fb.height, mm.0, mm.1), display)
    ensures r.Ran? && r.outcome.Panicked? ==>
      server.refused > old(server.refused) + r.outcome.refusedWhileReverting || AnyModeUnknown(crtcs, server.modes)
    ensures !r.Ran? ==> server.state == old(server.state) && server.trace == old(server.trace)
    ensures r.NotLoaded? <==> !old(AllCanLoad(outs, crtcs, server.modes, wanted))
    ensures r.NotPlaced? <==>
      && old(AllCanLoad(outs, crtcs, server.modes, wanted))
      && !PlacingOf(outs, loads, sweeps).Placed?
    ensures !r.Ran? ==>
      GivesUpFor(r, outs, crtcs, server.modes, limits, old(fb.width), old(fb.height), loads, sweeps)
    ensures old(server.trace) <= server.trace
    ensures ((has13 || TransformsKept(outs, crtcs)) && !warned && old(Safe(server.modes, server.state))
             && (r == Ran(Applied) || r == Ran(Panicked(0)))) ==>
      TraceSafe(server, |old(server.trace)|)
  {
    var failure;
    failure, warned := Prepare(outs, crtcs, server.modes, wanted, fb, limits, sweeps, loads);
    if failure.Some? {
      return failure.value, warned;
    }
    var size := Size(fb.width, fb.height, mm.0, mm.1);
    var outcome := ApplyPlan(outs, crtcs, server, size, display, has13, loads, sweeps, limits, old(fb.width),
                             old(fb.height));
    r := Ran(outcome);
  }

  /**
   A whole run on a server that answered consistently and has not moved since. The plan is what was
   asked for (`told`, `AsTold`) and, where nothing was, what the server had (`loads`, `AsAsked`,
   `SizedFor`), on CRTCs picked as `PickedFor` says. If every request of the transaction is granted, each
   CRTC ends driving exactly the outputs that were planned for it, whether the run touched it or not, and
   each output is shown as it is to be, exactly if those that share a CRTC agree. If one is refused, and none
   while rolling back, the server ends as it was read. If the program gives up earlier, it has not asked the
   server for anything, and the records show why (`GivesUpFor`). When no output was reported too large for
   the screen, no CRTC that is on ever reaches beyond the screen on the way.
   */
  method Configure(outs: seq<Output>, crtcs: seq<Crtc>, wanted: seq<Wanted>, server: Server, fb: ScreenSize.Framebuffer,
                   limits: ScreenSize.Limits, display: Size, mm: (int, int), has13: bool, sweeps: nat,
                   ghost told: seq<Told>, ghost loads: seq<Load>)
    returns (r: Ending, warned: bool)
    requires Consistent(outs, crtcs) && |wanted| == |outs| && ModesReported(server.modes, wanted)
    requires told == ToldOf(outs, wanted) && loads == Loads(outs, crtcs, server.modes, wanted)
    requires Unplanned(crtcs)
    requires Indexed(server, crtcs) && AllAsRead(server, crtcs) && server.state.size == display
    modifies outs`changes, outs`crtcInfo, outs`currentCrtcInfo, outs`modeInfo, outs`x, outs`y, outs`rotation
    modifies outs`transform, crtcs, server, fb
    ensures |server.state.crtcs| == |crtcs|
    ensures r == Ran(Applied) ==>
      && PlanShown(server, outs, crtcs, loads, has13)
      && server.state.size == Size(fb.width, fb.height, mm.0, mm.1) && server.refused == old(server.refused)
    ensures r.Ran? ==>
      && PlanStands(outs, crtcs, server.modes, loads, sweeps)
      && SizedFor(outs, loads, limits, old(fb.width), old(fb.height), fb.width, fb.height)
    ensures r.Ran? ==> AsTold(outs, told)
    ensures r == Ran(Panicked(0)) ==>
      && server.state.size == display && AllAsRead(server, crtcs)
      && RolledBack(server, |old(server.trace)|, Size(fb.width, fb.height, mm.0, mm.1), display)
    ensures r.Ran? && r.outcome.Panicked? ==>
      server.refused > old(server.refused) + r.outcome.refusedWhileReverting || AnyModeUnknown(crtcs, server.modes)
    ensures !r.Ran? ==> server.state == old(server.state) && server.trace == old(server.trace)
    ensures r.NotLoaded? <==> !old(AllCanLoad(outs, crtcs, server.modes, wanted))
    ensures r.NotPlaced? <==>
      && old(AllCanLoad(outs, crtcs, server.modes, wanted))
      && !PlacingOf(outs, loads, sweeps).Placed?
    ensures !r.Ran? ==>
      GivesUpFor(r, outs, crtcs, server.modes, limits, old(fb.width), old(fb.height), loads, sweeps)
    ensures old(server.trace) <= server.trace
    ensures ((has13 || TransformsKept(outs, crtcs)) && !warned && old(Safe(server.modes, server.state))
             && (r == Ran(Applied) || r == Ran(Panicked(0)))) ==>
      TraceSafe(server, |old(server.trace)|)
  {
    forall k | 0 <= k < |outs| ensures TakesTold(told[k], loads[k]) {
      LoadsTakeTold(outs, crtcs, server.modes, wanted, k);
    }
    r, warned := ConfigureFor(outs, crtcs, wanted, server, fb, limits, display, mm, has13, sweeps, loads);
    if r.Ran? {
      AskedAsTold(outs, told, loads, sweeps);
    }
  }
}
