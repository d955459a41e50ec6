/**
 What the run is asked for and starts from, in values (`Load`), and the steps that put it into the
 records: loading every output and placing them.
 */
module Asked {
  import opened RandR
  import opened Geometry
  import opened Records
  import opened Plan
  import PickCrtcs
  import CrtcSearch
  import Sharing
  import ScreenSize
  import SetPositions
  import Placement
  import PinnedCycles

  datatype Wanted = Wanted(crtc: CrtcName, mode: Option<Mode>)

  ghost predicate ModesReported(modes: seq<Mode>, wanted: seq<Wanted>) {
    forall k :: 0 <= k < |wanted| && wanted[k].mode.Some? ==> FindMode(modes, wanted[k].mode.value.id) == wanted[k].mode
  }

  /** Every output has a real CRTC, or a change that will get it one, and a mode the server reported. */
  ghost predicate AllSound(outs: seq<Output>, crtcs: seq<Crtc>, modes: seq<Mode>)
    reads outs`crtcInfo, outs`modeInfo, outs`changes
  {
    forall k :: 0 <= k < |outs| ==>
      && (outs[k].crtcInfo.Some? ==> outs[k].crtcInfo.value < |crtcs|)
      && (outs[k].modeInfo.Some? ==> FindMode(modes, outs[k].modeInfo.value.id) == outs[k].modeInfo)
      && (outs[k].modeInfo.Some? && outs[k].changes == {} ==> outs[k].crtcInfo.Some?)
  }

  // ----- what was asked for -----

  /** A relation and the output it names; they count only if a relation was asked for. */
  datatype Beside = Beside(relation: Placement.Relation, name: string)

  /** What loading makes of an output: its CRTC, mode, geometry and panning area, and what was asked to change. */
  datatype Load = Load(changes: set<Change>, beside: Beside, chosen: Option<nat>, mode: Option<Mode>, view: View,
                       pan: Option<Panning>)

  /** Everything asked for is taken, and the rest is the server's. */
  ghost function LoadOf(o: Output, crtcs: seq<Crtc>, modes: seq<Mode>, w: Wanted): Load
    reads o, crtcs
  {
    var chosen := ChosenCrtc(crtcs, CrtcFor(o, w.crtc));
    Load(o.changes, Beside(o.relation, o.relativeTo), chosen, ModeFor(o, crtcs, modes, chosen, w.mode),
         GeometryOf(ViewOf(o), o, chosen, crtcs),
         if ChangedPanning in o.changes then Some(o.panning)
         else if chosen.Some? && chosen.value < |crtcs| then crtcs[chosen.value].panning
         else None)
  }

  /** What the user tells about an output: what to change, the mode, and position, rotation and transform. */
  datatype Told = Told(changes: set<Change>, mode: Option<Mode>, view: View)

  ghost function ToldOf(outs: seq<Output>, wanted: seq<Wanted>): (told: seq<Told>)
    requires |wanted| == |outs|
    reads outs
    ensures |told| == |outs|
    ensures forall k {:trigger told[k]} :: 0 <= k < |outs| ==>
      told[k] == Told(outs[k].changes, wanted[k].mode, ViewOf(outs[k]))
  {
    seq(|outs|, k requires 0 <= k < |outs| reads outs => Told(outs[k].changes, wanted[k].mode, ViewOf(outs[k])))
  }

  /** What is told of an output goes into its load as it is. */
  ghost predicate TakesTold(t: Told, load: Load) {
    && load.changes == t.changes
    && (ChangedMode in t.changes ==> load.mode == t.mode)
    && (ChangedPosition in t.changes ==> load.view.x == t.view.x && load.view.y == t.view.y)
    && (ChangedRotation in t.changes ==> load.view.rotation.direction == t.view.rotation.direction)
    && (ChangedRotation in t.changes && ChangedReflection in t.changes ==> load.view.rotation == t.view.rotation)
    && (ChangedTransform in t.changes ==> load.view.transform == t.view.transform)
  }

  lemma {:induction false} LoadsTakeTold(outs: seq<Output>, crtcs: seq<Crtc>, modes: seq<Mode>, wanted: seq<Wanted>,
                                         k: nat)
    requires k < |outs| == |wanted|
    ensures TakesTold(ToldOf(outs, wanted)[k], Loads(outs, crtcs, modes, wanted)[k])
  {
    assert Loads(outs, crtcs, modes, wanted)[k] == LoadOf(outs[k], crtcs, modes, wanted[k]);
  }

  ghost function Loads(outs: seq<Output>, crtcs: seq<Crtc>, modes: seq<Mode>, wanted: seq<Wanted>): (loads: seq<Load>)
    requires |wanted| == |outs|
    reads outs, crtcs
    ensures |loads| == |outs|
    ensures forall k {:trigger loads[k]} :: 0 <= k < |outs| ==> loads[k] == LoadOf(outs[k], crtcs, modes, wanted[k])
  {
    seq(|outs|, k requires 0 <= k < |outs| reads outs, crtcs => LoadOf(outs[k], crtcs, modes, wanted[k]))
  }

  ghost predicate HasLoaded(o: Output, crtcs: seq<Crtc>, load: Load)
    reads o, crtcs
  {
    && (o.crtcInfo.Some? ==> o.crtcInfo.value < |crtcs| && crtcs[o.crtcInfo.value].xid in o.info.crtcs)
    && load == Load(o.changes, Beside(o.relation, o.relativeTo), o.crtcInfo, o.modeInfo, ViewOf(o),
                    ScreenSize.PanOf(o, crtcs))
  }

  ghost predicate AllLoaded(outs: seq<Output>, crtcs: seq<Crtc>, loads: seq<Load>)
    reads outs, crtcs
  {
    |loads| == |outs| && forall k {:trigger loads[k]} :: 0 <= k < |outs| ==> HasLoaded(outs[k], crtcs, loads[k])
  }

  /** The CRTCs that the outputs start from. */
  function ChosenOf(loads: seq<Load>): (a: seq<CrtcSearch.Choice>)
    ensures |a| == |loads|
    ensures forall k {:trigger a[k]} {:trigger loads[k]} :: 0 <= k < |loads| ==> a[k] == loads[k].chosen
  {
    seq(|loads|, k requires 0 <= k < |loads| => loads[k].chosen)
  }

  /** Every output can be loaded: its CRTC exists and it can use it, and its mode is known. */
  ghost predicate AllCanLoad(outs: seq<Output>, crtcs: seq<Crtc>, modes: seq<Mode>, wanted: seq<Wanted>)
    requires |wanted| == |outs|
    reads outs`changes
  {
    forall k :: 0 <= k < |outs| ==> CanLoad(outs[k], crtcs, modes, wanted[k].crtc)
  }

  function PansOf(loads: seq<Load>): (pans: seq<Option<Panning>>)
    ensures |pans| == |loads|
    ensures forall k {:trigger pans[k]} {:trigger loads[k]} :: 0 <= k < |loads| ==> pans[k] == loads[k].pan
  {
    seq(|loads|, k requires 0 <= k < |loads| => loads[k].pan)
  }

  method LoadOutputs(outs: seq<Output>, crtcs: seq<Crtc>, modes: seq<Mode>, wanted: seq<Wanted>) returns (r: LoadResult)
    requires DistinctOutputs(outs) && |wanted| == |outs| && ModesReported(modes, wanted)
    modifies outs`crtcInfo, outs`modeInfo, outs`x, outs`y, outs`rotation, outs`transform
    ensures r == Loaded ==> AllSound(outs, crtcs, modes) && UnchangedAsDriven(outs, crtcs, modes)
    ensures r == Loaded ==> AllLoaded(outs, crtcs, old(Loads(outs, crtcs, modes, wanted)))
    ensures r == Loaded <==> AllCanLoad(outs, crtcs, modes, wanted)
  {
    ghost var loads := Loads(outs, crtcs, modes, wanted);
    r := LoadEach(outs, crtcs, modes, wanted, loads);
    if r == Loaded {
      LoadedIsReady(outs, crtcs, modes, wanted, loads);
    }
  }

  /** The loop over the outputs. */
  method LoadEach(outs: seq<Output>, crtcs: seq<Crtc>, modes: seq<Mode>, wanted: seq<Wanted>, ghost loads: seq<Load>)
    returns (r: LoadResult)
    requires DistinctOutputs(outs) && |wanted| == |outs| && loads == Loads(outs, crtcs, modes, wanted)
    modifies outs`crtcInfo, outs`modeInfo, outs`x, outs`y, outs`rotation, outs`transform
    ensures r == Loaded ==>
      forall j {:trigger loads[j]} :: 0 <= j < |outs| ==> LoadedWell(outs[j], crtcs, modes, wanted[j], loads[j])
    ensures r != Loaded ==> !AllCanLoad(outs, crtcs, modes, wanted)
  {
    var k := 0;
    while k < |outs|
      invariant 0 <= k <= |outs|
      invariant forall j {:trigger loads[j]} :: 0 <= j < k ==> LoadedWell(outs[j], crtcs, modes, wanted[j], loads[j])
      invariant forall j {:trigger loads[j]} :: k <= j < |outs| ==> loads[j] == LoadOf(outs[j], crtcs, modes, wanted[j])
    {
      assert forall j :: 0 <= j < |outs| && j != k ==> outs[j] != outs[k];
      r := LoadOne(outs[k], crtcs, modes, wanted[k], loads[k]);
      if r != Loaded {
        assert !CanLoad(outs[k], crtcs, modes, wanted[k].crtc);
        return;
      }
      k := k + 1;
    }
    r := Loaded;
  }

  ghost predicate LoadedWell(o: Output, crtcs: seq<Crtc>, modes: seq<Mode>, w: Wanted, load: Load)
    reads o, crtcs
  {
    && CanLoad(o, crtcs, modes, w.crtc) && HasLoaded(o, crtcs, load) && Sound(o, crtcs, modes, w.mode)
    && (o.changes == {} ==> AsDriven(o, crtcs, modes))
  }

  lemma LoadedIsReady(outs: seq<Output>, crtcs: seq<Crtc>, modes: seq<Mode>, wanted: seq<Wanted>, loads: seq<Load>)
    requires |wanted| == |outs| == |loads| && ModesReported(modes, wanted)
    requires forall k {:trigger loads[k]} :: 0 <= k < |outs| ==> LoadedWell(outs[k], crtcs, modes, wanted[k], loads[k])
    ensures AllSound(outs, crtcs, modes) && UnchangedAsDriven(outs, crtcs, modes) && AllLoaded(outs, crtcs, loads)
    ensures AllCanLoad(outs, crtcs, modes, wanted)
  {
    forall k | 0 <= k < |outs|
      ensures LoadedWell(outs[k], crtcs, modes, wanted[k], loads[k])
    {
      var load := loads[k];
    }
  }

  method LoadOne(o: Output, crtcs: seq<Crtc>, modes: seq<Mode>, w: Wanted, ghost load: Load) returns (r: LoadResult)
    requires load == LoadOf(o, crtcs, modes, w)
    modifies o`crtcInfo, o`modeInfo, o`x, o`y, o`rotation, o`transform
    ensures r == Loaded <==> CanLoad(o, crtcs, modes, w.crtc)
    ensures r == Loaded ==> LoadedWell(o, crtcs, modes, w, load)
  {
    r := SetOutputInfo(o, crtcs, modes, w.crtc, w.mode);
  }

  /** The facts about the records that the later steps keep. */
  ghost predicate Ready(outs: seq<Output>, crtcs: seq<Crtc>, modes: seq<Mode>)
    reads outs
  {
    AllSound(outs, crtcs, modes) && UnchangedAsDriven(outs, crtcs, modes)
  }

  /** Relations asked for, between outputs that are on, hold. */
  ghost predicate RelationsMet(outs: seq<Output>, loads: seq<Load>)
    requires |loads| == |outs|
    reads outs`modeInfo, outs`relation, outs`rotation, outs`x, outs`y
  {
    forall k, t {:trigger outs[k], outs[t]} :: 0 <= k < |outs| && 0 <= t < |outs| ==>
      (ChangedRelation in loads[k].changes && FindByName(outs, loads[k].beside.name) == t
       && outs[k].modeInfo.Some? && outs[t].modeInfo.Some? ==>
         SetPositions.StandsBy(outs[k], outs[t]))
  }

  /** The relation graph that the outputs have once they are loaded, and where they are then. */
  ghost function GraphOf(outs: seq<Output>, loads: seq<Load>): (g: seq<Placement.Node>)
    requires |loads| == |outs|
    ensures |g| == |outs| && Placement.Valid(g)
    ensures forall k {:trigger g[k]} :: 0 <= k < |g| ==> g[k] == NodeFor(outs, loads[k])
  {
    seq(|outs|, k requires 0 <= k < |outs| => NodeFor(outs, loads[k]))
  }

  function NodeFor(outs: seq<Output>, load: Load): Placement.Node {
    var t := FindByName(outs, load.beside.name);
    Placement.Node(load.mode.Some?, ChangedRelation in load.changes, if t < |outs| then Some(t) else None,
                   load.beside.relation,
                   if load.mode.Some? then ModeWidth(load.mode.value, load.view.rotation) else 0,
                   if load.mode.Some? then ModeHeight(load.mode.value, load.view.rotation) else 0)
  }

  ghost function SpotsOf(loads: seq<Load>): (spots: seq<Placement.Spot>)
    ensures |spots| == |loads|
    ensures forall k {:trigger spots[k]} :: 0 <= k < |loads| ==>
      spots[k] == Placement.Spot(loads[k].view.x, loads[k].view.y, ChangedPosition in loads[k].changes)
  {
    seq(|loads|, k requires 0 <= k < |loads| =>
          Placement.Spot(loads[k].view.x, loads[k].view.y, ChangedPosition in loads[k].changes))
  }

  lemma {:induction false} LoadedGraph(outs: seq<Output>, crtcs: seq<Crtc>, loads: seq<Load>)
    requires AllLoaded(outs, crtcs, loads)
    ensures SetPositions.Graph(outs) == GraphOf(outs, loads) && SetPositions.Spots(outs) == SpotsOf(loads)
  {
    forall k | 0 <= k < |outs|
      ensures SetPositions.Graph(outs)[k] == GraphOf(outs, loads)[k] && SetPositions.Spots(outs)[k] == SpotsOf(loads)[k]
    {
      assert HasLoaded(outs[k], crtcs, loads[k]);
    }
  }

  /** How the placement loop ends for what was asked. */
  ghost function PlacingOf(outs: seq<Output>, loads: seq<Load>, sweeps: nat): Placement.Outcome
    requires |loads| == |outs|
  {
    Placement.Run(GraphOf(outs, loads), SpotsOf(loads), sweeps)
  }

  /**
   The outputs have the mode, rotation and transform asked for, or else the server's; they stand where
   the placement loop puts them, all moved alike so that no output that is on has a negative coordinate;
   and relations hold, unless explicit positions come in between.
   */
  ghost predicate AsAsked(outs: seq<Output>, loads: seq<Load>, sweeps: nat)
    reads outs`modeInfo, outs`relation, outs`rotation, outs`transform, outs`x, outs`y
  {
    && |loads| == |outs|
    && (forall k {:trigger loads[k]} :: 0 <= k < |outs| ==>
          && outs[k].modeInfo == loads[k].mode && outs[k].relation == loads[k].beside.relation
          && outs[k].rotation == loads[k].view.rotation && outs[k].transform == loads[k].view.transform
          && (outs[k].modeInfo.Some? ==> outs[k].x >= 0 && outs[k].y >= 0))
    && (exists dx, dy :: SetPositions.PlacedBy(outs, PlacingOf(outs, loads, sweeps), dx, dy))
    && (SetPositions.PinsAgree(GraphOf(outs, loads), SpotsOf(loads)) ==> RelationsMet(outs, loads))
  }

  /** Of what placing ensures, the part that the rest of the run needs. */
  method PlaceReady(outs: seq<Output>, crtcs: seq<Crtc>, modes: seq<Mode>, sweeps: nat)
    returns (r: SetPositions.Result, minX: int, minY: int)
    requires DistinctOutputs(outs) && Ready(outs, crtcs, modes)
    modifies outs`x, outs`y, outs`changes
    ensures Ready(outs, crtcs, modes)
    ensures SetPositions.AllOnlyMoved(outs, old(SetPositions.Tags(outs)))
    ensures var g, spots := old(SetPositions.Graph(outs)), old(SetPositions.Spots(outs));
      && SetPositions.Ends(Placement.Run(g, spots, sweeps), r)
      && (r == SetPositions.Positioned ==>
            && SetPositions.PlacedBy(outs, Placement.Run(g, spots, sweeps), minX, minY)
            && (SetPositions.PinsAgree(g, spots) ==> SetPositions.RelationsHold(outs))
            && (forall o :: o in outs && o.modeInfo.Some? ==> o.x >= 0 && o.y >= 0))
  {
    ghost var was := SetPositions.Tags(outs);
    r, minX, minY := SetPositions.SetPositions(outs, sweeps);
    forall k | 0 <= k < |outs| && outs[k].changes == {} ensures AsDriven(outs[k], crtcs, modes) {
      assert SetPositions.OnlyMoved(outs[k], was[k]);
      assert outs[k] in outs && old(outs[k].changes == {});
      assert old(AsDriven(outs[k], crtcs, modes));
    }
  }

  method Place(outs: seq<Output>, crtcs: seq<Crtc>, modes: seq<Mode>, sweeps: nat, ghost loads: seq<Load>)
    returns (r: SetPositions.Result)
    requires DistinctOutputs(outs) && Ready(outs, crtcs, modes) && AllLoaded(outs, crtcs, loads)
    modifies outs`x, outs`y, outs`changes
    ensures Ready(outs, crtcs, modes) && AllStay(outs, crtcs, loads)
    ensures SetPositions.Ends(PlacingOf(outs, loads, sweeps), r)
    ensures r == SetPositions.Positioned ==> AsAsked(outs, loads, sweeps)
  {
    ghost var was := SetPositions.Tags(outs);
    LoadedGraph(outs, crtcs, loads);
    var minX, minY;
    r, minX, minY := PlaceReady(outs, crtcs, modes, sweeps);
    forall k | 0 <= k < |outs| ensures LoadStays(outs[k], crtcs, loads[k]) {
      assert SetPositions.OnlyMoved(outs[k], was[k]);
      assert old(HasLoaded(outs[k], crtcs, loads[k]));
    }
    if r == SetPositions.Positioned {
      PlacedIsAsAsked(outs, crtcs, loads, sweeps, minX, minY);
    }
  }

  /** Loaded, and since then at most moved. */
  ghost predicate LoadStays(o: Output, crtcs: seq<Crtc>, load: Load)
    reads o, crtcs
  {
    && (o.crtcInfo.Some? ==> o.crtcInfo.value < |crtcs| && crtcs[o.crtcInfo.value].xid in o.info.crtcs)
    && SetPositions.OnlyMoved(o, SetPositions.Tag(load.changes, load.view.x, load.view.y))
    && load == Load(load.changes, Beside(o.relation, o.relativeTo), o.crtcInfo, o.modeInfo,
                    View(load.view.x, load.view.y, o.rotation, o.transform), ScreenSize.PanOf(o, crtcs))
  }

  ghost predicate AllStay(outs: seq<Output>, crtcs: seq<Crtc>, loads: seq<Load>)
    reads outs, crtcs
  {
    |loads| == |outs| && forall k {:trigger loads[k]} :: 0 <= k < |outs| ==> LoadStays(outs[k], crtcs, loads[k])
  }

  lemma {:induction false} LoadsStay(outs: seq<Output>, crtcs: seq<Crtc>, loads: seq<Load>)
    requires AllStay(outs, crtcs, loads)
    ensures ScreenSize.CrtcsKnown(outs, crtcs) && ScreenSize.PansAre(outs, crtcs, PansOf(loads))
    ensures PickCrtcs.ChoicesOf(outs) == ChosenOf(loads) && Sharing.Listed(outs, crtcs, ChosenOf(loads))
  {
    forall o | o in outs && o.crtcInfo.Some? ensures o.crtcInfo.value < |crtcs| {
      var k :| 0 <= k < |outs| && outs[k] == o;
      assert LoadStays(outs[k], crtcs, loads[k]);
    }
    forall k | 0 <= k < |outs|
      ensures PansOf(loads)[k] == ScreenSize.PanOf(outs[k], crtcs)
      ensures PickCrtcs.ChoicesOf(outs)[k] == ChosenOf(loads)[k] == outs[k].crtcInfo
      ensures outs[k].crtcInfo.Some? ==>
        outs[k].crtcInfo.value < |crtcs| && crtcs[outs[k].crtcInfo.value].xid in outs[k].info.crtcs
    {
      assert LoadStays(outs[k], crtcs, loads[k]);
    }
  }

  lemma {:induction false} PlacedIsAsAsked(outs: seq<Output>, crtcs: seq<Crtc>, loads: seq<Load>, sweeps: nat,
                                           dx: int, dy: int)
    requires AllStay(outs, crtcs, loads)
    requires forall o :: o in outs && o.modeInfo.Some? ==> o.x >= 0 && o.y >= 0
    requires SetPositions.PlacedBy(outs, PlacingOf(outs, loads, sweeps), dx, dy)
    requires SetPositions.PinsAgree(GraphOf(outs, loads), SpotsOf(loads)) ==> SetPositions.RelationsHold(outs)
    ensures AsAsked(outs, loads, sweeps)
  {
    forall k | 0 <= k < |outs|
      ensures outs[k].modeInfo == loads[k].mode && outs[k].relation == loads[k].beside.relation
      ensures outs[k].rotation == loads[k].view.rotation && outs[k].transform == loads[k].view.transform
      ensures outs[k].modeInfo.Some? ==> outs[k].x >= 0 && outs[k].y >= 0
    {
      assert outs[k] in outs && LoadStays(outs[k], crtcs, loads[k]);
    }
    if SetPositions.RelationsHold(outs) {
      forall k, t | 0 <= k < |outs| && 0 <= t < |outs| && ChangedRelation in loads[k].changes
                    && FindByName(outs, loads[k].beside.name) == t && outs[k].modeInfo.Some? && outs[t].modeInfo.Some?
        ensures SetPositions.StandsBy(outs[k], outs[t])
      {
        assert LoadStays(outs[k], crtcs, loads[k]);
        assert SetPositions.RelatedTo(outs, k, t);
      }
    }
  }
}
