/**
 Turning outputs into a plan for the CRTCs: `set_output_info` (defaults from the server),
 `set_crtcs`, `mark_changing_crtcs` and `set_panning`.
 */
module Plan {
  import opened RandR
  import opened Records
  import opened Transaction
  import opened PickCrtcs

  // ----- reading the server's state into an output -----

  /** A CRTC as the user may name it. */
  datatype CrtcName = ByXid(xid: Xid) | ByIndex(index: int)
  datatype LoadResult = Loaded | CannotFindCrtc | CannotUseCrtc | ModeNotReported

  /** The CRTC a name stands for; the number of CRTCs when there is none of that name. */
  function NamedCrtc(crtcs: seq<Crtc>, name: CrtcName): (c: nat)
    ensures c <= |crtcs|
  {
    match name
    case ByXid(xid) => FindCrtc(crtcs, xid)
    case ByIndex(index) => if 0 <= index < |crtcs| then index else |crtcs|
  }

  /** The CRTC asked for or, without a request, the one the server has the output on. */
  function CrtcFor(o: Output, wantedCrtc: CrtcName): CrtcName
    reads o`changes
  {
    if ChangedCrtc in o.changes then wantedCrtc else ByXid(o.info.crtc)
  }

  predicate CrtcUsable(o: Output, crtcs: seq<Crtc>, name: CrtcName) {
    var c := NamedCrtc(crtcs, name);
    name == ByXid(NO_XID) || (c < |crtcs| && crtcs[c].xid in o.info.crtcs)
  }

  function ChosenCrtc(crtcs: seq<Crtc>, name: CrtcName): Option<nat> {
    if name == ByXid(NO_XID) then None else Some(NamedCrtc(crtcs, name))
  }

  /** Loading succeeds: the CRTC exists and the output can use it, and the mode is known. */
  predicate CanLoad(o: Output, crtcs: seq<Crtc>, modes: seq<Mode>, wantedCrtc: CrtcName)
    reads o`changes
  {
    var name := CrtcFor(o, wantedCrtc);
    CrtcUsable(o, crtcs, name) && ModeKnown(o, crtcs, modes, ChosenCrtc(crtcs, name))
  }

  method LoadCrtc(o: Output, crtcs: seq<Crtc>, wantedCrtc: CrtcName) returns (r: LoadResult)
    modifies o`crtcInfo
    ensures var name := CrtcFor(o, wantedCrtc);
      var c := NamedCrtc(crtcs, name);
      && (r == Loaded <==> CrtcUsable(o, crtcs, name))
      && (r == CannotFindCrtc <==> name != ByXid(NO_XID) && c == |crtcs|)
      && (r == CannotUseCrtc <==> name != ByXid(NO_XID) && c < |crtcs| && crtcs[c].xid !in o.info.crtcs)
      && (r == Loaded ==> o.crtcInfo == ChosenCrtc(crtcs, name))
  {
    var name := CrtcFor(o, wantedCrtc);
    o.crtcInfo := None;
    if name != ByXid(NO_XID) {
      var c := NamedCrtc(crtcs, name);
      if c == |crtcs| {
        return CannotFindCrtc;
      }
      o.crtcInfo := Some(c);
      if crtcs[c].xid !in o.info.crtcs {
        return CannotUseCrtc;
      }
    }
    r := Loaded;
  }

  /** The server's mode for an output: that of the CRTC driving it, else that of the CRTC asked for. */
  function ModeOnServer(o: Output, crtcs: seq<Crtc>, chosen: Option<nat>): Xid {
    var driving := if o.info.crtc != NO_XID then FindCrtc(crtcs, o.info.crtc) else |crtcs|;
    if driving < |crtcs| then crtcs[driving].info.mode
    else if chosen.Some? && chosen.value < |crtcs| then crtcs[chosen.value].info.mode
    else NO_XID
  }

  /** The mode of an output is asked for, or none, or one the server reported. */
  predicate ModeKnown(o: Output, crtcs: seq<Crtc>, modes: seq<Mode>, chosen: Option<nat>)
    reads o`changes
  {
    var mode := ModeOnServer(o, crtcs, chosen);
    ChangedMode in o.changes || mode == NO_XID || FindMode(modes, mode).Some?
  }

  method LoadMode(o: Output, crtcs: seq<Crtc>, modes: seq<Mode>, wantedMode: Option<Mode>) returns (r: LoadResult)
    requires o.crtcInfo.Some? ==> o.crtcInfo.value < |crtcs|
    modifies o`modeInfo
    ensures r == Loaded <==> ModeKnown(o, crtcs, modes, o.crtcInfo)
    ensures r == Loaded || r == ModeNotReported
    ensures r == Loaded ==>
      var mode := ModeOnServer(o, crtcs, o.crtcInfo);
      o.modeInfo == if ChangedMode in o.changes then wantedMode
                    else if mode == NO_XID then None else FindMode(modes, mode)
  {
    o.modeInfo := wantedMode;
    if ChangedMode !in o.changes {
      var mode := ModeOnServer(o, crtcs, o.crtcInfo);
      o.modeInfo := None;
      if mode != NO_XID {
        o.modeInfo := FindMode(modes, mode);
        if o.modeInfo.None? {
          return ModeNotReported;
        }
      }
    }
    r := Loaded;
  }

  /** Where the server has a CRTC; without one, at the origin and upright. */
  function ServerConfig(chosen: Option<nat>, crtcs: seq<Crtc>): CrtcConfig {
    if chosen.Some? && chosen.value < |crtcs| then crtcs[chosen.value].info else OFF
  }

  /** Position, rotation and transform of an output. */
  datatype View = View(x: int, y: int, rotation: Rotation, transform: Transform)

  function ViewOf(o: Output): View
    reads o`x, o`y, o`rotation, o`transform
  {
    View(o.x, o.y, o.rotation, o.transform)
  }

  /** What becomes of the view `v` that was asked for: the server's, wherever nothing was asked. */
  function GeometryOf(v: View, o: Output, chosen: Option<nat>, crtcs: seq<Crtc>): View
    reads o`changes
  {
    var server := ServerConfig(chosen, crtcs);
    var turn := if ChangedRotation in o.changes then v.rotation else server.rotation;
    var mirror := if ChangedReflection in o.changes && (ChangedRotation in o.changes || chosen.Some?)
                  then v.rotation else server.rotation;
    View(if ChangedPosition in o.changes then v.x else server.x,
         if ChangedPosition in o.changes then v.y else server.y,
         Rotation(turn.direction, mirror.reflectX, mirror.reflectY),
         if ChangedTransform in o.changes then v.transform
         else if chosen.Some? && chosen.value < |crtcs| then crtcs[chosen.value].currentTransform else IDENTITY)
  }

  /**
   Takes position, rotation, reflection and transform from the server where the user asked for
   nothing. A reflection asked for is lost if the output has no CRTC and no rotation was asked for.
   */
  method LoadGeometry(o: Output, crtcs: seq<Crtc>)
    requires o.crtcInfo.Some? ==> o.crtcInfo.value < |crtcs|
    modifies o`x, o`y, o`rotation, o`transform
    ensures ViewOf(o) == GeometryOf(old(ViewOf(o)), o, o.crtcInfo, crtcs)
  {
    if ChangedPosition !in o.changes {
      o.x := if o.crtcInfo.Some? then crtcs[o.crtcInfo.value].info.x else 0;
      o.y := if o.crtcInfo.Some? then crtcs[o.crtcInfo.value].info.y else 0;
    }
    if ChangedRotation !in o.changes {
      if o.crtcInfo.Some? {
        o.rotation := o.rotation.(direction := crtcs[o.crtcInfo.value].info.rotation.direction);
      } else {
        o.rotation := UPRIGHT;
      }
    }
    if ChangedReflection !in o.changes {
      o.rotation := o.rotation.(reflectX := false, reflectY := false);
      if o.crtcInfo.Some? {
        var rotation := crtcs[o.crtcInfo.value].info.rotation;
        o.rotation := o.rotation.(reflectX := rotation.reflectX, reflectY := rotation.reflectY);
      }
    }
    if ChangedTransform !in o.changes {
      o.transform := if o.crtcInfo.Some? then crtcs[o.crtcInfo.value].currentTransform else IDENTITY;
    }
  }

  function ReflectionOf(r: Rotation): (bool, bool) { (r.reflectX, r.reflectY) }

  /** A reflection asked for is kept unless there is one, no rotation was asked for and no CRTC is chosen. */
  lemma ReflectionKept(v: View, o: Output, chosen: Option<nat>, crtcs: seq<Crtc>)
    requires ChangedReflection in o.changes
    ensures ReflectionOf(GeometryOf(v, o, chosen, crtcs).rotation) == ReflectionOf(v.rotation) <==>
      ChangedRotation in o.changes || chosen.Some? || ReflectionOf(v.rotation) == (false, false)
  {}

  /** An output that is off and is asked to be mirrored, and nothing else, is not. */
  lemma ReflectionLost(o: Output, crtcs: seq<Crtc>)
    requires o.changes == {ChangedReflection, ChangedMode} && o.rotation == Rotation(Rotate0, true, false)
    ensures GeometryOf(ViewOf(o), o, None, crtcs).rotation == UPRIGHT
  {}

  /** The mode an output gets: the one asked for or, without a request, the server's. */
  function ModeFor(o: Output, crtcs: seq<Crtc>, modes: seq<Mode>, chosen: Option<nat>,
                   wantedMode: Option<Mode>): Option<Mode>
    reads o`changes
  {
    var mode := ModeOnServer(o, crtcs, chosen);
    if ChangedMode in o.changes then wantedMode
    else if mode == NO_XID then None else FindMode(modes, mode)
  }

  /** The output is as loaded: its CRTC, mode and geometry are those asked for, or else the server's. */
  ghost predicate LoadedFrom(o: Output, asked: View, crtcs: seq<Crtc>, modes: seq<Mode>,
                             wantedCrtc: CrtcName, wantedMode: Option<Mode>)
    reads o`crtcInfo, o`modeInfo, o`x, o`y, o`rotation, o`transform, o`changes
  {
    && o.crtcInfo == ChosenCrtc(crtcs, CrtcFor(o, wantedCrtc)) && (o.crtcInfo.Some? ==> o.crtcInfo.value < |crtcs|)
    && o.modeInfo == ModeFor(o, crtcs, modes, o.crtcInfo, wantedMode)
    && ViewOf(o) == GeometryOf(asked, o, o.crtcInfo, crtcs)
  }

  /** The output is on the CRTC asked for, by number or by identifier, or on the one that drives it. */
  ghost predicate OnCrtcAsked(o: Output, crtcs: seq<Crtc>, wanted: CrtcName)
    reads o`crtcInfo, o`changes
  {
    && (o.crtcInfo.Some? ==> o.crtcInfo.value < |crtcs| && crtcs[o.crtcInfo.value].xid in o.info.crtcs)
    && (ChangedCrtc in o.changes && wanted.ByIndex? ==> o.crtcInfo.Some? && o.crtcInfo.value == wanted.index)
    && (ChangedCrtc in o.changes && wanted.ByXid? ==>
          if wanted.xid == NO_XID then o.crtcInfo == None
          else o.crtcInfo.Some? && crtcs[o.crtcInfo.value].xid == wanted.xid)
    && (ChangedCrtc !in o.changes ==>
          if o.info.crtc == NO_XID then o.crtcInfo == None
          else o.crtcInfo.Some? && crtcs[o.crtcInfo.value].xid == o.info.crtc)
  }

  /** The mode is the one this identifier names, or there is none of that name. */
  ghost predicate IsMode(mode: Option<Mode>, modes: seq<Mode>, id: Xid) {
    if id == NO_XID then mode == None else mode.Some? && mode.value in modes && mode.value.id == id
  }

  /** The mode is the one asked for, or that of the CRTC driving the output, or else that of its CRTC. */
  ghost predicate ModeAsAsked(o: Output, crtcs: seq<Crtc>, modes: seq<Mode>, wanted: Option<Mode>)
    reads o`crtcInfo, o`modeInfo, o`changes
  {
    && (ChangedMode in o.changes ==> o.modeInfo == wanted)
    && (ChangedMode !in o.changes ==>
          var driving := FindCrtc(crtcs, o.info.crtc);
          if o.info.crtc != NO_XID && driving < |crtcs| then IsMode(o.modeInfo, modes, crtcs[driving].info.mode)
          else if o.crtcInfo.Some? && o.crtcInfo.value < |crtcs| then
            IsMode(o.modeInfo, modes, crtcs[o.crtcInfo.value].info.mode)
          else o.modeInfo == None)
  }

  /** Completes one output from the server's state wherever the user asked for nothing else. */
  method SetOutputInfo(o: Output, crtcs: seq<Crtc>, modes: seq<Mode>, wantedCrtc: CrtcName, wantedMode: Option<Mode>)
    returns (r: LoadResult)
    modifies o`crtcInfo, o`modeInfo, o`x, o`y, o`rotation, o`transform
    ensures r == Loaded <==> CanLoad(o, crtcs, modes, wantedCrtc)
    ensures r == Loaded ==> LoadedFrom(o, old(ViewOf(o)), crtcs, modes, wantedCrtc, wantedMode)
    ensures r == Loaded ==> Sound(o, crtcs, modes, wantedMode)
    ensures r == Loaded ==> OnCrtcAsked(o, crtcs, wantedCrtc) && ModeAsAsked(o, crtcs, modes, wantedMode)
    ensures r == Loaded && ChangedPosition in o.changes ==> o.x == old(o.x) && o.y == old(o.y)
    ensures r == Loaded && ChangedPosition !in o.changes ==>
      && (o.crtcInfo.Some? ==> o.x == crtcs[o.crtcInfo.value].info.x && o.y == crtcs[o.crtcInfo.value].info.y)
      && (o.crtcInfo.None? ==> o.x == 0 && o.y == 0)
    ensures r == Loaded && ChangedRotation in o.changes ==> o.rotation.direction == old(o.rotation.direction)
    ensures r == Loaded && ChangedRotation !in o.changes ==>
      && (o.crtcInfo.Some? ==> o.rotation.direction == crtcs[o.crtcInfo.value].info.rotation.direction)
      && (o.crtcInfo.None? ==> o.rotation.direction == Rotate0)
    ensures r == Loaded && ChangedReflection !in o.changes ==>
      && (o.crtcInfo.Some? ==> ReflectionOf(o.rotation) == ReflectionOf(crtcs[o.crtcInfo.value].info.rotation))
      && (o.crtcInfo.None? ==> !o.rotation.reflectX && !o.rotation.reflectY)
    ensures r == Loaded && ChangedTransform in o.changes ==> o.transform == old(o.transform)
    ensures r == Loaded && ChangedTransform !in o.changes ==>
      && (o.crtcInfo.Some? ==> o.transform == crtcs[o.crtcInfo.value].currentTransform)
      && (o.crtcInfo.None? ==> o.transform == IDENTITY)
    ensures r == Loaded && o.changes == {} ==> AsDriven(o, crtcs, modes)
  {
    r := LoadCrtc(o, crtcs, wantedCrtc);
    if r != Loaded {
      return;
    }
    r := LoadMode(o, crtcs, modes, wantedMode);
    if r != Loaded {
      return;
    }
    LoadGeometry(o, crtcs);
  }

  /** An output after loading: a real CRTC, a reported or chosen mode, and a CRTC if nothing changed. */
  ghost predicate Sound(o: Output, crtcs: seq<Crtc>, modes: seq<Mode>, wantedMode: Option<Mode>)
    reads o`crtcInfo, o`modeInfo, o`changes
  {
    && (o.crtcInfo.Some? ==> o.crtcInfo.value < |crtcs|)
    && (o.modeInfo.Some? ==> o.modeInfo == wantedMode || FindMode(modes, o.modeInfo.value.id) == o.modeInfo)
    && (o.modeInfo.Some? && o.changes == {} ==> o.crtcInfo.Some?)
  }

  /** The output is as the server drives it. */
  ghost predicate AsDriven(o: Output, crtcs: seq<Crtc>, modes: seq<Mode>)
    reads o`crtcInfo, o`modeInfo, o`x, o`y, o`rotation, o`transform
  {
    if o.info.crtc == NO_XID then o.crtcInfo == None && o.modeInfo == None
    else
      && o.crtcInfo.Some? && o.crtcInfo.value < |crtcs|
      && var crtc := crtcs[o.crtcInfo.value];
         && crtc.xid == o.info.crtc
         && (if crtc.info.mode == NO_XID then o.modeInfo == None
             else o.modeInfo.Some? && o.modeInfo == FindMode(modes, crtc.info.mode))
         && o.x == crtc.info.x && o.y == crtc.info.y && o.rotation == crtc.info.rotation
         && o.transform == crtc.currentTransform
  }

  /** An output nobody asked to change is still as the server drives it. */
  ghost predicate UnchangedAsDriven(outs: seq<Output>, crtcs: seq<Crtc>, modes: seq<Mode>)
    reads outs
  {
    forall o :: o in outs && o.changes == {} ==> AsDriven(o, crtcs, modes)
  }

  // ----- set_crtcs -----

  /** The outputs, among the first `n`, that CRTC `c` is to drive, in list order. */
  ghost function Mine(outs: seq<Output>, n: nat, c: nat): (mine: seq<Output>)
    requires n <= |outs|
    reads outs`modeInfo, outs`crtcInfo
    ensures mine != [] ==> mine[0] in outs
  {
    if n == 0 then []
    else if outs[n - 1].modeInfo.Some? && outs[n - 1].crtcInfo == Some(c) then Mine(outs, n - 1, c) + [outs[n - 1]]
    else Mine(outs, n - 1, c)
  }

  lemma {:induction false} MineIsMine(outs: seq<Output>, n: nat, c: nat, o: Output)
    requires n <= |outs|
    ensures o in Mine(outs, n, c) <==> o in outs[..n] && o.modeInfo.Some? && o.crtcInfo == Some(c)
  {
    if n > 0 {
      MineIsMine(outs, n - 1, c, o);
      assert outs[..n] == outs[..n - 1] + [outs[n - 1]];
    }
  }

  function First(mine: seq<Output>): set<Output> {
    if mine == [] then {} else {mine[0]}
  }

  /** A CRTC planned for these outputs: it takes everything from the first of them. */
  ghost predicate PlannedFor(crtc: Crtc, mine: seq<Output>)
    reads crtc`outputs, crtc`modeInfo, crtc`x, crtc`y, crtc`rotation, crtc`pendingTransform
    reads First(mine)`modeInfo, First(mine)`x, First(mine)`y, First(mine)`rotation, First(mine)`transform
  {
    && crtc.outputs == mine
    && (if mine == [] then crtc.modeInfo == None && crtc.pendingTransform == crtc.currentTransform
        else
          && crtc.modeInfo == mine[0].modeInfo && crtc.x == mine[0].x && crtc.y == mine[0].y
          && crtc.rotation == mine[0].rotation && crtc.pendingTransform == mine[0].transform)
  }

  ghost predicate AllPlannedFor(crtcs: seq<Crtc>, outs: seq<Output>, n: nat)
    requires n <= |outs|
    reads outs`modeInfo, outs`crtcInfo, outs`x, outs`y, outs`rotation, outs`transform
    reads crtcs`outputs, crtcs`modeInfo, crtcs`x, crtcs`y, crtcs`rotation, crtcs`pendingTransform
  {
    forall c {:trigger Mine(outs, n, c)} :: 0 <= c < |crtcs| ==> PlannedFor(crtcs[c], Mine(outs, n, c))
  }

  method CrtcAddOutput(crtc: Crtc, o: Output)
    modifies crtc`outputs, crtc`modeInfo, crtc`x, crtc`y, crtc`rotation, crtc`pendingTransform
    ensures old(PlannedFor(crtc, crtc.outputs)) && o.modeInfo.Some? ==> PlannedFor(crtc, old(crtc.outputs) + [o])
  {
    if crtc.outputs == [] {
      crtc.x := o.x;
      crtc.y := o.y;
      crtc.rotation := o.rotation;
      crtc.modeInfo := o.modeInfo;
      crtc.pendingTransform := o.transform;
    }
    crtc.outputs := crtc.outputs + [o];
  }

  ghost predicate Unplanned(crtcs: seq<Crtc>)
    reads crtcs`outputs, crtcs`modeInfo, crtcs`x, crtcs`y, crtcs`rotation, crtcs`pendingTransform
  {
    forall c :: 0 <= c < |crtcs| ==> PlannedFor(crtcs[c], [])
  }

  /** Every output that is to be on has a CRTC, and no output names one that does not exist. */
  ghost predicate AllOnCrtcs(outs: seq<Output>, crtcs: seq<Crtc>)
    reads outs`modeInfo, outs`crtcInfo
  {
    forall o :: o in outs ==>
      (o.modeInfo.Some? ==> o.crtcInfo.Some?) && (o.crtcInfo.Some? ==> o.crtcInfo.value < |crtcs|)
  }

  /** Hands one output that is to be on to its CRTC. */
  method HandOver(outs: seq<Output>, crtcs: seq<Crtc>, k: nat, o: Output, d: nat)
    requires DistinctCrtcs(crtcs) && k < |outs| && o == outs[k] && d < |crtcs|
    requires o.modeInfo.Some? && o.crtcInfo == Some(d)
    requires AllPlannedFor(crtcs, outs, k)
    modifies crtcs`outputs, crtcs`modeInfo, crtcs`x, crtcs`y, crtcs`rotation, crtcs`pendingTransform
    ensures AllPlannedFor(crtcs, outs, k + 1)
  {
    ghost var mine := Mine(outs, k, d);
    assert PlannedFor(crtcs[d], mine);
    CrtcAddOutput(crtcs[d], o);
    forall c | 0 <= c < |crtcs| ensures PlannedFor(crtcs[c], Mine(outs, k + 1, c)) {
      if c != d {
        assert crtcs[c] != crtcs[d];
        assert old(PlannedFor(crtcs[c], Mine(outs, k, c)));
      }
    }
  }

  lemma NothingToHandOver(outs: seq<Output>, crtcs: seq<Crtc>, k: nat)
    requires k < |outs| && outs[k].modeInfo.None? && AllPlannedFor(crtcs, outs, k)
    ensures AllPlannedFor(crtcs, outs, k + 1)
  {
    forall c | 0 <= c < |crtcs| ensures PlannedFor(crtcs[c], Mine(outs, k + 1, c)) {
      assert PlannedFor(crtcs[c], Mine(outs, k, c));
    }
  }

  /** Hands every output that is to be on to its CRTC. */
  method SetCrtcs(outs: seq<Output>, crtcs: seq<Crtc>)
    requires DistinctCrtcs(crtcs) && Unplanned(crtcs) && AllOnCrtcs(outs, crtcs)
    modifies crtcs`outputs, crtcs`modeInfo, crtcs`x, crtcs`y, crtcs`rotation, crtcs`pendingTransform
    ensures AllPlannedFor(crtcs, outs, |outs|)
  {
    var k := 0;
    while k < |outs|
      invariant 0 <= k <= |outs|
      invariant AllPlannedFor(crtcs, outs, k)
    {
      var o := outs[k];
      assert o in outs;
      if o.modeInfo.Some? {
        HandOver(outs, crtcs, k, o, o.crtcInfo.value);
      } else {
        NothingToHandOver(outs, crtcs, k);
      }
      k := k + 1;
    }
  }

  // ----- mark_changing_crtcs and set_panning -----

  /** Some output the server has on this CRTC has changes. */
  ghost predicate OldOutputChanged(outs: seq<Output>, crtc: Crtc)
    reads outs`changes
  {
    exists x :: x in crtc.info.outputs && FindOutput(outs, x) < |outs| && outs[FindOutput(outs, x)].changes != {}
  }

  /** Some output planned for this CRTC has changes. */
  ghost predicate NewOutputChanged(crtc: Crtc)
    reads crtc`outputs, crtc.outputs`changes
  {
    exists i :: 0 <= i < |crtc.outputs| && crtc.outputs[i].changes != {}
  }

  ghost predicate OldOutputsKnown(outs: seq<Output>, crtc: Crtc) {
    forall x :: x in crtc.info.outputs ==> FindOutput(outs, x) < |outs|
  }

  method MarkCrtc(outs: seq<Output>, crtc: Crtc) returns (known: bool)
    modifies crtc`changing
    ensures known <==> OldOutputsKnown(outs, crtc)
    ensures known ==>
      (crtc.changing <==> old(crtc.changing) || OldOutputChanged(outs, crtc) || NewOutputChanged(crtc))
  {
    var i := 0;
    while i < |crtc.info.outputs|
      invariant 0 <= i <= |crtc.info.outputs|
      invariant forall j :: 0 <= j < i ==> FindOutput(outs, crtc.info.outputs[j]) < |outs|
      invariant crtc.changing <==>
        (old(crtc.changing) || exists j :: 0 <= j < i && outs[FindOutput(outs, crtc.info.outputs[j])].changes != {})
    {
      var k := FindOutput(outs, crtc.info.outputs[i]);
      if k == |outs| {
        assert crtc.info.outputs[i] in crtc.info.outputs;
        return false;
      }
      if outs[k].changes != {} {
        crtc.changing := true;
      }
      i := i + 1;
    }
    assert OldOutputChanged(outs, crtc) <==>
      exists j :: 0 <= j < |crtc.info.outputs| && outs[FindOutput(outs, crtc.info.outputs[j])].changes != {};
    i := 0;
    while i < |crtc.outputs|
      invariant 0 <= i <= |crtc.outputs|
      invariant crtc.changing <==>
        (old(crtc.changing) || OldOutputChanged(outs, crtc) || exists j :: 0 <= j < i && crtc.outputs[j].changes != {})
    {
      if crtc.outputs[i].changes != {} {
        crtc.changing := true;
      }
      i := i + 1;
    }
    known := true;
  }

  /** A CRTC that is not marked has no changed output, old or new. */
  ghost predicate Unmarked(outs: seq<Output>, crtc: Crtc)
    reads outs`changes, crtc`changing, crtc`outputs, crtc.outputs`changes
  {
    !crtc.changing ==> !OldOutputChanged(outs, crtc) && !NewOutputChanged(crtc)
  }

  ghost function PlannedOutputs(crtcs: seq<Crtc>): (planned: set<Output>)
    reads crtcs`outputs
    ensures forall c :: 0 <= c < |crtcs| ==> forall i :: 0 <= i < |crtcs[c].outputs| ==> crtcs[c].outputs[i] in planned
  {
    set c, i | 0 <= c < |crtcs| && 0 <= i < |crtcs[c].outputs| :: crtcs[c].outputs[i]
  }

  /** No unmarked CRTC has a changed output, and all old outputs are known. */
  ghost predicate AllMarked(outs: seq<Output>, crtcs: seq<Crtc>)
    reads outs`changes, crtcs`changing, crtcs`outputs, PlannedOutputs(crtcs)`changes
  {
    forall c :: 0 <= c < |crtcs| ==> OldOutputsKnown(outs, crtcs[c]) && Unmarked(outs, crtcs[c])
  }

  method MarkChangingCrtcs(outs: seq<Output>, crtcs: seq<Crtc>) returns (known: bool)
    requires DistinctCrtcs(crtcs)
    modifies crtcs`changing
    ensures known <==> forall c :: 0 <= c < |crtcs| ==> OldOutputsKnown(outs, crtcs[c])
    ensures known ==> AllMarked(outs, crtcs)
    ensures known ==> forall c :: 0 <= c < |crtcs| ==>
      (crtcs[c].changing ==> old(crtcs[c].changing) || OldOutputChanged(outs, crtcs[c]) || NewOutputChanged(crtcs[c]))
  {
    var c := 0;
    while c < |crtcs|
      invariant 0 <= c <= |crtcs|
      invariant forall i :: 0 <= i < c ==> OldOutputsKnown(outs, crtcs[i]) && Unmarked(outs, crtcs[i])
      invariant forall i :: 0 <= i < c ==>
        (crtcs[i].changing ==> old(crtcs[i].changing) || OldOutputChanged(outs, crtcs[i]) || NewOutputChanged(crtcs[i]))
      invariant forall i :: c <= i < |crtcs| ==> crtcs[i].changing == old(crtcs[i].changing)
    {
      known := MarkCrtc(outs, crtcs[c]);
      if !known {
        return;
      }
      c := c + 1;
    }
    known := true;
  }

  /** The panning area that the last of the first `n` outputs to have a new one gives CRTC `c`. */
  function NewPanning(outs: seq<Output>, n: nat, c: nat): Option<Panning>
    requires n <= |outs|
    reads outs`crtcInfo, outs`changes, outs`panning
  {
    if n == 0 then None
    else if outs[n - 1].crtcInfo == Some(c) && ChangedPanning in outs[n - 1].changes then Some(outs[n - 1].panning)
    else NewPanning(outs, n - 1, c)
  }

  /** A CRTC gets a new panning area from exactly the last of its outputs for which one was asked. */
  lemma {:induction false} NewPanningMeans(outs: seq<Output>, n: nat, c: nat, area: Panning)
    requires n <= |outs|
    ensures NewPanning(outs, n, c) == Some(area) <==>
      exists k :: GivesPanning(outs, k, n, c) && outs[k].panning == area
    ensures NewPanning(outs, n, c) == None <==>
      forall k :: 0 <= k < n && outs[k].crtcInfo == Some(c) ==> ChangedPanning !in outs[k].changes
  {
    if n > 0 {
      NewPanningMeans(outs, n - 1, c, area);
      forall k ensures GivesPanning(outs, k, n, c) <==>
        if outs[n - 1].crtcInfo == Some(c) && ChangedPanning in outs[n - 1].changes then k == n - 1
        else GivesPanning(outs, k, n - 1, c)
      {
      }
    }
  }

  /** Output `k` is the last of the first `n` on this CRTC for which a panning area was asked. */
  ghost predicate GivesPanning(outs: seq<Output>, k: int, n: nat, c: nat)
    requires n <= |outs|
    reads outs`crtcInfo, outs`changes
  {
    && 0 <= k < n && outs[k].crtcInfo == Some(c) && ChangedPanning in outs[k].changes
    && forall j :: k < j < n && outs[j].crtcInfo == Some(c) ==> ChangedPanning !in outs[j].changes
  }

  /** New panning areas reach their CRTCs, which then have to be set. */
  method SetPanning(outs: seq<Output>, crtcs: seq<Crtc>)
    requires DistinctCrtcs(crtcs)
    requires forall o :: o in outs && o.crtcInfo.Some? ==> o.crtcInfo.value < |crtcs|
    modifies crtcs`panning, crtcs`changing
    ensures forall c {:trigger NewPanning(outs, |outs|, c)} :: 0 <= c < |crtcs| ==>
      var area := NewPanning(outs, |outs|, c);
      && crtcs[c].panning == (if area.Some? then area else old(crtcs[c].panning))
      && (crtcs[c].changing <==> old(crtcs[c].changing) || area.Some?)
    ensures forall c :: 0 <= c < |crtcs| && old(crtcs[c].changing) ==> crtcs[c].changing
  {
    var k := 0;
    while k < |outs|
      invariant 0 <= k <= |outs|
      invariant forall c {:trigger NewPanning(outs, k, c)} :: 0 <= c < |crtcs| ==>
        var area := NewPanning(outs, k, c);
        && crtcs[c].panning == (if area.Some? then area else old(crtcs[c].panning))
        && (crtcs[c].changing <==> old(crtcs[c].changing) || area.Some?)
      invariant forall c :: 0 <= c < |crtcs| && old(crtcs[c].changing) ==> crtcs[c].changing
    {
      var o := outs[k];
      assert o in outs;
      assert forall c {:trigger NewPanning(outs, k + 1, c)} :: 0 <= c < |crtcs| ==>
        NewPanning(outs, k + 1, c) ==
          if o.crtcInfo == Some(c) && ChangedPanning in o.changes then Some(o.panning) else NewPanning(outs, k, c);
      if o.crtcInfo.Some? && ChangedPanning in o.changes {
        crtcs[o.crtcInfo.value].panning := Some(o.panning);
        crtcs[o.crtcInfo.value].changing := true;
      }
      k := k + 1;
    }
  }
}
