/**
 The two records the planner changes in place: an output and a CRTC. A pointer to a CRTC is its
 index in the CRTC array; the linked list of outputs is the sequence of its nodes.
 */
module Records {
  import opened RandR
  import opened Geometry
  import Placement

  datatype Change =
    | ChangedCrtc | ChangedMode | ChangedRelation | ChangedPosition | ChangedRotation
    | ChangedReflection | ChangedTransform | ChangedPanning | ChangedOther

  /** What the server reports about an output: the CRTC driving it, usable CRTCs, possible clones. */
  datatype OutputInfo = OutputInfo(crtc: Xid, crtcs: seq<Xid>, clones: seq<Xid>)

  class Output {
    const xid: Xid
    const name: string
    const info: OutputInfo

    var changes: set<Change>
    var crtcInfo: Option<nat>
    var currentCrtcInfo: Option<nat>
    var modeInfo: Option<Mode>
    var relation: Placement.Relation
    var relativeTo: string
    var x: int
    var y: int
    var rotation: Rotation
    var transform: Transform
    var panning: Panning

    constructor (xid: Xid, name: string, info: OutputInfo)
      ensures this.xid == xid && this.name == name && this.info == info
      ensures changes == {} && crtcInfo == None && modeInfo == None
    {
      this.xid, this.name, this.info := xid, name, info;
      changes, crtcInfo, currentCrtcInfo, modeInfo := {}, None, None, None;
      relation, relativeTo := Placement.LeftOf, "";
      x, y, rotation, transform, panning := 0, 0, UPRIGHT, IDENTITY, Panning(0, 0, 0, 0);
    }
  }

  class Crtc {
    const xid: Xid
    const info: CrtcConfig
    const currentTransform: Transform

    var changing: bool
    var modeInfo: Option<Mode>
    var x: int
    var y: int
    var rotation: Rotation
    var outputs: seq<Output>
    var pendingTransform: Transform
    var panning: Option<Panning>

    /** A CRTC as first read from the server: nothing is planned for it yet. */
    constructor (xid: Xid, info: CrtcConfig, transform: Transform, panning: Option<Panning>)
      ensures this.xid == xid && this.info == info && currentTransform == transform
      ensures !changing && modeInfo == None && outputs == [] && pendingTransform == transform && this.panning == panning
    {
      this.xid, this.info, currentTransform := xid, info, transform;
      changing, modeInfo, outputs, pendingTransform := false, None, [], transform;
      x, y, rotation, this.panning := 0, 0, UPRIGHT, panning;
    }
  }

  ghost predicate DistinctOutputs(outs: seq<Output>) {
    forall i, j :: 0 <= i < j < |outs| ==> outs[i] != outs[j]
  }

  ghost predicate DistinctCrtcs(crtcs: seq<Crtc>) {
    forall i, j :: 0 <= i < j < |crtcs| ==> crtcs[i] != crtcs[j]
  }

  /** The output lights this pixel of the screen, if nothing transforms it. */
  ghost predicate Lights(o: Output, x: int, y: int)
    reads o`modeInfo, o`rotation, o`x, o`y
  {
    o.modeInfo.Some? && ShownAt(o.modeInfo.value, o.rotation, x - o.x, y - o.y)
  }

  /** The first output of that name, as an index; |outs| when there is none. */
  function FindByName(outs: seq<Output>, name: string): (k: nat)
    ensures k <= |outs|
    ensures k < |outs| ==> outs[k].name == name
    ensures forall j :: 0 <= j < k ==> outs[j].name != name
  {
    if outs == [] then 0
    else if outs[0].name == name then 0
    else 1 + FindByName(outs[1..], name)
  }

  /** The first output with that identifier, as an index; |outs| when there is none. */
  function FindOutput(outs: seq<Output>, xid: Xid): (k: nat)
    ensures k <= |outs|
    ensures k < |outs| ==> outs[k].xid == xid
    ensures forall j :: 0 <= j < k ==> outs[j].xid != xid
  {
    if outs == [] then 0
    else if outs[0].xid == xid then 0
    else 1 + FindOutput(outs[1..], xid)
  }

  /** The first CRTC with that identifier, as an index; |crtcs| when there is none. */
  function FindCrtc(crtcs: seq<Crtc>, xid: Xid): (c: nat)
    ensures c <= |crtcs|
    ensures c < |crtcs| ==> crtcs[c].xid == xid
    ensures forall j :: 0 <= j < c ==> crtcs[j].xid != xid
  {
    if crtcs == [] then 0
    else if crtcs[0].xid == xid then 0
    else 1 + FindCrtc(crtcs[1..], xid)
  }
}
