/**
 What the server shows once the plan is in force: every CRTC its plan, whether the run touched it or
 not, and every output its own mode and place, if those that share a CRTC agree.
 */
module Shown {
  import opened RandR
  import opened Records
  import opened Server
  import opened Transaction
  import opened Plan
  import opened Sharing
  import PickCrtcs

  /** The server's answers agree with one another. */
  ghost predicate Consistent(outs: seq<Output>, crtcs: seq<Crtc>) {
    && DistinctOutputs(outs) && DistinctCrtcs(crtcs) && PickCrtcs.DistinctXids(crtcs)
    && (forall i, j :: 0 <= i < j < |outs| ==> outs[i].xid != outs[j].xid)
    && (forall c :: 0 <= c < |crtcs| ==> crtcs[c].xid != NO_XID)
    && (forall c :: 0 <= c < |crtcs| ==> (crtcs[c].info.mode == NO_XID <==> crtcs[c].info.outputs == []))
    && (forall c, k {:trigger crtcs[c], outs[k]} :: 0 <= c < |crtcs| && 0 <= k < |outs| ==>
          (outs[k].xid in crtcs[c].info.outputs <==> outs[k].info.crtc == crtcs[c].xid))
  }

  /** The xids name exactly these outputs of the list. */
  ghost predicate Names(xids: seq<Xid>, outs: seq<Output>, mine: seq<Output>) {
    forall o :: o in outs ==> (o.xid in xids <==> o in mine)
  }

  /** The CRTC's state on the server is what its outputs (`mine`) were meant to get. */
  ghost predicate ShowsPlan(cs: CrtcState, outs: seq<Output>, mine: seq<Output>, has13: bool)
    reads First(mine)
  {
    if mine == [] then cs.config.mode == NO_XID && cs.config.outputs == []
    else
      && mine[0].modeInfo.Some? && cs.config.mode == mine[0].modeInfo.value.id
      && cs.config.x == mine[0].x && cs.config.y == mine[0].y && cs.config.rotation == mine[0].rotation
      && Names(cs.config.outputs, outs, mine)
      && (has13 ==> cs.transform == mine[0].transform)
  }

  ghost predicate ServerShowsPlan(server: Server, outs: seq<Output>, crtcs: seq<Crtc>, has13: bool)
    requires |server.state.crtcs| == |crtcs|
    reads server, outs
  {
    forall c {:trigger server.state.crtcs[c]} :: 0 <= c < |crtcs| ==>
      ShowsPlan(server.state.crtcs[c], outs, Mine(outs, |outs|, c), has13)
  }

  lemma InWhole(outs: seq<Output>, o: Output, c: nat)
    ensures o in Mine(outs, |outs|, c) <==> o in outs && o.modeInfo.Some? && o.crtcInfo == Some(c)
  {
    MineIsMine(outs, |outs|, c, o);
    assert outs[..|outs|] == outs;
  }

  /** An old output of a CRTC none of whose outputs changed is one of its new outputs, and conversely. */
  lemma UnmarkedKeepsOutput(outs: seq<Output>, crtcs: seq<Crtc>, modes: seq<Mode>, c: nat, k: nat)
    requires Consistent(outs, crtcs) && c < |crtcs| && k < |outs|
    requires UnchangedAsDriven(outs, crtcs, modes)
    requires crtcs[c].outputs == Mine(outs, |outs|, c)
    requires !OldOutputChanged(outs, crtcs[c]) && !NewOutputChanged(crtcs[c])
    ensures outs[k].xid in crtcs[c].info.outputs <==> outs[k] in Mine(outs, |outs|, c)
    ensures outs[k] in Mine(outs, |outs|, c) ==> outs[k].changes == {} && AsDriven(outs[k], crtcs, modes)
  {
    var o, crtc := outs[k], crtcs[c];
    assert o in outs;
    InWhole(outs, o, c);
    if o.xid in crtc.info.outputs {
      assert FindOutput(outs, o.xid) == k;
      assert o.changes == {};
      assert AsDriven(o, crtcs, modes);
      assert crtcs[o.crtcInfo.value].xid == crtc.xid;
    }
    if o in Mine(outs, |outs|, c) {
      assert o in crtc.outputs && o.changes == {};
      assert AsDriven(o, crtcs, modes);
    }
  }

  /** The old outputs of a CRTC left unmarked are exactly those planned for it. */
  lemma UntouchedKeepsOutputs(outs: seq<Output>, crtcs: seq<Crtc>, modes: seq<Mode>, c: nat)
    requires Consistent(outs, crtcs) && c < |crtcs|
    requires UnchangedAsDriven(outs, crtcs, modes)
    requires crtcs[c].outputs == Mine(outs, |outs|, c)
    requires !OldOutputChanged(outs, crtcs[c]) && !NewOutputChanged(crtcs[c])
    ensures Names(crtcs[c].info.outputs, outs, Mine(outs, |outs|, c))
    ensures forall o :: o in Mine(outs, |outs|, c) ==> AsDriven(o, crtcs, modes)
  {
    forall o | o in outs ensures o.xid in crtcs[c].info.outputs <==> o in Mine(outs, |outs|, c) {
      var k :| 0 <= k < |outs| && outs[k] == o;
      UnmarkedKeepsOutput(outs, crtcs, modes, c, k);
    }
    forall o | o in Mine(outs, |outs|, c) ensures AsDriven(o, crtcs, modes) {
      InWhole(outs, o, c);
      var k :| 0 <= k < |outs| && outs[k] == o;
      UnmarkedKeepsOutput(outs, crtcs, modes, c, k);
    }
  }

  /** A CRTC left unmarked already is on the server what its outputs were meant to get. */
  lemma UntouchedShowsPlan(outs: seq<Output>, crtcs: seq<Crtc>, modes: seq<Mode>, c: nat, cs: CrtcState, has13: bool)
    requires Consistent(outs, crtcs) && c < |crtcs|
    requires UnchangedAsDriven(outs, crtcs, modes)
    requires PlannedFor(crtcs[c], Mine(outs, |outs|, c))
    requires !OldOutputChanged(outs, crtcs[c]) && !NewOutputChanged(crtcs[c])
    requires OldOutputsKnown(outs, crtcs[c])
    requires AsRead(cs, crtcs[c])
    ensures ShowsPlan(cs, outs, Mine(outs, |outs|, c), has13)
  {
    var mine, crtc := Mine(outs, |outs|, c), crtcs[c];
    UntouchedKeepsOutputs(outs, crtcs, modes, c);
    if mine == [] {
      NoOldOutputs(outs, crtc);
    } else {
      InWhole(outs, mine[0], c);
      DrivenShowsPlan(outs, crtcs, modes, c, cs, mine, has13);
    }
  }

  lemma NoOldOutputs(outs: seq<Output>, crtc: Crtc)
    requires OldOutputsKnown(outs, crtc) && Names(crtc.info.outputs, outs, [])
    ensures crtc.info.outputs == []
  {
    forall x ensures x !in crtc.info.outputs {
      var k := FindOutput(outs, x);
      if k < |outs| { assert outs[k] in outs; }
    }
    NothingInEmpty(crtc.info.outputs);
  }

  lemma NothingInEmpty(xids: seq<Xid>)
    ensures xids == [] || exists x :: x in xids
  {
    assert xids == [] || xids[0] in xids;
  }

  lemma DrivenShowsPlan(outs: seq<Output>, crtcs: seq<Crtc>, modes: seq<Mode>, c: nat, cs: CrtcState,
                        mine: seq<Output>, has13: bool)
    requires c < |crtcs| && mine != [] && Names(crtcs[c].info.outputs, outs, mine) && AsRead(cs, crtcs[c])
    requires AsDriven(mine[0], crtcs, modes) && mine[0].modeInfo.Some? && mine[0].crtcInfo == Some(c)
    ensures ShowsPlan(cs, outs, mine, has13)
  {}

  /** A CRTC that was set shows its plan by construction. */
  lemma SetShowsPlan(outs: seq<Output>, crtcs: seq<Crtc>, c: nat, cs: CrtcState, has13: bool)
    requires Consistent(outs, crtcs) && c < |crtcs| && PlannedFor(crtcs[c], Mine(outs, |outs|, c))
    requires crtcs[c].modeInfo.Some?
    requires cs.config == PlannedConfig(crtcs[c]) && cs.transform == PlannedTransform(crtcs[c], has13)
    ensures ShowsPlan(cs, outs, Mine(outs, |outs|, c), has13)
  {
    var mine := Mine(outs, |outs|, c);
    forall o | o in outs ensures o.xid in XidsOf(mine) <==> o in mine {
      if o in mine {
        var i :| 0 <= i < |mine| && mine[i] == o;
        assert XidsOf(mine)[i] == o.xid;
      }
      if o.xid in XidsOf(mine) {
        var i :| 0 <= i < |mine| && XidsOf(mine)[i] == o.xid;
        InWhole(outs, mine[i], c);
        SameXid(outs, crtcs, o, mine[i]);
      }
    }
  }

  lemma SameXid(outs: seq<Output>, crtcs: seq<Crtc>, a: Output, b: Output)
    requires Consistent(outs, crtcs) && a in outs && b in outs && a.xid == b.xid
    ensures a == b
  {
    var i :| 0 <= i < |outs| && outs[i] == a;
    var j :| 0 <= j < |outs| && outs[j] == b;
  }

  /** After success the server shows the plan on every CRTC, touched or not. */
  lemma AppliedShowsPlan(server: Server, outs: seq<Output>, crtcs: seq<Crtc>, modes: seq<Mode>, has13: bool)
    requires Consistent(outs, crtcs) && |server.state.crtcs| == |crtcs|
    requires UnchangedAsDriven(outs, crtcs, modes) && AllPlannedFor(crtcs, outs, |outs|)
    requires AllMarked(outs, crtcs)
    requires AllAsPlanned(server, crtcs, has13)
    ensures ServerShowsPlan(server, outs, crtcs, has13)
  {
    forall c | 0 <= c < |crtcs| ensures ShowsPlan(server.state.crtcs[c], outs, Mine(outs, |outs|, c), has13) {
      var cs, mine := server.state.crtcs[c], Mine(outs, |outs|, c);
      assert PlannedFor(crtcs[c], mine);
      assert AsPlanned(cs, crtcs[c], has13);
      if crtcs[c].modeInfo.Some? {
        if crtcs[c].changing {
          SetShowsPlan(outs, crtcs, c, cs, has13);
        } else {
          UntouchedShowsPlan(outs, crtcs, modes, c, cs, has13);
        }
      } else if mine != [] {
        InWhole(outs, mine[0], c);
      }
    }
  }

  // ----- what each output shows -----

  /** On the server every output that is to be on is driven by its CRTC, and no other output is driven. */
  ghost predicate AllDriven(server: Server, outs: seq<Output>, crtcs: seq<Crtc>)
    requires |server.state.crtcs| == |crtcs|
    reads server, outs`modeInfo, outs`crtcInfo
  {
    forall o {:trigger o in outs} :: o in outs ==>
      && (o.modeInfo.Some? ==> o.crtcInfo.Some? && o.crtcInfo.value < |crtcs|)
      && forall c {:trigger server.state.crtcs[c]} :: 0 <= c < |crtcs| ==>
           (o.xid in server.state.crtcs[c].config.outputs <==> o.modeInfo.Some? && o.crtcInfo == Some(c))
  }

  lemma ShownIsDriven(server: Server, outs: seq<Output>, crtcs: seq<Crtc>, has13: bool)
    requires |server.state.crtcs| == |crtcs| && ServerShowsPlan(server, outs, crtcs, has13) && AllOnCrtcs(outs, crtcs)
    ensures AllDriven(server, outs, crtcs)
  {
    forall o, c | o in outs && 0 <= c < |crtcs|
      ensures o.xid in server.state.crtcs[c].config.outputs <==> o.modeInfo.Some? && o.crtcInfo == Some(c)
    {
      InWhole(outs, o, c);
      assert ShowsPlan(server.state.crtcs[c], outs, Mine(outs, |outs|, c), has13);
    }
  }

  /** The two outputs are to look alike on the server. */
  ghost predicate Agree(a: Output, b: Output, has13: bool)
    requires a.modeInfo.Some? && b.modeInfo.Some?
    reads a`modeInfo, a`x, a`y, a`rotation, a`transform, b`modeInfo, b`x, b`y, b`rotation, b`transform
  {
    && a.modeInfo.value.id == b.modeInfo.value.id && a.x == b.x && a.y == b.y && a.rotation == b.rotation
    && (has13 ==> a.transform == b.transform)
  }

  ghost predicate SharersAgree(outs: seq<Output>, has13: bool)
    reads outs`modeInfo, outs`crtcInfo, outs`x, outs`y, outs`rotation, outs`transform
  {
    forall a, b {:trigger a in outs, b in outs} :: a in outs && b in outs && Share(a, b) ==> Agree(a, b, has13)
  }

  /** The CRTC shows this output as it is to be. */
  ghost predicate ShowsOutput(cs: CrtcState, o: Output, has13: bool)
    requires o.modeInfo.Some?
    reads o`modeInfo, o`x, o`y, o`rotation, o`transform
  {
    && o.xid in cs.config.outputs && cs.config.mode == o.modeInfo.value.id
    && cs.config.x == o.x && cs.config.y == o.y && cs.config.rotation == o.rotation
    && (has13 ==> cs.transform == o.transform)
  }

  /** Every output that is to be on is shown by its CRTC with its own mode, place, rotation and transform. */
  ghost predicate AllShown(server: Server, outs: seq<Output>, crtcs: seq<Crtc>, has13: bool)
    requires |server.state.crtcs| == |crtcs|
    reads server, outs`modeInfo, outs`crtcInfo, outs`x, outs`y, outs`rotation, outs`transform
  {
    forall o {:trigger o in outs} :: o in outs && o.modeInfo.Some? ==>
      && o.crtcInfo.Some? && o.crtcInfo.value < |crtcs|
      && ShowsOutput(server.state.crtcs[o.crtcInfo.value], o, has13)
  }

  /** What is shown of an output is what its CRTC's first output is to be. */
  lemma {:induction false} ShownAsFirst(server: Server, outs: seq<Output>, crtcs: seq<Crtc>, has13: bool, o: Output)
    returns (first: Output)
    requires |server.state.crtcs| == |crtcs| && ServerShowsPlan(server, outs, crtcs, has13) && AllOnCrtcs(outs, crtcs)
    requires o in outs && o.modeInfo.Some?
    ensures o.crtcInfo.Some? && o.crtcInfo.value < |crtcs|
    ensures first in outs && Share(o, first) && ShowsOutput(server.state.crtcs[o.crtcInfo.value], first, has13)
    ensures o.xid in server.state.crtcs[o.crtcInfo.value].config.outputs
  {
    var c := o.crtcInfo.value;
    var mine := Mine(outs, |outs|, c);
    InWhole(outs, o, c);
    first := mine[0];
    InWhole(outs, first, c);
    assert ShowsPlan(server.state.crtcs[c], outs, mine, has13);
  }

  /**
   With the plan in force, every output that is on is shown as it is to be exactly if those that share a
   CRTC agree. Where they do not, the one that is first in the list is shown.
   */
  lemma {:induction false} ShownExactlyWhenAgree(server: Server, outs: seq<Output>, crtcs: seq<Crtc>, has13: bool)
    requires |server.state.crtcs| == |crtcs| && ServerShowsPlan(server, outs, crtcs, has13) && AllOnCrtcs(outs, crtcs)
    ensures AllShown(server, outs, crtcs, has13) <==> SharersAgree(outs, has13)
  {
    if SharersAgree(outs, has13) {
      forall o | o in outs && o.modeInfo.Some?
        ensures o.crtcInfo.Some? && o.crtcInfo.value < |crtcs|
        ensures ShowsOutput(server.state.crtcs[o.crtcInfo.value], o, has13)
      {
        var first := ShownAsFirst(server, outs, crtcs, has13, o);
        assert Agree(o, first, has13);
      }
    }
  }
}
