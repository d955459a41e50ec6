/**
 The disable / resize / enable transaction (`apply`) and its rollback (`panic`, `revert`), run
 against the server.
 */
module Transaction {
  import opened RandR
  import opened Geometry
  import opened Records
  import opened Server

  datatype Outcome = Applied | Panicked(refusedWhileReverting: nat) | PanningNeedsNewerServer

  ghost predicate Indexed(server: Server, crtcs: seq<Crtc>)
    reads server
  {
    DistinctCrtcs(crtcs) && |server.state.crtcs| == |crtcs|
  }

  /** The CRTC is in the state the program read from the server, panning aside. */
  ghost predicate AsRead(cs: CrtcState, crtc: Crtc) {
    cs.config == crtc.info && cs.transform == crtc.currentTransform && cs.pending == crtc.currentTransform
  }

  ghost predicate AllAsRead(server: Server, crtcs: seq<Crtc>)
    requires |server.state.crtcs| == |crtcs|
    reads server
  {
    forall c {:trigger server.state.crtcs[c]} :: 0 <= c < |crtcs| ==> AsRead(server.state.crtcs[c], crtcs[c])
  }

  /** A transform the server has pending can be put back: the program knows that it changed it. */
  ghost predicate Revertible(cs: CrtcState, crtc: Crtc, has13: bool)
    reads crtc`pendingTransform
  {
    cs.pending == crtc.currentTransform || (has13 && crtc.pendingTransform != crtc.currentTransform)
  }

  ghost predicate AllRevertible(server: Server, crtcs: seq<Crtc>, has13: bool)
    requires |server.state.crtcs| == |crtcs|
    reads server, crtcs`pendingTransform
  {
    forall c {:trigger server.state.crtcs[c]} :: 0 <= c < |crtcs| ==> Revertible(server.state.crtcs[c], crtcs[c], has13)
  }

  ghost predicate TraceSafe(server: Server, start: nat)
    reads server
  {
    forall i :: start <= i < |server.trace| ==> Safe(server.modes, server.trace[i])
  }

  ghost predicate TraceSized(server: Server, start: nat, size: Size)
    reads server
  {
    forall i :: start <= i < |server.trace| ==> server.trace[i].size == size
  }

  method CrtcDisable(server: Server, c: nat) returns (s: Status)
    requires c < |server.state.crtcs|
    modifies server
    ensures s.Success? ==>
      server.refused == old(server.refused)
      && server.state ==
         old(server.state).(crtcs := old(server.state).crtcs[c := Configured(old(server.state).crtcs[c], OFF)])
    ensures s.Refused? ==> server.refused == old(server.refused) + 1 && server.state == old(server.state)
    ensures server.trace == old(server.trace) + [server.state]
    ensures old(Safe(server.modes, server.state)) ==> Safe(server.modes, server.state)
  {
    s := server.SetCrtcConfig(c, OFF);
  }

  method CrtcSetTransform(server: Server, c: nat, transform: Transform, has13: bool)
    requires c < |server.state.crtcs|
    modifies server
    ensures server.refused == old(server.refused)
    ensures has13 ==>
      && server.state ==
         old(server.state).(crtcs := old(server.state).crtcs[c := old(server.state).crtcs[c].(pending := transform)])
      && server.trace == old(server.trace) + [server.state]
    ensures !has13 ==> server.state == old(server.state) && server.trace == old(server.trace)
  {
    if has13 {
      server.SetCrtcTransform(c, transform);
    }
  }

  /** Puts one CRTC back to what was read; the status is nobody's business. */
  method CrtcRevert(server: Server, crtcs: seq<Crtc>, c: nat, has13: bool)
    requires Indexed(server, crtcs) && c < |crtcs| && Revertible(server.state.crtcs[c], crtcs[c], has13)
    modifies server
    ensures |server.state.crtcs| == |crtcs| && server.state.size == old(server.state.size)
    ensures server.refused >= old(server.refused)
    ensures forall i :: 0 <= i < |crtcs| && i != c ==> server.state.crtcs[i] == old(server.state.crtcs[i])
    ensures server.refused == old(server.refused) ==> AsRead(server.state.crtcs[c], crtcs[c])
    ensures old(server.trace) <= server.trace && TraceSized(server, |old(server.trace)|, server.state.size)
    ensures (old(Safe(server.modes, server.state)) && server.refused == old(server.refused)
             && CrtcFits(server.modes, server.state.crtcs[c], server.state.size.width, server.state.size.height)) ==>
      TraceSafe(server, |old(server.trace)|) && Safe(server.modes, server.state)
  {
    var crtc := crtcs[c];
    if crtc.currentTransform != crtc.pendingTransform {
      CrtcSetTransform(server, c, crtc.currentTransform, has13);
    }
    var _ := server.SetCrtcConfig(c, crtc.info);
  }

  /** Every CRTC has been configured off by a request, so what was pending is in force. */
  ghost predicate AllOff(server: Server)
    reads server
  {
    forall c :: 0 <= c < |server.state.crtcs| ==> server.state.crtcs[c].config == OFF
  }

  method DisableAll(server: Server, crtcs: seq<Crtc>, has13: bool)
    requires Indexed(server, crtcs) && AllRevertible(server, crtcs, has13)
    modifies server
    ensures Indexed(server, crtcs) && AllRevertible(server, crtcs, has13)
    ensures server.refused >= old(server.refused) && server.state.size == old(server.state.size)
    ensures server.refused == old(server.refused) ==> AllOff(server)
    ensures old(server.trace) <= server.trace && TraceSized(server, |old(server.trace)|, server.state.size)
    ensures old(Safe(server.modes, server.state)) ==>
      TraceSafe(server, |old(server.trace)|) && Safe(server.modes, server.state)
  {
    var c := 0;
    while c < |crtcs|
      invariant 0 <= c <= |crtcs|
      invariant Indexed(server, crtcs) && AllRevertible(server, crtcs, has13)
      invariant server.refused >= old(server.refused) && server.state.size == old(server.state.size)
      invariant server.refused == old(server.refused) ==>
        forall i :: 0 <= i < c ==> server.state.crtcs[i].config == OFF
      invariant old(server.trace) <= server.trace && TraceSized(server, |old(server.trace)|, server.state.size)
      invariant old(Safe(server.modes, server.state)) ==>
        TraceSafe(server, |old(server.trace)|) && Safe(server.modes, server.state)
    {
      var _ := CrtcDisable(server, c);
      c := c + 1;
    }
  }

  /** The configurations that were read fit a screen of this size. */
  ghost predicate ReadFits(crtcs: seq<Crtc>, modes: seq<Mode>, width: int, height: int) {
    forall c :: 0 <= c < |crtcs| ==>
      CrtcFits(modes, CrtcState(crtcs[c].info, crtcs[c].currentTransform, crtcs[c].currentTransform, None),
               width, height)
  }

  method RestoreAll(server: Server, crtcs: seq<Crtc>, has13: bool)
    requires Indexed(server, crtcs) && AllRevertible(server, crtcs, has13)
    modifies server
    ensures Indexed(server, crtcs)
    ensures server.refused >= old(server.refused) && server.state.size == old(server.state.size)
    ensures server.refused == old(server.refused) ==> AllAsRead(server, crtcs)
    ensures old(server.trace) <= server.trace && TraceSized(server, |old(server.trace)|, server.state.size)
    ensures (old(Safe(server.modes, server.state)) && server.refused == old(server.refused)
             && ReadFits(crtcs, server.modes, server.state.size.width, server.state.size.height)) ==>
      TraceSafe(server, |old(server.trace)|)
  {
    var c := 0;
    while c < |crtcs|
      invariant 0 <= c <= |crtcs|
      invariant Indexed(server, crtcs)
      invariant server.refused >= old(server.refused) && server.state.size == old(server.state.size)
      invariant forall i :: c <= i < |crtcs| ==> Revertible(server.state.crtcs[i], crtcs[i], has13)
      invariant server.refused == old(server.refused) ==>
        forall i :: 0 <= i < c ==> AsRead(server.state.crtcs[i], crtcs[i])
      invariant old(server.trace) <= server.trace && TraceSized(server, |old(server.trace)|, server.state.size)
      invariant (old(Safe(server.modes, server.state)) && server.refused == old(server.refused)
                 && ReadFits(crtcs, server.modes, server.state.size.width, server.state.size.height)) ==>
        TraceSafe(server, |old(server.trace)|) && Safe(server.modes, server.state)
    {
      CrtcRevert(server, crtcs, c, has13);
      c := c + 1;
    }
  }

  /** The screen the program was started on, as Xlib still remembers it. */
  method ScreenRevert(server: Server, display: Size)
    requires |server.state.crtcs| >= 0
    modifies server
    ensures server.state.crtcs == old(server.state.crtcs) && server.refused >= old(server.refused)
    ensures old(AllCrtcsFit(server.modes, server.state, display.width, display.height)) ==>
      server.refused == old(server.refused) && server.state.size == display
    ensures server.refused == old(server.refused) ==> server.state.size == display && Safe(server.modes, server.state)
    ensures old(Safe(server.modes, server.state)) ==> Safe(server.modes, server.state)
    ensures server.trace == old(server.trace) + [server.state]
  {
    server.SetScreenSize(display);
  }

  /**
   Rollback: everything off, the screen back to its size, everything as it was read. When the server
   refuses none of these requests, screen size, configurations and transforms end as they were read,
   all CRTCs were off when the screen was resized, and no state in between was unsafe.
   */
  method Revert(server: Server, crtcs: seq<Crtc>, display: Size, has13: bool) returns (refused: nat)
    requires Indexed(server, crtcs) && AllRevertible(server, crtcs, has13)
    modifies server
    ensures Indexed(server, crtcs)
    ensures refused == server.refused - old(server.refused)
    ensures refused == 0 ==> server.state.size == display && AllAsRead(server, crtcs)
    ensures refused == 0 ==>
      exists resized :: ResizedWhenOff(server, |old(server.trace)|, resized, old(server.state.size), display)
    ensures old(server.trace) <= server.trace
    ensures (old(Safe(server.modes, server.state)) && refused == 0
             && ReadFits(crtcs, server.modes, display.width, display.height)) ==>
      TraceSafe(server, |old(server.trace)|)
  {
    var before := server.refused;
    DisableAll(server, crtcs, has13);
    ghost var resized := |server.trace|;
    ScreenRevert(server, display);
    ghost var uptoResize := server.trace;
    RestoreAll(server, crtcs, has13);
    refused := server.refused - before;
    if refused == 0 {
      assert server.trace[resized] == uptoResize[resized];
      assert ResizedWhenOff(server, |old(server.trace)|, resized, old(server.state.size), display);
    }
  }

  /** The screen went from one size to the other once, at request `resized`, with every CRTC off. */
  ghost predicate ResizedWhenOff(server: Server, start: nat, resized: nat, before: Size, after: Size)
    reads server
  {
    && start <= resized < |server.trace| && OffIn(server.trace[resized])
    && (forall i :: start <= i < resized ==> server.trace[i].size == before)
    && (forall i :: resized <= i < |server.trace| ==> server.trace[i].size == after)
  }

  /** Some time after `start` the screen went back to this size, with every CRTC off. */
  ghost predicate RolledBack(server: Server, start: nat, size: Size, display: Size)
    reads server
  {
    exists from, resized, before :: start <= from && (before == size || before == display)
      && ResizedWhenOff(server, from, resized, before, display)
  }

  ghost predicate OffIn(st: State) {
    forall c :: 0 <= c < |st.crtcs| ==> st.crtcs[c].config == OFF
  }

  // ----- apply -----

  function XidsOf(outputs: seq<Output>): (xids: seq<Xid>)
    ensures |xids| == |outputs|
    ensures forall i :: 0 <= i < |outputs| ==> xids[i] == outputs[i].xid
  {
    seq(|outputs|, i requires 0 <= i < |outputs| => outputs[i].xid)
  }

  /** What is planned for a CRTC that is to be on. */
  function PlannedConfig(crtc: Crtc): CrtcConfig
    requires crtc.modeInfo.Some?
    reads crtc
  {
    CrtcConfig(crtc.x, crtc.y, crtc.modeInfo.value.id, crtc.rotation, XidsOf(crtc.outputs))
  }

  /** The transform a configuration request brings into force: servers before 1.3 have none to set. */
  function PlannedTransform(crtc: Crtc, has13: bool): Transform
    reads crtc
  {
    if has13 then crtc.pendingTransform else crtc.currentTransform
  }

  /** After the first loop: off, or as it was read and within the new size. */
  ghost predicate Cleared(cs: CrtcState, crtc: Crtc, modes: seq<Mode>, width: int, height: int)
    reads crtc`changing, crtc`modeInfo
  {
    if crtc.info.mode == NO_XID
       || (crtc.modeInfo.Some? && CrtcFits(modes, cs, width, height) && cs.config.mode != NO_XID)
    then AsRead(cs, crtc)
    else
      && cs.config == OFF && cs.transform == crtc.currentTransform && cs.pending == crtc.currentTransform
      && (crtc.modeInfo.Some? ==> crtc.changing)
  }

  /** The server did not report the mode it has this CRTC in. */
  predicate ModeUnknown(crtc: Crtc, modes: seq<Mode>) {
    crtc.info.mode != NO_XID && FindMode(modes, crtc.info.mode).None?
  }

  ghost predicate AnyModeUnknown(crtcs: seq<Crtc>, modes: seq<Mode>) {
    exists c :: 0 <= c < |crtcs| && ModeUnknown(crtcs[c], modes)
  }

  /** One turn of the loop that turns off what is to be off or does not fit the new size. */
  method ClearCrtc(server: Server, crtcs: seq<Crtc>, c: nat, crtc: Crtc, width: int, height: int)
    returns (ok: bool)
    requires Indexed(server, crtcs) && c < |crtcs| && crtc == crtcs[c]
    requires AsRead(server.state.crtcs[c], crtc)
    modifies server, crtc`changing
    ensures |server.state.crtcs| == |crtcs| && server.state.size == old(server.state.size)
    ensures forall i :: 0 <= i < |crtcs| && i != c ==> server.state.crtcs[i] == old(server.state.crtcs[i])
    ensures ok ==> Cleared(server.state.crtcs[c], crtc, server.modes, width, height)
    ensures ok && crtc.info.mode != NO_XID && crtc.modeInfo.None? ==> server.state.crtcs[c].config == OFF
    ensures ok && crtc.info.mode != NO_XID && crtc.modeInfo.Some? ==>
      if old(CrtcFits(server.modes, server.state.crtcs[c], width, height)) then
        server.state == old(server.state) && crtc.changing == old(crtc.changing)
      else server.state.crtcs[c].config == OFF && crtc.changing
    ensures ok ==> server.refused == old(server.refused)
    ensures !ok ==> server.state == old(server.state)
    ensures !ok ==> server.refused > old(server.refused) || ModeUnknown(crtc, server.modes)
    ensures old(crtc.changing) ==> crtc.changing
    ensures server.trace == old(server.trace) || server.trace == old(server.trace) + [server.state]
    ensures old(Safe(server.modes, server.state)) ==> Safe(server.modes, server.state)
  {
    if crtc.info.mode == NO_XID {
      return true;
    }
    if crtc.modeInfo.Some? {
      var oldMode := FindMode(server.modes, crtc.info.mode);
      if oldMode.None? {
        return false;
      }
      var bounds := ModeGeometry(oldMode.value, crtc.info.rotation, crtc.currentTransform.matrix);
      var x, y := crtc.info.x + bounds.x1, crtc.info.y + bounds.y1;
      var w, h := bounds.x2 - bounds.x1, bounds.y2 - bounds.y1;
      if x + w <= width && y + h <= height {
        return true;
      }
      crtc.changing := true;
    }
    var s := CrtcDisable(server, c);
    ok := s.Success?;
  }

  ghost predicate AllCleared(server: Server, crtcs: seq<Crtc>, width: int, height: int)
    requires |server.state.crtcs| == |crtcs|
    reads server, crtcs`changing, crtcs`modeInfo
  {
    forall c {:trigger server.state.crtcs[c]} :: 0 <= c < |crtcs| ==>
      Cleared(server.state.crtcs[c], crtcs[c], server.modes, width, height)
  }

  /** Turns off every CRTC that is to be off or is too large for the new size. */
  method ClearCrtcs(server: Server, crtcs: seq<Crtc>, width: int, height: int) returns (ok: bool)
    requires Indexed(server, crtcs) && AllAsRead(server, crtcs)
    modifies server, crtcs`changing
    ensures Indexed(server, crtcs) && server.state.size == old(server.state.size)
    ensures ok ==> AllCleared(server, crtcs, width, height) && server.refused == old(server.refused)
    ensures !ok ==> server.refused > old(server.refused) || AnyModeUnknown(crtcs, server.modes)
    ensures AllRevertible(server, crtcs, false)
    ensures forall c :: 0 <= c < |crtcs| && old(crtcs[c].changing) ==> crtcs[c].changing
    ensures old(server.trace) <= server.trace
    ensures old(Safe(server.modes, server.state)) ==>
      TraceSafe(server, |old(server.trace)|) && Safe(server.modes, server.state)
  {
    var c := 0;
    while c < |crtcs|
      invariant 0 <= c <= |crtcs|
      invariant Indexed(server, crtcs) && server.state.size == old(server.state.size)
      invariant server.refused == old(server.refused)
      invariant forall i {:trigger server.state.crtcs[i]} :: 0 <= i < c ==>
        Cleared(server.state.crtcs[i], crtcs[i], server.modes, width, height)
      invariant forall i {:trigger server.state.crtcs[i]} :: c <= i < |crtcs| ==>
        AsRead(server.state.crtcs[i], crtcs[i])
      invariant forall i :: 0 <= i < |crtcs| && old(crtcs[i].changing) ==> crtcs[i].changing
      invariant old(server.trace) <= server.trace
      invariant old(Safe(server.modes, server.state)) ==>
        TraceSafe(server, |old(server.trace)|) && Safe(server.modes, server.state)
    {
      assert forall i :: 0 <= i < |crtcs| && i != c ==> crtcs[i] != crtcs[c];
      ok := ClearCrtc(server, crtcs, c, crtcs[c], width, height);
      if !ok {
        return;
      }
      c := c + 1;
    }
    ok := true;
  }

  lemma ClearedFits(server: Server, crtcs: seq<Crtc>, width: int, height: int)
    requires Indexed(server, crtcs) && AllCleared(server, crtcs, width, height)
    ensures AllCrtcsFit(server.modes, server.state, width, height)
  {}

  /** Sets the screen size unless the screen already has it; cleared CRTCs make the server accept. */
  method ScreenApply(server: Server, crtcs: seq<Crtc>, size: Size, display: Size)
    requires Indexed(server, crtcs) && AllCleared(server, crtcs, size.width, size.height)
    requires server.state.size == display
    modifies server
    ensures server.state == old(server.state).(size := size) && server.refused == old(server.refused)
    ensures server.trace == old(server.trace) || server.trace == old(server.trace) + [server.state]
    ensures Safe(server.modes, server.state)
  {
    ClearedFits(server, crtcs, size.width, size.height);
    if size == display {
      return;
    }
    server.SetScreenSize(size);
  }

  datatype ApplyStatus = Done | Failed | NeedsNewerServer

  /** What a CRTC is left as by the last loop, on the way to success. */
  ghost predicate AsPlanned(cs: CrtcState, crtc: Crtc, has13: bool)
    reads crtc
  {
    if crtc.modeInfo.Some? && crtc.changing then
      && cs.config == PlannedConfig(crtc) && cs.transform == PlannedTransform(crtc, has13)
      && (crtc.panning.Some? ==> cs.panning == crtc.panning)
    else if crtc.modeInfo.Some? then AsRead(cs, crtc)
    else cs.config.mode == NO_XID && (cs.config == OFF || AsRead(cs, crtc))
  }

  /** The planned configuration, under the transform it will get, ends within a screen of this size. */
  ghost predicate PlanFits(crtc: Crtc, modes: seq<Mode>, has13: bool, width: int, height: int)
    reads crtc
  {
    crtc.modeInfo.Some? ==>
      CrtcFits(modes,
               CrtcState(PlannedConfig(crtc), PlannedTransform(crtc, has13), PlannedTransform(crtc, has13), None),
               width, height)
  }

  /** Sends the transform, if it is another one, and the configuration. */
  method SendPlan(server: Server, c: nat, crtc: Crtc, has13: bool) returns (status: Status)
    requires c < |server.state.crtcs| && crtc.modeInfo.Some?
    requires server.state.crtcs[c].pending == crtc.currentTransform
    modifies server
    ensures |server.state.crtcs| == old(|server.state.crtcs|) && server.state.size == old(server.state.size)
    ensures forall i :: 0 <= i < |server.state.crtcs| && i != c ==> server.state.crtcs[i] == old(server.state.crtcs[i])
    ensures server.state.crtcs[c].pending == PlannedTransform(crtc, has13)
    ensures server.refused == if status.Success? then old(server.refused) else old(server.refused) + 1
    ensures status.Success? ==>
      server.state.crtcs[c].config == PlannedConfig(crtc)
        && server.state.crtcs[c].transform == PlannedTransform(crtc, has13)
    ensures old(server.trace) <= server.trace
    ensures (old(Safe(server.modes, server.state))
             && PlanFits(crtc, server.modes, has13, server.state.size.width, server.state.size.height)) ==>
      TraceSafe(server, |old(server.trace)|) && Safe(server.modes, server.state)
  {
    if crtc.currentTransform != crtc.pendingTransform {
      CrtcSetTransform(server, c, crtc.pendingTransform, has13);
    }
    var config := CrtcConfig(crtc.x, crtc.y, crtc.modeInfo.value.id, crtc.rotation, XidsOf(crtc.outputs));
    status := server.SetCrtcConfig(c, config);
  }

  /** Sends one CRTC its new configuration, if it is changing and to be on. */
  method CrtcApply(server: Server, crtcs: seq<Crtc>, c: nat, crtc: Crtc, has13: bool, ghost width: int,
                   ghost height: int)
    returns (s: ApplyStatus)
    requires Indexed(server, crtcs) && c < |crtcs| && crtc == crtcs[c]
    requires Cleared(server.state.crtcs[c], crtc, server.modes, width, height)
    modifies server
    ensures |server.state.crtcs| == |crtcs| && server.state.size == old(server.state.size)
    ensures forall i :: 0 <= i < |crtcs| && i != c ==> server.state.crtcs[i] == old(server.state.crtcs[i])
    ensures s == Done ==> AsPlanned(server.state.crtcs[c], crtc, has13)
    ensures s == Failed <==> server.refused > old(server.refused)
    ensures server.refused >= old(server.refused)
    ensures s == NeedsNewerServer ==> !has13 && crtc.panning.Some?
    ensures Revertible(server.state.crtcs[c], crtc, has13)
    ensures old(server.trace) <= server.trace
    ensures (old(Safe(server.modes, server.state))
             && PlanFits(crtc, server.modes, has13, server.state.size.width, server.state.size.height)) ==>
      TraceSafe(server, |old(server.trace)|) && Safe(server.modes, server.state)
  {
    if !crtc.changing || crtc.modeInfo.None? {
      return Done;
    }
    var status := SendPlan(server, c, crtc, has13);
    if status.Success? && crtc.panning.Some? {
      if !has13 {
        return NeedsNewerServer;
      }
      status := server.SetPanning(c, crtc.panning.value);
    }
    s := if status.Success? then Done else Failed;
  }

  ghost predicate AllPlansFit(crtcs: seq<Crtc>, modes: seq<Mode>, has13: bool, width: int, height: int)
    reads crtcs
  {
    forall c :: 0 <= c < |crtcs| ==> PlanFits(crtcs[c], modes, has13, width, height)
  }

  ghost predicate AllAsPlanned(server: Server, crtcs: seq<Crtc>, has13: bool)
    requires |server.state.crtcs| == |crtcs|
    reads server, crtcs
  {
    forall c {:trigger server.state.crtcs[c]} :: 0 <= c < |crtcs| ==> AsPlanned(server.state.crtcs[c], crtcs[c], has13)
  }

  /** Sets every CRTC that is changing and to be on. */
  method ApplyCrtcs(server: Server, crtcs: seq<Crtc>, has13: bool, ghost width: int, ghost height: int)
    returns (s: ApplyStatus)
    requires Indexed(server, crtcs) && AllCleared(server, crtcs, width, height)
    modifies server
    ensures Indexed(server, crtcs) && server.state.size == old(server.state.size)
    ensures s == Done ==> AllAsPlanned(server, crtcs, has13)
    ensures s == Failed <==> server.refused > old(server.refused)
    ensures server.refused >= old(server.refused)
    ensures s == NeedsNewerServer ==> !has13 && exists c :: 0 <= c < |crtcs| && crtcs[c].panning.Some?
    ensures AllRevertible(server, crtcs, has13)
    ensures old(server.trace) <= server.trace
    ensures (old(Safe(server.modes, server.state))
             && AllPlansFit(crtcs, server.modes, has13, server.state.size.width, server.state.size.height)) ==>
      TraceSafe(server, |old(server.trace)|) && Safe(server.modes, server.state)
  {
    var c := 0;
    while c < |crtcs|
      invariant 0 <= c <= |crtcs|
      invariant Indexed(server, crtcs) && server.state.size == old(server.state.size)
      invariant server.refused == old(server.refused)
      invariant forall i {:trigger server.state.crtcs[i]} :: 0 <= i < c ==>
        AsPlanned(server.state.crtcs[i], crtcs[i], has13) && Revertible(server.state.crtcs[i], crtcs[i], has13)
      invariant forall i {:trigger server.state.crtcs[i]} :: c <= i < |crtcs| ==>
        Cleared(server.state.crtcs[i], crtcs[i], server.modes, width, height)
      invariant old(server.trace) <= server.trace
      invariant (old(Safe(server.modes, server.state))
                 && AllPlansFit(crtcs, server.modes, has13, server.state.size.width, server.state.size.height)) ==>
        TraceSafe(server, |old(server.trace)|) && Safe(server.modes, server.state)
    {
      s := CrtcApply(server, crtcs, c, crtcs[c], has13, width, height);
      if s != Done {
        return;
      }
      c := c + 1;
    }
    s := Done;
  }

  /**
   The whole transaction, on a server that is as the program read it. On success the screen has the
   planned size and every CRTC its planned state, or is untouched where nothing was to change. It fails
   only if the server refused a request or never reported a mode that is in use; then everything is
   rolled back, completely so unless the server refuses again. No
   state on the way is unsafe, provided the plan fits the planned size and the start was safe.
   */
  method Apply(server: Server, crtcs: seq<Crtc>, size: Size, display: Size, has13: bool) returns (r: Outcome)
    requires Indexed(server, crtcs) && AllAsRead(server, crtcs) && server.state.size == display
    modifies server, crtcs`changing
    ensures |server.state.crtcs| == |crtcs|
    ensures r == Applied ==> server.state.size == size && AllAsPlanned(server, crtcs, has13)
    ensures r == Panicked(0) ==> server.state.size == display && AllAsRead(server, crtcs)
    ensures r == Panicked(0) ==> RolledBack(server, |old(server.trace)|, size, display)
    ensures r == Applied ==> server.refused == old(server.refused)
    ensures r.Panicked? ==>
      server.refused > old(server.refused) + r.refusedWhileReverting || AnyModeUnknown(crtcs, server.modes)
    ensures r == PanningNeedsNewerServer ==> !has13 && exists c :: 0 <= c < |crtcs| && crtcs[c].panning.Some?
    ensures forall c :: 0 <= c < |crtcs| && old(crtcs[c].changing) ==> crtcs[c].changing
    ensures old(server.trace) <= server.trace
    ensures old(Safe(server.modes, server.state)) && AllPlansFit(crtcs, server.modes, has13, size.width, size.height)
            && (r == Applied || r == Panicked(0)) ==>
      TraceSafe(server, |old(server.trace)|)
  {
    ReadIsSafe(server, crtcs);
    var ok := ClearCrtcs(server, crtcs, size.width, size.height);
    if !ok {
      var refused := Revert(server, crtcs, display, has13);
      return Panicked(refused);
    }
    ScreenApply(server, crtcs, size, display);
    var s := ApplyCrtcs(server, crtcs, has13, size.width, size.height);
    match s {
      case Done =>
        r := Applied;
      case NeedsNewerServer =>
        r := PanningNeedsNewerServer;
      case Failed =>
        var refused := Revert(server, crtcs, display, has13);
        r := Panicked(refused);
    }
  }

  lemma ReadIsSafe(server: Server, crtcs: seq<Crtc>)
    requires Indexed(server, crtcs) && AllAsRead(server, crtcs)
    ensures Safe(server.modes, server.state) <==>
      ReadFits(crtcs, server.modes, server.state.size.width, server.state.size.height)
  {
    assert forall c :: 0 <= c < |crtcs| ==> AsRead(server.state.crtcs[c], crtcs[c]);
  }
}
