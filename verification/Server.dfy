/**
 The X server as the planner meets it: one screen size and one record per CRTC. A request for a CRTC
 may be granted or refused, whichever the server likes; every request leaves its outcome in a trace.
 */
module Server {
  import opened RandR
  import opened Geometry

  /** `transform` is in force; `pending` comes into force with the next configuration that is granted. */
  datatype CrtcState = CrtcState(config: CrtcConfig, transform: Transform, pending: Transform, panning: Option<Panning>)
  datatype Size = Size(width: int, height: int, widthMm: int, heightMm: int)
  datatype State = State(size: Size, crtcs: seq<CrtcState>)

  datatype Status = Success | Refused

  /** A CRTC that is off, or whose transformed mode ends within a screen of this size. */
  predicate CrtcFits(modes: seq<Mode>, cs: CrtcState, width: int, height: int) {
    cs.config.mode != NO_XID ==>
      var mode := FindMode(modes, cs.config.mode);
      && mode.Some?
      && var box := ModeBounds(mode.value, cs.config.rotation, cs.transform.matrix);
         cs.config.x + box.x2 <= width && cs.config.y + box.y2 <= height
  }

  /** All that a fitting CRTC shows of its mode ends within the screen, whatever its transform. */
  lemma {:induction false} FittingIsOnScreen(modes: seq<Mode>, cs: CrtcState, width: int, height: int, p: Point)
    requires CrtcFits(modes, cs, width, height) && cs.config.mode != NO_XID
    requires var mode := FindMode(modes, cs.config.mode).value;
             && CornersInRange(cs.transform.matrix, Corners(mode, cs.config.rotation))
             && 0.0 <= p.x <= ModeWidth(mode, cs.config.rotation) as real
             && 0.0 <= p.y <= ModeHeight(mode, cs.config.rotation) as real
    ensures var q := TransformPoint(cs.transform.matrix, p);
      && q.Some? && cs.config.x as real + q.value.x <= width as real
      && cs.config.y as real + q.value.y <= height as real
  {
    BoxContainsImage(FindMode(modes, cs.config.mode).value, cs.config.rotation, cs.transform.matrix, p);
  }

  /** Without a transform a CRTC that is on fits exactly if its turned mode does. */
  lemma {:induction false} FitsUntransformed(modes: seq<Mode>, cs: CrtcState, mode: Mode, width: int, height: int)
    requires cs.config.mode != NO_XID && FindMode(modes, cs.config.mode) == Some(mode)
    requires cs.transform.matrix == IDENTITY.matrix
    ensures CrtcFits(modes, cs, width, height) <==>
      && cs.config.x + ModeWidth(mode, cs.config.rotation) <= width
      && cs.config.y + ModeHeight(mode, cs.config.rotation) <= height
  {
    IdentityBox(mode, cs.config.rotation);
  }

  predicate AllCrtcsFit(modes: seq<Mode>, st: State, width: int, height: int) {
    forall c :: 0 <= c < |st.crtcs| ==> CrtcFits(modes, st.crtcs[c], width, height)
  }

  /** No CRTC that is on reaches beyond the right or bottom edge of the screen. */
  predicate Safe(modes: seq<Mode>, st: State) {
    AllCrtcsFit(modes, st, st.size.width, st.size.height)
  }

  function Configured(cs: CrtcState, config: CrtcConfig): CrtcState {
    cs.(config := config, transform := cs.pending)
  }

  class Server {
    const modes: seq<Mode>
    var state: State
    /** How many requests were refused so far. */
    var refused: nat
    /** The states after each request. */
    ghost var trace: seq<State>

    constructor (modes: seq<Mode>, state: State)
      ensures this.modes == modes && this.state == state && refused == 0 && trace == []
    {
      this.modes, this.state, refused, trace := modes, state, 0, [];
    }

    method SetCrtcConfig(c: nat, config: CrtcConfig) returns (s: Status)
      requires c < |state.crtcs|
      modifies this
      ensures s.Success? ==>
        refused == old(refused)
        && state == old(state).(crtcs := old(state).crtcs[c := Configured(old(state).crtcs[c], config)])
      ensures s.Refused? ==> refused == old(refused) + 1 && state == old(state)
      ensures trace == old(trace) + [state]
    {
      s := *;
      if s.Success? {
        state := state.(crtcs := state.crtcs[c := Configured(state.crtcs[c], config)]);
      } else {
        refused := refused + 1;
      }
      trace := trace + [state];
    }

    method SetCrtcTransform(c: nat, transform: Transform)
      requires c < |state.crtcs|
      modifies this
      ensures state == old(state).(crtcs := old(state).crtcs[c := old(state).crtcs[c].(pending := transform)])
      ensures refused == old(refused) && trace == old(trace) + [state]
    {
      state := state.(crtcs := state.crtcs[c := state.crtcs[c].(pending := transform)]);
      trace := trace + [state];
    }

    method SetPanning(c: nat, panning: Panning) returns (s: Status)
      requires c < |state.crtcs|
      modifies this
      ensures s.Success? ==>
        refused == old(refused)
        && state == old(state).(crtcs := old(state).crtcs[c := old(state).crtcs[c].(panning := Some(panning))])
      ensures s.Refused? ==> refused == old(refused) + 1 && state == old(state)
      ensures trace == old(trace) + [state]
    {
      s := *;
      if s.Success? {
        state := state.(crtcs := state.crtcs[c := state.crtcs[c].(panning := Some(panning))]);
      } else {
        refused := refused + 1;
      }
      trace := trace + [state];
    }

    /** The server accepts a screen size only if it holds every CRTC that is on. */
    method SetScreenSize(size: Size)
      modifies this
      ensures AllCrtcsFit(modes, old(state), size.width, size.height) ==>
        state == old(state).(size := size) && refused == old(refused)
      ensures !AllCrtcsFit(modes, old(state), size.width, size.height) ==>
        state == old(state) && refused == old(refused) + 1
      ensures trace == old(trace) + [state]
    {
      if AllCrtcsFit(modes, state, size.width, size.height) {
        state := state.(size := size);
      } else {
        refused := refused + 1;
      }
      trace := trace + [state];
    }
  }
}
