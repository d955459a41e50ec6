/** `set_screen_size`: the framebuffer that holds every enabled output and its panning area. */
module ScreenSize {
  import opened RandR
  import opened Geometry
  import opened Records

  datatype Limits = Limits(minWidth: int, minHeight: int, maxWidth: int, maxHeight: int)

  /** `SizeSet(warned)`: the size stands, and some output does not fit a size asked for. */
  datatype SizeResult = SizeSet(warned: bool) | TooLarge | TooSmall

  class Framebuffer {
    var width: int
    var height: int

    constructor (width: int, height: int)
      ensures this.width == width && this.height == height
    {
      this.width, this.height := width, height;
    }
  }

  function BoundsOfOutput(o: Output): Box
    requires o.modeInfo.Some?
    reads o`modeInfo, o`rotation, o`transform
  {
    ModeBounds(o.modeInfo.value, o.rotation, o.transform.matrix)
  }

  /** The right and bottom edges of an enabled output's box on the screen. */
  function RightEdge(o: Output): int
    requires o.modeInfo.Some?
    reads o`modeInfo, o`rotation, o`transform, o`x
  {
    o.x + BoundsOfOutput(o).x2
  }

  function BottomEdge(o: Output): int
    requires o.modeInfo.Some?
    reads o`modeInfo, o`rotation, o`transform, o`y
  {
    o.y + BoundsOfOutput(o).y2
  }

  ghost predicate CrtcsKnown(outs: seq<Output>, crtcs: seq<Crtc>)
    reads outs
  {
    forall o :: o in outs && o.crtcInfo.Some? ==> o.crtcInfo.value < |crtcs|
  }

  /** The panning area that counts for an output: its own new one, else the one of its CRTC. */
  function PanOf(o: Output, crtcs: seq<Crtc>): Option<Panning>
    requires o.crtcInfo.Some? ==> o.crtcInfo.value < |crtcs|
    reads o, crtcs
  {
    if ChangedPanning in o.changes then Some(o.panning)
    else if o.crtcInfo.Some? then crtcs[o.crtcInfo.value].panning
    else None
  }

  /** The output, if enabled, and the panning area end at or before `width`. */
  ghost predicate WideFor(o: Output, pan: Option<Panning>, width: int)
    reads o`modeInfo, o`rotation, o`transform, o`x
  {
    o.modeInfo.Some? ==> RightEdge(o) <= width && (pan.Some? ==> pan.value.left + pan.value.width <= width)
  }

  ghost predicate HighFor(o: Output, pan: Option<Panning>, height: int)
    reads o`modeInfo, o`rotation, o`transform, o`y
  {
    o.modeInfo.Some? ==> BottomEdge(o) <= height && (pan.Some? ==> pan.value.top + pan.value.height <= height)
  }

  /** The smallest width, respectively height, an enabled output asks for. */
  ghost predicate WideEnough(o: Output, crtcs: seq<Crtc>, width: int)
    requires o.crtcInfo.Some? ==> o.crtcInfo.value < |crtcs|
    reads o, crtcs
  {
    WideFor(o, PanOf(o, crtcs), width)
  }

  ghost predicate HighEnough(o: Output, crtcs: seq<Crtc>, height: int)
    requires o.crtcInfo.Some? ==> o.crtcInfo.value < |crtcs|
    reads o, crtcs
  {
    HighFor(o, PanOf(o, crtcs), height)
  }

  /** The first `n` outputs, and their panning areas, end at or before `width`. */
  ghost predicate WidthCovers(outs: seq<Output>, crtcs: seq<Crtc>, n: nat, width: int)
    requires CrtcsKnown(outs, crtcs) && n <= |outs|
    reads outs, crtcs
  {
    forall k :: 0 <= k < n ==> WideEnough(outs[k], crtcs, width)
  }

  ghost predicate HeightCovers(outs: seq<Output>, crtcs: seq<Crtc>, n: nat, height: int)
    requires CrtcsKnown(outs, crtcs) && n <= |outs|
    reads outs, crtcs
  {
    forall k :: 0 <= k < n ==> HighEnough(outs[k], crtcs, height)
  }

  /** `size` is the least number from `start` up that covers the first `n` outputs. */
  ghost predicate LeastWidth(outs: seq<Output>, crtcs: seq<Crtc>, n: nat, start: int, size: int)
    requires CrtcsKnown(outs, crtcs) && n <= |outs|
    reads outs, crtcs
  {
    && start <= size && WidthCovers(outs, crtcs, n, size)
    && forall w :: start <= w && WidthCovers(outs, crtcs, n, w) ==> size <= w
  }

  ghost predicate LeastHeight(outs: seq<Output>, crtcs: seq<Crtc>, n: nat, start: int, size: int)
    requires CrtcsKnown(outs, crtcs) && n <= |outs|
    reads outs, crtcs
  {
    && start <= size && HeightCovers(outs, crtcs, n, size)
    && forall h :: start <= h && HeightCovers(outs, crtcs, n, h) ==> size <= h
  }

  ghost predicate AllWideFor(outs: seq<Output>, pans: seq<Option<Panning>>, width: int)
    requires |pans| == |outs|
    reads outs`modeInfo, outs`rotation, outs`transform, outs`x
  {
    forall k {:trigger pans[k]} :: 0 <= k < |outs| ==> WideFor(outs[k], pans[k], width)
  }

  ghost predicate AllHighFor(outs: seq<Output>, pans: seq<Option<Panning>>, height: int)
    requires |pans| == |outs|
    reads outs`modeInfo, outs`rotation, outs`transform, outs`y
  {
    forall k {:trigger pans[k]} :: 0 <= k < |outs| ==> HighFor(outs[k], pans[k], height)
  }

  /** `width` and `height` are the least numbers from these up that cover the outputs with these panning areas. */
  ghost predicate LeastFor(outs: seq<Output>, pans: seq<Option<Panning>>,
                           startWidth: int, startHeight: int, width: int, height: int)
    reads outs`modeInfo, outs`rotation, outs`transform, outs`x, outs`y
  {
    && |pans| == |outs| && startWidth <= width && startHeight <= height
    && AllWideFor(outs, pans, width) && AllHighFor(outs, pans, height)
    && (forall w :: startWidth <= w && AllWideFor(outs, pans, w) ==> width <= w)
    && (forall h :: startHeight <= h && AllHighFor(outs, pans, h) ==> height <= h)
  }

  /** The panning areas that count for the outputs now. */
  ghost predicate PansAre(outs: seq<Output>, crtcs: seq<Crtc>, pans: seq<Option<Panning>>)
    requires CrtcsKnown(outs, crtcs)
    reads outs, crtcs
  {
    |pans| == |outs| && forall k {:trigger pans[k]} :: 0 <= k < |outs| ==> pans[k] == PanOf(outs[k], crtcs)
  }

  lemma CoversFor(outs: seq<Output>, crtcs: seq<Crtc>, pans: seq<Option<Panning>>, size: int)
    requires CrtcsKnown(outs, crtcs) && PansAre(outs, crtcs, pans)
    ensures WidthCovers(outs, crtcs, |outs|, size) <==> AllWideFor(outs, pans, size)
    ensures HeightCovers(outs, crtcs, |outs|, size) <==> AllHighFor(outs, pans, size)
  {
    forall k | 0 <= k < |outs|
      ensures WideEnough(outs[k], crtcs, size) <==> WideFor(outs[k], pans[k], size)
      ensures HighEnough(outs[k], crtcs, size) <==> HighFor(outs[k], pans[k], size)
    {
      assert pans[k] == PanOf(outs[k], crtcs);
    }
  }

  lemma LeastIsLeastFor(outs: seq<Output>, crtcs: seq<Crtc>, pans: seq<Option<Panning>>,
                        startWidth: int, startHeight: int, width: int, height: int)
    requires CrtcsKnown(outs, crtcs) && PansAre(outs, crtcs, pans)
    requires LeastWidth(outs, crtcs, |outs|, startWidth, width) && LeastHeight(outs, crtcs, |outs|, startHeight, height)
    ensures LeastFor(outs, pans, startWidth, startHeight, width, height)
  {
    CoversFor(outs, crtcs, pans, width);
    CoversFor(outs, crtcs, pans, height);
    forall w | startWidth <= w && AllWideFor(outs, pans, w) ensures width <= w { CoversFor(outs, crtcs, pans, w); }
    forall h | startHeight <= h && AllHighFor(outs, pans, h) ensures height <= h { CoversFor(outs, crtcs, pans, h); }
  }

  /** The output's box lies within the right and bottom edges of a screen of this size. */
  ghost predicate FitsScreen(o: Output, width: int, height: int)
    reads o
  {
    o.modeInfo.Some? ==> RightEdge(o) <= width && BottomEdge(o) <= height
  }

  /** Without a transform an output fits exactly if the screen has every pixel that it lights. */
  lemma {:induction false} FitsInPixels(o: Output, width: int, height: int)
    requires o.modeInfo.Some? && o.transform.matrix == IDENTITY.matrix && exists x, y :: Lights(o, x, y)
    ensures FitsScreen(o, width, height) <==> forall x, y :: Lights(o, x, y) ==> x < width && y < height
  {
    var mode := o.modeInfo.value;
    var w, h := ModeWidth(mode, o.rotation), ModeHeight(mode, o.rotation);
    IdentityBox(mode, o.rotation);
    var x, y :| Lights(o, x, y);
    LightsWithin(o, x, y);
    if forall u, v :: Lights(o, u, v) ==> u < width && v < height {
      LightsWithin(o, o.x + w - 1, o.y + h - 1);
      assert Lights(o, o.x + w - 1, o.y + h - 1);
    }
    if FitsScreen(o, width, height) {
      forall u, v | Lights(o, u, v) ensures u < width && v < height { LightsWithin(o, u, v); }
    }
  }

  lemma {:induction false} LightsWithin(o: Output, x: int, y: int)
    requires o.modeInfo.Some?
    ensures Lights(o, x, y) <==>
      && o.x <= x < o.x + ModeWidth(o.modeInfo.value, o.rotation)
      && o.y <= y < o.y + ModeHeight(o.modeInfo.value, o.rotation)
  {
    TurnedFills(o.modeInfo.value, o.rotation, x - o.x, y - o.y);
  }

  /** Under any transform in range, what an output that fits shows of its mode ends within the screen. */
  lemma {:induction false} ImageFits(o: Output, width: int, height: int, p: Point)
    requires o.modeInfo.Some? && FitsScreen(o, width, height)
    requires CornersInRange(o.transform.matrix, Corners(o.modeInfo.value, o.rotation))
    requires 0.0 <= p.x <= ModeWidth(o.modeInfo.value, o.rotation) as real
    requires 0.0 <= p.y <= ModeHeight(o.modeInfo.value, o.rotation) as real
    ensures var q := TransformPoint(o.transform.matrix, p);
      q.Some? && o.x as real + q.value.x <= width as real && o.y as real + q.value.y <= height as real
  {
    BoxContainsImage(o.modeInfo.value, o.rotation, o.transform.matrix, p);
  }

  ghost predicate AllFit(outs: seq<Output>, n: nat, width: int, height: int)
    requires n <= |outs|
    reads outs
  {
    forall k :: 0 <= k < n ==> FitsScreen(outs[k], width, height)
  }

  /** Grows the framebuffer just enough for one output. */
  method GrowFor(o: Output, crtcs: seq<Crtc>, fb: Framebuffer)
    requires o.modeInfo.Some? && (o.crtcInfo.Some? ==> o.crtcInfo.value < |crtcs|)
    modifies fb
    ensures old(fb.width) <= fb.width && WideEnough(o, crtcs, fb.width)
    ensures forall w :: old(fb.width) <= w && WideEnough(o, crtcs, w) ==> fb.width <= w
    ensures old(fb.height) <= fb.height && HighEnough(o, crtcs, fb.height)
    ensures forall h :: old(fb.height) <= h && HighEnough(o, crtcs, h) ==> fb.height <= h
  {
    var bounds := ModeGeometry(o.modeInfo.value, o.rotation, o.transform.matrix);
    var x, y := o.x + bounds.x1, o.y + bounds.y1;
    var w, h := bounds.x2 - bounds.x1, bounds.y2 - bounds.y1;
    if x + w > fb.width { fb.width := x + w; }
    if y + h > fb.height { fb.height := y + h; }
    var pan := if ChangedPanning in o.changes then Some(o.panning)
               else if o.crtcInfo.Some? then crtcs[o.crtcInfo.value].panning else None;
    if pan.Some? && pan.value.left + pan.value.width > fb.width {
      fb.width := pan.value.left + pan.value.width;
    }
    if pan.Some? && pan.value.top + pan.value.height > fb.height {
      fb.height := pan.value.top + pan.value.height;
    }
  }

  lemma LeastWidthStep(outs: seq<Output>, crtcs: seq<Crtc>, n: nat, start: int, size: int, size': int)
    requires CrtcsKnown(outs, crtcs) && n < |outs| && LeastWidth(outs, crtcs, n, start, size)
    requires size <= size' && WideEnough(outs[n], crtcs, size')
    requires forall w :: size <= w && WideEnough(outs[n], crtcs, w) ==> size' <= w
    ensures LeastWidth(outs, crtcs, n + 1, start, size')
  {
    var m := n + 1;
    forall w | start <= w && WidthCovers(outs, crtcs, m, w) ensures size' <= w {
      assert WidthCovers(outs, crtcs, n, w) && WideEnough(outs[n], crtcs, w);
    }
  }

  lemma LeastHeightStep(outs: seq<Output>, crtcs: seq<Crtc>, n: nat, start: int, size: int, size': int)
    requires CrtcsKnown(outs, crtcs) && n < |outs| && LeastHeight(outs, crtcs, n, start, size)
    requires size <= size' && HighEnough(outs[n], crtcs, size')
    requires forall h :: size <= h && HighEnough(outs[n], crtcs, h) ==> size' <= h
    ensures LeastHeight(outs, crtcs, n + 1, start, size')
  {
    var m := n + 1;
    forall h | start <= h && HeightCovers(outs, crtcs, m, h) ensures size' <= h {
      assert HeightCovers(outs, crtcs, n, h) && HighEnough(outs[n], crtcs, h);
    }
  }

  /** The loop over the outputs: grow an unset framebuffer, or look for outputs a fixed one cuts off. */
  method FitOutputs(outs: seq<Output>, crtcs: seq<Crtc>, fb: Framebuffer, specified: bool) returns (warned: bool)
    requires CrtcsKnown(outs, crtcs)
    modifies fb
    ensures specified ==>
      && fb.width == old(fb.width) && fb.height == old(fb.height)
      && (warned <==> !AllFit(outs, |outs|, fb.width, fb.height))
    ensures !specified ==>
      && !warned
      && LeastWidth(outs, crtcs, |outs|, old(fb.width), fb.width)
      && LeastHeight(outs, crtcs, |outs|, old(fb.height), fb.height)
  {
    warned := false;
    var k := 0;
    while k < |outs|
      invariant 0 <= k <= |outs|
      invariant specified ==>
        && fb.width == old(fb.width) && fb.height == old(fb.height)
        && (warned <==> !AllFit(outs, k, fb.width, fb.height))
      invariant !specified ==>
        && !warned
        && LeastWidth(outs, crtcs, k, old(fb.width), fb.width)
        && LeastHeight(outs, crtcs, k, old(fb.height), fb.height)
    {
      var output := outs[k];
      ghost var w0, h0 := fb.width, fb.height;
      if output.modeInfo.Some? {
        if specified {
          var bounds := ModeGeometry(output.modeInfo.value, output.rotation, output.transform.matrix);
          var x, y := output.x + bounds.x1, output.y + bounds.y1;
          var w, h := bounds.x2 - bounds.x1, bounds.y2 - bounds.y1;
          if x + w > fb.width || y + h > fb.height {
            warned := true;
          }
        } else {
          GrowFor(output, crtcs, fb);
        }
      }
      if !specified {
        LeastWidthStep(outs, crtcs, k, old(fb.width), w0, fb.width);
        LeastHeightStep(outs, crtcs, k, old(fb.height), h0, fb.height);
      }
      k := k + 1;
    }
  }

  /**
   Sets the framebuffer size. An unset size (either number 0) grows from what was there to the least
   one that covers every enabled output and panning area and the server minimum; a size asked for is
   kept, with a warning exactly when some output does not fit. The server maximum is enforced
   before the minimum is.
   */
  method SetScreenSize(outs: seq<Output>, crtcs: seq<Crtc>, fb: Framebuffer, limits: Limits) returns (r: SizeResult)
    requires CrtcsKnown(outs, crtcs)
    modifies fb
    ensures old(fb.width != 0 && fb.height != 0) ==>
      && fb.width == old(fb.width) && fb.height == old(fb.height)
      && (r == TooLarge <==> fb.width > limits.maxWidth || fb.height > limits.maxHeight)
      && (r == TooSmall <==> r != TooLarge && (fb.width < limits.minWidth || fb.height < limits.minHeight))
      && (r.SizeSet? ==> (r.warned <==> !AllFit(outs, |outs|, fb.width, fb.height)))
    ensures old(fb.width == 0 || fb.height == 0) ==>
      && (r == TooLarge <==>
            !(&& old(fb.width) <= limits.maxWidth && WidthCovers(outs, crtcs, |outs|, limits.maxWidth)
              && old(fb.height) <= limits.maxHeight && HeightCovers(outs, crtcs, |outs|, limits.maxHeight)))
      && (r != TooLarge ==>
            && r == SizeSet(false)
            && LeastWidth(outs, crtcs, |outs|, Max(old(fb.width), limits.minWidth), fb.width)
            && LeastHeight(outs, crtcs, |outs|, Max(old(fb.height), limits.minHeight), fb.height))
    ensures old(fb.width == 0 || fb.height == 0) && r.SizeSet? ==> ShowsPanning(outs, crtcs, fb.width, fb.height)
    ensures r.SizeSet? ==> fb.width >= limits.minWidth && fb.height >= limits.minHeight
    ensures r == SizeSet(false) ==> AllFit(outs, |outs|, fb.width, fb.height)
    ensures !r.SizeSet? ==> Refused(outs, crtcs, old(fb.width), old(fb.height), limits, r)
  {
    var specified := fb.width != 0 && fb.height != 0;
    var warned := FitOutputs(outs, crtcs, fb, specified);
    if !specified {
      RaiseWidth(outs, crtcs, old(fb.width), fb.width, limits.maxWidth);
      RaiseHeight(outs, crtcs, old(fb.height), fb.height, limits.maxHeight);
    }
    if fb.width > limits.maxWidth || fb.height > limits.maxHeight {
      return TooLarge;
    }
    if specified {
      if fb.width < limits.minWidth || fb.height < limits.minHeight {
        return TooSmall;
      }
    } else {
      RaiseToMinimum(outs, crtcs, fb, limits, old(fb.width), old(fb.height));
      CoversPanning(outs, crtcs, fb.width, fb.height);
    }
    r := SizeSet(warned);
  }

  /** The screen reaches as far as every panning area: a new one of an output that is on, or that of its CRTC. */
  ghost predicate ShowsPanning(outs: seq<Output>, crtcs: seq<Crtc>, width: int, height: int)
    reads outs, crtcs
  {
    && (forall o :: o in outs && o.modeInfo.Some? && ChangedPanning in o.changes ==>
          o.panning.left + o.panning.width <= width && o.panning.top + o.panning.height <= height)
    && (forall o, c {:trigger o in outs, crtcs[c]} :: o in outs && 0 <= c < |crtcs| ==>
          (o.modeInfo.Some? && ChangedPanning !in o.changes && o.crtcInfo == Some(c) && crtcs[c].panning.Some? ==>
             var area := crtcs[c].panning.value;
             area.left + area.width <= width && area.top + area.height <= height))
  }

  lemma {:induction false} CoversPanning(outs: seq<Output>, crtcs: seq<Crtc>, width: int, height: int)
    requires CrtcsKnown(outs, crtcs)
    requires WidthCovers(outs, crtcs, |outs|, width) && HeightCovers(outs, crtcs, |outs|, height)
    ensures ShowsPanning(outs, crtcs, width, height)
  {
    forall o | o in outs ensures WideEnough(o, crtcs, width) && HighEnough(o, crtcs, height) {
      var k :| 0 <= k < |outs| && outs[k] == o;
    }
  }

  /** Why a size is refused, in terms of the size the program started from. */
  ghost predicate Refused(outs: seq<Output>, crtcs: seq<Crtc>, width: int, height: int, limits: Limits, r: SizeResult)
    reads outs, crtcs
  {
    && CrtcsKnown(outs, crtcs)
    && if width != 0 && height != 0 then
         || (r == TooLarge && (width > limits.maxWidth || height > limits.maxHeight))
         || (r == TooSmall && (width < limits.minWidth || height < limits.minHeight))
       else
         && r == TooLarge
         && !(&& width <= limits.maxWidth && WidthCovers(outs, crtcs, |outs|, limits.maxWidth)
              && height <= limits.maxHeight && HeightCovers(outs, crtcs, |outs|, limits.maxHeight))
  }

  method RaiseToMinimum(outs: seq<Output>, crtcs: seq<Crtc>, fb: Framebuffer, limits: Limits, ghost w0: int,
                        ghost h0: int)
    requires CrtcsKnown(outs, crtcs)
    requires LeastWidth(outs, crtcs, |outs|, w0, fb.width) && LeastHeight(outs, crtcs, |outs|, h0, fb.height)
    modifies fb
    ensures LeastWidth(outs, crtcs, |outs|, Max(w0, limits.minWidth), fb.width)
    ensures LeastHeight(outs, crtcs, |outs|, Max(h0, limits.minHeight), fb.height)
    ensures AllFit(outs, |outs|, fb.width, fb.height)
  {
    RaiseWidth(outs, crtcs, w0, fb.width, limits.minWidth);
    RaiseHeight(outs, crtcs, h0, fb.height, limits.minHeight);
    if fb.width < limits.minWidth { fb.width := limits.minWidth; }
    if fb.height < limits.minHeight { fb.height := limits.minHeight; }
    forall k | 0 <= k < |outs| ensures FitsScreen(outs[k], fb.width, fb.height) {
      assert WideEnough(outs[k], crtcs, fb.width) && HighEnough(outs[k], crtcs, fb.height);
    }
  }

  function Max(a: int, b: int): (m: int)
    ensures m >= a && m >= b && (m == a || m == b)
  {
    if a < b then b else a
  }

  lemma RaiseWidth(outs: seq<Output>, crtcs: seq<Crtc>, start: int, size: int, least: int)
    requires CrtcsKnown(outs, crtcs) && LeastWidth(outs, crtcs, |outs|, start, size)
    ensures LeastWidth(outs, crtcs, |outs|, Max(start, least), Max(size, least))
    ensures forall w :: size <= w ==> WidthCovers(outs, crtcs, |outs|, w)
  {
    forall w | size <= w ensures WidthCovers(outs, crtcs, |outs|, w) {
      forall k | 0 <= k < |outs| ensures WideEnough(outs[k], crtcs, w) {
        assert WideEnough(outs[k], crtcs, size);
      }
    }
  }

  lemma RaiseHeight(outs: seq<Output>, crtcs: seq<Crtc>, start: int, size: int, least: int)
    requires CrtcsKnown(outs, crtcs) && LeastHeight(outs, crtcs, |outs|, start, size)
    ensures LeastHeight(outs, crtcs, |outs|, Max(start, least), Max(size, least))
    ensures forall h :: size <= h ==> HeightCovers(outs, crtcs, |outs|, h)
  {
    forall h | size <= h ensures HeightCovers(outs, crtcs, |outs|, h) {
      forall k | 0 <= k < |outs| ensures HighEnough(outs[k], crtcs, h) {
        assert HighEnough(outs[k], crtcs, size);
      }
    }
  }
}
