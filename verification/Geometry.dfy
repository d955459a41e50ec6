/**
 The box a transformed mode occupies on the screen. Coordinates are real numbers here:
 the rounding of double arithmetic is not modelled, the truncation to integers is.
 */
module Geometry {
  import opened RandR

  datatype Point = Point(x: real, y: real)
  datatype Box = Box(x1: int, y1: int, x2: int, y2: int)

  function ModeWidth(mode: Mode, rotation: Rotation): nat {
    match rotation.direction
    case Rotate0 | Rotate180 => mode.width
    case Rotate90 | Rotate270 => mode.height
    case NoSingleTurn => 0
  }

  function ModeHeight(mode: Mode, rotation: Rotation): nat {
    match rotation.direction
    case Rotate0 | Rotate180 => mode.height
    case Rotate90 | Rotate270 => mode.width
    case NoSingleTurn => 0
  }

  // ----- what a turned mode covers -----

  /** Where column `i` and row `j` of a mode are shown after the turn; mirroring exchanges pixels on the spot. */
  function TurnedPixel(mode: Mode, direction: Direction, i: int, j: int): (int, int)
    requires direction != NoSingleTurn
  {
    match direction
    case Rotate0 => (i, j)
    case Rotate90 => (j, mode.width - 1 - i)
    case Rotate180 => (mode.width - 1 - i, mode.height - 1 - j)
    case Rotate270 => (mode.height - 1 - j, i)
  }

  predicate PixelOf(mode: Mode, i: int, j: int) { 0 <= i < mode.width && 0 <= j < mode.height }

  /** Some pixel of the mode is shown here, as seen from the top left of the output. */
  ghost predicate ShownAt(mode: Mode, rotation: Rotation, x: int, y: int) {
    rotation.direction != NoSingleTurn
    && exists i, j :: PixelOf(mode, i, j) && TurnedPixel(mode, rotation.direction, i, j) == (x, y)
  }

  /** The pixels of a turned mode fill exactly a rectangle of its width and height. */
  lemma {:induction false} TurnedFills(mode: Mode, rotation: Rotation, x: int, y: int)
    ensures ShownAt(mode, rotation, x, y) <==> 0 <= x < ModeWidth(mode, rotation) && 0 <= y < ModeHeight(mode, rotation)
  {
    if 0 <= x < ModeWidth(mode, rotation) && 0 <= y < ModeHeight(mode, rotation) {
      var w, h := mode.width - 1, mode.height - 1;
      var (i, j) :=
        match rotation.direction
        case Rotate0 => (x, y)
        case Rotate90 => (w - y, x)
        case Rotate180 => (w - x, h - y)
        case Rotate270 => (y, h - x);
      assert PixelOf(mode, i, j) && TurnedPixel(mode, rotation.direction, i, j) == (x, y);
    }
  }

  // ----- transforms -----

  function Fixed(v: int): real { v as real / 65536.0 }

  /** One matrix row as an affine form; rows 0 and 1 over row 2 give the image of a point. */
  datatype Form = Form(kx: real, ky: real, k: real)

  function At(f: Form, p: Point): real { f.kx * p.x + f.ky * p.y + f.k }

  function Row(a: int, b: int, c: int): Form { Form(Fixed(a), Fixed(b), Fixed(c)) }
  function AcrossRow(m: Matrix): Form { Row(m.m00, m.m01, m.m02) }
  function DownRow(m: Matrix): Form { Row(m.m10, m.m11, m.m12) }
  function DepthRow(m: Matrix): Form { Row(m.m20, m.m21, m.m22) }

  predicate InRange(v: real) { -32767.0 <= v <= 32767.0 }

  /** The image of a point, unless it is at infinity or out of the protocol's range. */
  function TransformPoint(m: Matrix, p: Point): Option<Point> {
    var d := At(DepthRow(m), p);
    if d == 0.0 then None
    else
      var q := Point(At(AcrossRow(m), p) / d, At(DownRow(m), p) / d);
      if InRange(q.x) && InRange(q.y) then Some(q) else None
  }

  /** The image is the point that the matrix, applied to the point at depth 1, gives up to depth. */
  lemma {:induction false} ImageSolves(m: Matrix, p: Point, q: Point)
    ensures TransformPoint(m, p) == Some(q) <==>
      var d := m.m20 as real * p.x + m.m21 as real * p.y + m.m22 as real;
      && d != 0.0 && -32767.0 <= q.x <= 32767.0 && -32767.0 <= q.y <= 32767.0
      && m.m00 as real * p.x + m.m01 as real * p.y + m.m02 as real == q.x * d
      && m.m10 as real * p.x + m.m11 as real * p.y + m.m12 as real == q.y * d
  {
    var d := m.m20 as real * p.x + m.m21 as real * p.y + m.m22 as real;
    ScaledAt(m.m00, m.m01, m.m02, p);
    ScaledAt(m.m10, m.m11, m.m12, p);
    ScaledAt(m.m20, m.m21, m.m22, p);
    if d != 0.0 {
      QuotientSolves(At(AcrossRow(m), p), At(DepthRow(m), p), q.x, d);
      QuotientSolves(At(DownRow(m), p), At(DepthRow(m), p), q.y, d);
    }
  }

  lemma {:induction false} ScaledAt(a: int, b: int, c: int, p: Point)
    ensures 65536.0 * At(Row(a, b, c), p) == a as real * p.x + b as real * p.y + c as real
  {
    var u, v, w := Fixed(a), Fixed(b), Fixed(c);
    assert 65536.0 * u == a as real && 65536.0 * v == b as real && 65536.0 * w == c as real;
    ScaledProduct(u, p.x);
    ScaledProduct(v, p.y);
  }

  lemma {:induction false} ScaledProduct(u: real, x: real)
    ensures 65536.0 * (u * x) == (65536.0 * u) * x
  {}

  lemma {:induction false} QuotientSolves(n: real, e: real, q: real, d: real)
    requires d == 65536.0 * e && d != 0.0
    ensures n / e == q <==> 65536.0 * n == q * d
  {
    var t := n / e;
    assert t * e == n;
    assert q * d == 65536.0 * (q * e) by { ScaledProduct(e, q); }
    if q * e == n { SameFactor(t, q, e); }
  }

  lemma {:induction false} SameFactor(t: real, q: real, e: real)
    requires t * e == q * e && e != 0.0
    ensures t == q
  {
    assert (t - q) * e == 0.0;
  }

  /** The transform that does nothing gives the mode's own rectangle, however large. */
  lemma {:induction false} IdentityBox(mode: Mode, rotation: Rotation)
    ensures ModeBounds(mode, rotation, IDENTITY.matrix)
         == Box(0, 0, ModeWidth(mode, rotation), ModeHeight(mode, rotation))
  {
    var cs, m := Corners(mode, rotation), IDENTITY.matrix;
    forall p | p in cs ensures Landing(m, p) == p { IdentityLands(p); }
    StillBounds(m, ModeWidth(mode, rotation), ModeHeight(mode, rotation));
    BoundsAreLeast(m, cs);
    BoundsUnique(m, cs, Box(0, 0, ModeWidth(mode, rotation), ModeHeight(mode, rotation)), BoundsOf(m, cs));
  }

  lemma {:induction false} StillBounds(m: Matrix, w: nat, h: nat)
    requires forall p :: p in Rectangle(w as real, h as real) ==> Landing(m, p) == p
    ensures IsBoundsOf(m, Rectangle(w as real, h as real), Box(0, 0, w, h))
  {
    var cs := Rectangle(w as real, h as real);
    forall other: Box | forall p :: p in cs ==> Covers(other, Landing(m, p)) ensures Inside(Box(0, 0, w, h), other) {
      assert cs[0] in cs && cs[2] in cs;
      CoversBoth(other, w, h);
    }
    forall p | p in cs ensures Covers(Box(0, 0, w, h), Landing(m, p)) {
      assert p == cs[0] || p == cs[1] || p == cs[2] || p == cs[3];
    }
  }

  lemma {:induction false} CoversBoth(box: Box, w: nat, h: nat)
    requires Covers(box, Point(0.0, 0.0)) && Covers(box, Point(w as real, h as real))
    ensures Inside(Box(0, 0, w, h), box)
  {}

  lemma {:induction false} IdentityLands(p: Point)
    ensures Landing(IDENTITY.matrix, p) == p
  {
    var q := TransformPoint(IDENTITY.matrix, p);
    if q.Some? { ImageSolves(IDENTITY.matrix, p, q.value); }
  }

  /** Where a corner lands: a corner without an image stays where it was. */
  function Landing(m: Matrix, p: Point): Point {
    match TransformPoint(m, p)
    case Some(q) => q
    case None => p
  }

  function Ceiling(v: real): int { -((-v).Floor) }

  function PointBox(q: Point): Box {
    Box(q.x.Floor, q.y.Floor, Ceiling(q.x), Ceiling(q.y))
  }

  ghost predicate Covers(box: Box, q: Point) {
    box.x1 as real <= q.x <= box.x2 as real && box.y1 as real <= q.y <= box.y2 as real
  }

  ghost predicate Inside(inner: Box, outer: Box) {
    outer.x1 <= inner.x1 && outer.y1 <= inner.y1 && inner.x2 <= outer.x2 && inner.y2 <= outer.y2
  }

  /** The smallest integer box around where the given points land. */
  ghost predicate IsBoundsOf(m: Matrix, points: seq<Point>, box: Box) {
    && (forall p :: p in points ==> Covers(box, Landing(m, p)))
    && (forall other: Box :: (forall p :: p in points ==> Covers(other, Landing(m, p))) ==> Inside(box, other))
  }

  lemma BoundsUnique(m: Matrix, points: seq<Point>, a: Box, b: Box)
    requires IsBoundsOf(m, points, a) && IsBoundsOf(m, points, b)
    ensures a == b
  {
    assert Inside(a, b) && Inside(b, a);
  }

  function Lower(a: int, b: int): int { if b < a then b else a }
  function Upper(a: int, b: int): int { if b > a then b else a }

  function Join(a: Box, b: Box): Box {
    Box(Lower(a.x1, b.x1), Lower(a.y1, b.y1), Upper(a.x2, b.x2), Upper(a.y2, b.y2))
  }

  function BoundsOf(m: Matrix, points: seq<Point>): Box
    requires points != []
  {
    var last := PointBox(Landing(m, points[|points| - 1]));
    if |points| == 1 then last else Join(BoundsOf(m, points[..|points| - 1]), last)
  }

  lemma {:induction false} BoundsAreLeast(m: Matrix, points: seq<Point>)
    requires points != []
    ensures IsBoundsOf(m, points, BoundsOf(m, points))
  {
    var box, n := BoundsOf(m, points), |points| - 1;
    var last := Landing(m, points[n]);
    assert points == points[..n] + [points[n]];
    if n > 0 {
      BoundsAreLeast(m, points[..n]);
      forall other: Box | forall p :: p in points ==> Covers(other, Landing(m, p))
        ensures Inside(box, other)
      {
        assert forall p :: p in points[..n] ==> p in points;
        assert Inside(BoundsOf(m, points[..n]), other);
        assert Covers(other, last);
      }
    }
  }

  method PathBounds(m: Matrix, points: seq<Point>) returns (box: Box)
    requires points != []
    ensures box == BoundsOf(m, points)
  {
    box := PointBox(Landing(m, points[0]));
    var i := 1;
    while i < |points|
      invariant 1 <= i <= |points|
      invariant box == BoundsOf(m, points[..i])
    {
      var point := PointBox(Landing(m, points[i]));
      assert points[..i + 1][..i] == points[..i];
      if point.x1 < box.x1 { box := box.(x1 := point.x1); }
      if point.y1 < box.y1 { box := box.(y1 := point.y1); }
      if point.x2 > box.x2 { box := box.(x2 := point.x2); }
      if point.y2 > box.y2 { box := box.(y2 := point.y2); }
      i := i + 1;
    }
    assert points[..i] == points;
  }

  function Rectangle(w: real, h: real): seq<Point> {
    [Point(0.0, 0.0), Point(w, 0.0), Point(w, h), Point(0.0, h)]
  }

  function Corners(mode: Mode, rotation: Rotation): seq<Point> {
    Rectangle(ModeWidth(mode, rotation) as real, ModeHeight(mode, rotation) as real)
  }

  function ModeBounds(mode: Mode, rotation: Rotation, m: Matrix): Box {
    BoundsOf(m, Corners(mode, rotation))
  }

  method ModeGeometry(mode: Mode, rotation: Rotation, m: Matrix) returns (box: Box)
    ensures box == ModeBounds(mode, rotation, m)
    ensures IsBoundsOf(m, Corners(mode, rotation), box)
  {
    box := PathBounds(m, Corners(mode, rotation));
    BoundsAreLeast(m, Corners(mode, rotation));
  }

  lemma MulOrder(k: real, u: real, v: real)
    requires k >= 0.0 && u <= v
    ensures k * u <= k * v
  {}

  lemma MulStrict(k: real, u: real, v: real)
    requires k > 0.0 && u < v
    ensures k * u < k * v
  {}

  /** A linear term on an interval is at most its value at one of the two ends. */
  lemma EndsBound(k: real, u: real, w: real)
    requires 0.0 <= u <= w
    ensures k * u <= k * w || k * u <= 0.0
  {
    if k >= 0.0 {
      MulOrder(k, u, w);
    } else {
      MulOrder(-k, 0.0, u);
    }
  }

  lemma CornersBoundSum(a: real, b: real, k: real, w: real, h: real, x: real, y: real, v: real)
    requires 0.0 <= x <= w && 0.0 <= y <= h
    requires k <= v && a * w + k <= v && a * w + b * h + k <= v && b * h + k <= v
    ensures a * x + b * y + k <= v
  {
    EndsBound(a, x, w);
    EndsBound(b, y, h);
    var ax, byy, aw, bh := a * x, b * y, a * w, b * h;
    assert (ax <= aw || ax <= 0.0) && (byy <= bh || byy <= 0.0);
    assert ax + byy + k <= v;
  }

  /** An affine form on a rectangle stays at or below what it reaches at the corners. */
  lemma CornersBoundForm(f: Form, w: real, h: real, p: Point, v: real)
    requires 0.0 <= p.x <= w && 0.0 <= p.y <= h
    requires forall q :: q in Rectangle(w, h) ==> At(f, q) <= v
    ensures At(f, p) <= v
  {
    var cs := Rectangle(w, h);
    assert cs[0] in cs && cs[1] in cs && cs[2] in cs && cs[3] in cs;
    assert At(f, cs[0]) == f.k && At(f, cs[1]) == f.kx * w + f.k;
    assert At(f, cs[2]) == f.kx * w + f.ky * h + f.k && At(f, cs[3]) == f.ky * h + f.k;
    CornersBoundSum(f.kx, f.ky, f.k, w, h, p.x, p.y, v);
  }

  /** `f - edge * g`: at most 0 exactly where a positive `g` leaves `f / g` at most `edge`. */
  function Minus(f: Form, edge: real, g: Form): Form {
    Form(f.kx - edge * g.kx, f.ky - edge * g.ky, f.k - edge * g.k)
  }

  function Negated(f: Form): Form { Form(-f.kx, -f.ky, -f.k) }

  lemma MinusAt(f: Form, edge: real, g: Form, p: Point)
    ensures At(Minus(f, edge, g), p) == At(f, p) - edge * At(g, p)
  {}

  lemma NegatedAt(f: Form, p: Point)
    ensures At(Negated(f), p) == -At(f, p)
  {}

  lemma ProductAtMost(n: real, d: real, q: real, edge: real)
    requires d > 0.0 && d * q == n
    ensures q <= edge <==> n - edge * d <= 0.0
  {
    if q <= edge {
      MulOrder(d, q, edge);
    } else {
      MulStrict(d, edge, q);
      assert d * edge < n;
    }
  }

  lemma QuotientAtMost(n: real, d: real, edge: real)
    requires d > 0.0
    ensures n / d <= edge <==> n - edge * d <= 0.0
  {
    assert d * (n / d) == n;
    ProductAtMost(n, d, n / d, edge);
  }

  lemma QuotientNegated(n: real, d: real)
    requires d != 0.0
    ensures (-n) / (-d) == n / d && (-n) / d == -(n / d)
  {
    assert (n / d) * d == n;
    assert (-(n / d)) * d == -n;
    assert (n / d) * (-d) == -n;
  }

  lemma FractionAtMost(f: Form, g: Form, w: real, h: real, edge: real, p: Point)
    requires 0.0 <= p.x <= w && 0.0 <= p.y <= h
    requires forall q :: q in Rectangle(w, h) ==> At(g, q) > 0.0 && At(f, q) / At(g, q) <= edge
    requires At(g, p) > 0.0
    ensures At(f, p) / At(g, p) <= edge
  {
    forall q | q in Rectangle(w, h) ensures At(Minus(f, edge, g), q) <= 0.0 {
      MinusAt(f, edge, g, q);
      QuotientAtMost(At(f, q), At(g, q), edge);
    }
    CornersBoundForm(Minus(f, edge, g), w, h, p, 0.0);
    FractionFromMinus(f, g, edge, p);
  }

  lemma FractionFromMinus(f: Form, g: Form, edge: real, p: Point)
    requires At(g, p) > 0.0 && At(Minus(f, edge, g), p) <= 0.0
    ensures At(f, p) / At(g, p) <= edge
  {
    MinusAt(f, edge, g, p);
    var n, d := At(f, p), At(g, p);
    QuotientAtMost(n, d, edge);
  }

  lemma PositiveInside(g: Form, w: real, h: real, p: Point)
    requires 0.0 <= p.x <= w && 0.0 <= p.y <= h
    requires forall q :: q in Rectangle(w, h) ==> At(g, q) > 0.0
    ensures At(g, p) > 0.0
  {
    var cs, n := Rectangle(w, h), Negated(g);
    var lowest := if At(g, cs[0]) <= At(g, cs[1]) then At(g, cs[0]) else At(g, cs[1]);
    lowest := if lowest <= At(g, cs[2]) then lowest else At(g, cs[2]);
    lowest := if lowest <= At(g, cs[3]) then lowest else At(g, cs[3]);
    assert cs[0] in cs && cs[1] in cs && cs[2] in cs && cs[3] in cs;
    forall q | q in cs ensures At(n, q) <= -lowest {
      NegatedAt(g, q);
    }
    CornersBoundForm(n, w, h, p, -lowest);
    NegatedAt(g, p);
  }

  /** A quotient of forms stays, inside the rectangle, between the bounds its corners respect. */
  lemma FractionWithin(f: Form, g: Form, w: real, h: real, low: real, high: real, p: Point)
    requires 0.0 <= p.x <= w && 0.0 <= p.y <= h
    requires forall q :: q in Rectangle(w, h) ==> At(g, q) > 0.0 && low <= At(f, q) / At(g, q) <= high
    ensures At(g, p) > 0.0 && low <= At(f, p) / At(g, p) <= high
  {
    PositiveInside(g, w, h, p);
    FractionAtMost(f, g, w, h, high, p);
    var n := Negated(f);
    forall q | q in Rectangle(w, h) ensures At(n, q) / At(g, q) <= -low {
      NegatedAt(f, q);
      QuotientNegated(At(f, q), At(g, q));
    }
    FractionAtMost(n, g, w, h, -low, p);
    NegatedAt(f, p);
    QuotientNegated(At(f, p), At(g, p));
  }

  /** Every corner has an image, and they all lie on one side of the horizon. */
  ghost predicate CornersInRange(m: Matrix, corners: seq<Point>) {
    && (forall q :: q in corners ==> TransformPoint(m, q).Some?)
    && ((forall q :: q in corners ==> At(DepthRow(m), q) > 0.0)
        || (forall q :: q in corners ==> At(DepthRow(m), q) < 0.0))
  }

  lemma RowWithin(f: Form, m: Matrix, w: real, h: real, low: real, high: real, p: Point)
    requires 0.0 <= p.x <= w && 0.0 <= p.y <= h
    requires CornersInRange(m, Rectangle(w, h))
    requires forall q :: q in Rectangle(w, h) ==>
      At(DepthRow(m), q) != 0.0 && low <= At(f, q) / At(DepthRow(m), q) <= high
    ensures At(DepthRow(m), p) != 0.0 && low <= At(f, p) / At(DepthRow(m), p) <= high
  {
    var g := DepthRow(m);
    if forall q :: q in Rectangle(w, h) ==> At(g, q) > 0.0 {
      FractionWithin(f, g, w, h, low, high, p);
    } else {
      forall q | q in Rectangle(w, h) + [p]
        ensures At(Negated(g), q) == -At(g, q)
        ensures At(g, q) != 0.0 ==> At(Negated(f), q) / At(Negated(g), q) == At(f, q) / At(g, q)
      {
        NegatedAt(f, q);
        NegatedAt(g, q);
        if At(g, q) != 0.0 { QuotientNegated(At(f, q), At(g, q)); }
      }
      FractionWithin(Negated(f), Negated(g), w, h, low, high, p);
      assert p in Rectangle(w, h) + [p];
    }
  }

  /**
   The box computed from four corners contains the image of every point of the rotated mode
   rectangle, for every transform (projective ones too) that keeps the corners in range and on
   one side.
   */
  lemma BoxContainsImage(mode: Mode, rotation: Rotation, m: Matrix, p: Point)
    requires CornersInRange(m, Corners(mode, rotation))
    requires 0.0 <= p.x <= ModeWidth(mode, rotation) as real
    requires 0.0 <= p.y <= ModeHeight(mode, rotation) as real
    ensures TransformPoint(m, p).Some?
    ensures Covers(ModeBounds(mode, rotation, m), TransformPoint(m, p).value)
  {
    var w, h := ModeWidth(mode, rotation) as real, ModeHeight(mode, rotation) as real;
    var cs, box := Corners(mode, rotation), ModeBounds(mode, rotation, m);
    BoundsAreLeast(m, cs);
    forall q | q in cs
      ensures TransformPoint(m, q).Some? && Covers(box, TransformPoint(m, q).value)
    {
      assert Covers(box, Landing(m, q));
    }
    RowWithin(AcrossRow(m), m, w, h, box.x1 as real, box.x2 as real, p);
    RowWithin(DownRow(m), m, w, h, box.y1 as real, box.y2 as real, p);
    RowWithin(AcrossRow(m), m, w, h, -32767.0, 32767.0, p);
    RowWithin(DownRow(m), m, w, h, -32767.0, 32767.0, p);
  }

  /** An affine transform has one depth everywhere, so only the range of the corners matters. */
  lemma AffineBoxContainsImage(mode: Mode, rotation: Rotation, m: Matrix, p: Point)
    requires m.m20 == 0 && m.m21 == 0
    requires forall q :: q in Corners(mode, rotation) ==> TransformPoint(m, q).Some?
    requires 0.0 <= p.x <= ModeWidth(mode, rotation) as real
    requires 0.0 <= p.y <= ModeHeight(mode, rotation) as real
    ensures TransformPoint(m, p).Some?
    ensures Covers(ModeBounds(mode, rotation, m), TransformPoint(m, p).value)
  {
    var cs := Corners(mode, rotation);
    assert cs[0] in cs;
    forall q | q in cs ensures At(DepthRow(m), q) == Fixed(m.m22) {}
    BoxContainsImage(mode, rotation, m, p);
  }
}
