/** `set_positions`: places related outputs, then moves everything so that the top left is 0,0. */
module SetPositions {
  import opened RandR
  import opened Geometry
  import opened Records
  import opened Placement
  import opened PinnedPlacement
  import opened PinnedCycles

  datatype Result = Positioned | Loop | UnknownOutput | OutOfSweeps

  function NodeOf(outs: seq<Output>, o: Output): Node
    reads o`changes, o`modeInfo, o`rotation, o`relation, o`relativeTo
  {
    var t := FindByName(outs, o.relativeTo);
    Node(o.modeInfo.Some?, ChangedRelation in o.changes,
         if t < |outs| then Some(t) else None, o.relation,
         if o.modeInfo.Some? then ModeWidth(o.modeInfo.value, o.rotation) else 0,
         if o.modeInfo.Some? then ModeHeight(o.modeInfo.value, o.rotation) else 0)
  }

  function SpotOf(o: Output): Spot
    reads o`x, o`y, o`changes
  {
    Spot(o.x, o.y, ChangedPosition in o.changes)
  }

  ghost function Graph(outs: seq<Output>): (g: seq<Node>)
    reads outs
    ensures |g| == |outs| && Valid(g)
    ensures forall k {:trigger g[k]} :: 0 <= k < |g| ==> g[k] == NodeOf(outs, outs[k])
  {
    seq(|outs|, k requires 0 <= k < |outs| reads outs => NodeOf(outs, outs[k]))
  }

  ghost function Spots(outs: seq<Output>): (s: seq<Spot>)
    reads outs
    ensures |s| == |outs|
    ensures forall k {:trigger s[k]} :: 0 <= k < |s| ==> s[k] == SpotOf(outs[k])
  {
    seq(|outs|, k requires 0 <= k < |outs| reads outs => SpotOf(outs[k]))
  }

  /** The list currently shows the graph `g` with the outputs at `spots`. */
  ghost predicate Shows(outs: seq<Output>, g: seq<Node>, spots: seq<Spot>)
    reads outs
  {
    && |g| == |outs| && |spots| == |outs| && Valid(g)
    && (forall k {:trigger g[k]} :: 0 <= k < |outs| ==> NodeOf(outs, outs[k]) == g[k])
    && (forall k {:trigger spots[k]} :: 0 <= k < |outs| ==> SpotOf(outs[k]) == spots[k])
  }

  /** The fields the placement writes, as they were at some earlier time. */
  datatype Tag = Tag(changes: set<Change>, x: int, y: int)

  ghost function Tags(outs: seq<Output>): (tags: seq<Tag>)
    reads outs
    ensures |tags| == |outs|
    ensures forall k :: 0 <= k < |outs| ==> tags[k] == Tag(outs[k].changes, outs[k].x, outs[k].y)
  {
    seq(|outs|, k requires 0 <= k < |outs| reads outs => Tag(outs[k].changes, outs[k].x, outs[k].y))
  }

  /** Since `was`, only positions changed; outputs that moved are flagged, and of the others only related ones. */
  ghost predicate OnlyMoved(o: Output, was: Tag)
    reads o`changes, o`x, o`y
  {
    && was.changes <= o.changes <= was.changes + {ChangedPosition}
    && (ChangedPosition !in o.changes ==> o.x == was.x && o.y == was.y)
    && (o.changes != was.changes ==> ChangedRelation in was.changes || o.x != was.x || o.y != was.y)
  }

  ghost predicate AllOnlyMoved(outs: seq<Output>, was: seq<Tag>)
    reads outs`changes, outs`x, outs`y
  {
    |was| == |outs| && forall k :: 0 <= k < |outs| ==> OnlyMoved(outs[k], was[k])
  }

  /** Since `was`, only outputs with a relation were flagged, and those that moved are. */
  ghost predicate OnlyPlaced(o: Output, was: Tag)
    reads o`changes, o`x, o`y
  {
    OnlyMoved(o, was) && (ChangedRelation !in was.changes ==> o.changes == was.changes)
  }

  ghost predicate AllOnlyPlaced(outs: seq<Output>, was: seq<Tag>)
    reads outs`changes, outs`x, outs`y
  {
    |was| == |outs| && forall k {:trigger was[k]} {:trigger outs[k]} :: 0 <= k < |outs| ==> OnlyPlaced(outs[k], was[k])
  }

  /** The spot one visit gives an output that can be placed. */
  method PlaceOutput(output: Output, relation: Output, ghost outs: seq<Output>) returns (spot: Spot)
    requires output.modeInfo.Some? && relation.modeInfo.Some?
    ensures spot == Beside(NodeOf(outs, output), NodeOf(outs, relation), SpotOf(relation))
  {
    match output.relation {
      case LeftOf =>
        spot := Spot(relation.x - ModeWidth(output.modeInfo.value, output.rotation), relation.y, true);
      case RightOf =>
        spot := Spot(relation.x + ModeWidth(relation.modeInfo.value, relation.rotation), relation.y, true);
      case Above =>
        spot := Spot(relation.x, relation.y - ModeHeight(output.modeInfo.value, output.rotation), true);
      case Below =>
        spot := Spot(relation.x, relation.y + ModeHeight(relation.modeInfo.value, relation.rotation), true);
      case SameAs =>
        spot := Spot(relation.x, relation.y, true);
    }
  }

  method MoveOutput(outs: seq<Output>, k: nat, output: Output, spot: Spot,
                    ghost g: seq<Node>, ghost spots: seq<Spot>, ghost was: seq<Tag>)
    requires DistinctOutputs(outs) && k < |outs| && output == outs[k] && spot.placed
    requires Shows(outs, g, spots) && AllOnlyPlaced(outs, was) && ChangedRelation in output.changes
    modifies output`x, output`y, output`changes
    ensures Shows(outs, g, spots[k := spot])
    ensures AllOnlyPlaced(outs, was)
  {
    output.x, output.y := spot.x, spot.y;
    output.changes := output.changes + {ChangedPosition};
    assert SpotOf(output) == spot;
    assert OnlyPlaced(output, was[k]);
    assert NodeOf(outs, output) == old(NodeOf(outs, output));
    forall j | 0 <= j < |outs| && j != k
      ensures SpotOf(outs[j]) == spots[j] && NodeOf(outs, outs[j]) == g[j] && OnlyPlaced(outs[j], was[j])
    {
      assert outs[j] != output;
      assert old(OnlyPlaced(outs[j], was[j]));
      assert SpotOf(outs[j]) == old(SpotOf(outs[j]));
      assert NodeOf(outs, outs[j]) == old(NodeOf(outs, outs[j]));
    }
  }

  method VisitOutput(outs: seq<Output>, k: nat, output: Output, keepGoing: bool, anySet: bool,
                     ghost g: seq<Node>, ghost spots: seq<Spot>, ghost was: seq<Tag>)
    returns (missing: bool, keepGoing': bool, anySet': bool)
    requires DistinctOutputs(outs) && k < |outs| && output == outs[k]
    requires Shows(outs, g, spots) && AllOnlyPlaced(outs, was)
    modifies output`x, output`y, output`changes
    ensures missing <==> Visit(g, Sweep(spots, keepGoing, anySet), k).Missing?
    ensures !missing ==>
      var s := Visit(g, Sweep(spots, keepGoing, anySet), k);
      Shows(outs, g, s.spots) && s.keepGoing == keepGoing' && s.anySet == anySet'
    ensures AllOnlyPlaced(outs, was)
  {
    missing, keepGoing', anySet' := false, keepGoing, anySet;
    assert NodeOf(outs, outs[k]) == g[k];
    if ChangedRelation !in output.changes || output.modeInfo.None? {
      return;
    }
    var t := FindByName(outs, output.relativeTo);
    if t == |outs| {
      missing := true;
      return;
    }
    var relation := outs[t];
    assert NodeOf(outs, outs[t]) == g[t] && SpotOf(relation) == spots[t];
    var spot := Spot(0, 0, true);
    if relation.modeInfo.Some? {
      if ChangedRelation in relation.changes && ChangedPosition !in relation.changes {
        keepGoing' := true;
        return;
      }
      spot := PlaceOutput(output, relation, outs);
    }
    MoveOutput(outs, k, output, spot, g, spots, was);
    anySet' := true;
  }

  /** The first `k` visits of a sweep have been made, with `s` as their result. */
  ghost predicate Swept(outs: seq<Output>, g: seq<Node>, spots: seq<Spot>, k: nat, s: Sweep, keepGoing: bool,
                        anySet: bool)
    reads outs
  {
    && Valid(g) && |spots| == |g| && k <= |g|
    && s.Sweep? && s == SweepTo(g, spots, k) && Shows(outs, g, s.spots)
    && s.keepGoing == keepGoing && s.anySet == anySet
  }

  /** One sweep over the list. */
  method SweepOnce(outs: seq<Output>, ghost g: seq<Node>, ghost spots: seq<Spot>, ghost was: seq<Tag>)
    returns (missing: bool, keepGoing: bool, anySet: bool)
    requires DistinctOutputs(outs) && Shows(outs, g, spots) && AllOnlyPlaced(outs, was)
    modifies outs`x, outs`y, outs`changes
    ensures missing <==> SweepTo(g, spots, |g|).Missing?
    ensures !missing ==>
      var s := SweepTo(g, spots, |g|);
      Shows(outs, g, s.spots) && s.keepGoing == keepGoing && s.anySet == anySet
    ensures AllOnlyPlaced(outs, was)
  {
    missing, keepGoing, anySet := false, false, false;
    ghost var s := Sweep(spots, false, false);
    var k := 0;
    while k < |outs|
      invariant k <= |outs| && !missing
      invariant Swept(outs, g, spots, k, s, keepGoing, anySet)
      invariant AllOnlyPlaced(outs, was)
    {
      missing, keepGoing, anySet := VisitOutput(outs, k, outs[k], keepGoing, anySet, g, s.spots, was);
      s := Visit(g, s, k);
      k := k + 1;
      if missing {
        MissingStays(g, spots, k, |outs|);
        return;
      }
    }
  }

  /** The loop of sweeps, cut off after `budget` of them. */
  method PlaceAll(outs: seq<Output>, budget: nat, ghost g: seq<Node>, ghost spots: seq<Spot>, ghost was: seq<Tag>)
    returns (r: Result)
    requires DistinctOutputs(outs) && Shows(outs, g, spots) && AllOnlyPlaced(outs, was)
    modifies outs`x, outs`y, outs`changes
    ensures Ends(Run(g, spots, budget), r)
    ensures r == Positioned ==> Shows(outs, g, Run(g, spots, budget).spots)
    ensures AllOnlyPlaced(outs, was)
  {
    ghost var now := spots;
    var sweeps := 0;
    while sweeps < budget
      invariant sweeps <= budget
      invariant Shows(outs, g, now)
      invariant Run(g, now, budget - sweeps) == Run(g, spots, budget)
      invariant AllOnlyPlaced(outs, was)
    {
      var missing, keepGoing, anySet := SweepOnce(outs, g, now, was);
      if missing {
        return UnknownOutput;
      }
      now := SweepTo(g, now, |g|).spots;
      if !keepGoing {
        return Positioned;
      }
      if !anySet {
        return Loop;
      }
      sweeps := sweeps + 1;
    }
    r := OutOfSweeps;
  }

  /** The program's way of ending the loop that corresponds to an outcome. */
  ghost predicate Ends(outcome: Outcome, r: Result) {
    match outcome
    case Placed(_) => r == Positioned
    case LoopReported => r == Loop
    case NoSuchOutput => r == UnknownOutput
    case StillRunning => r == OutOfSweeps
  }

  lemma {:induction false} MissingStays(g: seq<Node>, spots: seq<Spot>, k: nat, n: nat)
    requires Valid(g) && |spots| == |g| && k <= n <= |g|
    requires SweepTo(g, spots, k).Missing?
    ensures SweepTo(g, spots, n).Missing?
  {
    if k < n { MissingStays(g, spots, k, n - 1); }
  }

  /** What the search for the smallest enabled coordinates, started at 32768, ends with. */
  ghost predicate IsLeast(outs: seq<Output>, n: nat, leastX: int, leastY: int)
    requires n <= |outs|
    reads outs
  {
    && leastX <= 32768 && leastY <= 32768
    && (forall k :: 0 <= k < n && outs[k].modeInfo.Some? ==> leastX <= outs[k].x && leastY <= outs[k].y)
    && (leastX == 32768 || exists k :: 0 <= k < n && outs[k].modeInfo.Some? && outs[k].x == leastX)
    && (leastY == 32768 || exists k :: 0 <= k < n && outs[k].modeInfo.Some? && outs[k].y == leastY)
  }

  /** `o` was shifted by (-dx, -dy) if it is enabled, and left alone otherwise. */
  twostate predicate Shifted(o: Output, dx: int, dy: int)
    reads o
  {
    if o.modeInfo.Some? then o.x == old(o.x) - dx && o.y == old(o.y) - dy
    else o.x == old(o.x) && o.y == old(o.y)
  }

  method FindLeast(outs: seq<Output>) returns (minX: int, minY: int)
    ensures IsLeast(outs, |outs|, minX, minY)
  {
    minX, minY := 32768, 32768;
    var k := 0;
    while k < |outs|
      invariant 0 <= k <= |outs|
      invariant IsLeast(outs, k, minX, minY)
    {
      var output := outs[k];
      if output.modeInfo.Some? {
        if output.x < minX { minX := output.x; }
        if output.y < minY { minY := output.y; }
      }
      k := k + 1;
    }
  }

  method ShiftOutput(outs: seq<Output>, k: nat, output: Output, dx: int, dy: int, ghost was: seq<Tag>)
    requires DistinctOutputs(outs) && k < |outs| && output == outs[k] && AllOnlyMoved(outs, was)
    requires OnlyPlaced(output, was[k]) && (dx != 0 || dy != 0)
    modifies output`x, output`y, output`changes
    ensures AllOnlyMoved(outs, was) && Shifted(output, dx, dy)
  {
    if output.modeInfo.Some? {
      output.x := output.x - dx;
      output.y := output.y - dy;
      output.changes := output.changes + {ChangedPosition};
      assert OnlyMoved(output, was[k]);
      forall j | 0 <= j < |outs| && j != k ensures OnlyMoved(outs[j], was[j]) {
        assert outs[j] != output;
        assert old(OnlyMoved(outs[j], was[j]));
      }
    }
  }

  /** Moves every enabled output so that the smallest coordinates become 0. */
  method Normalise(outs: seq<Output>, ghost was: seq<Tag>) returns (minX: int, minY: int)
    requires DistinctOutputs(outs) && AllOnlyPlaced(outs, was)
    modifies outs`x, outs`y, outs`changes
    ensures old(IsLeast(outs, |outs|, minX, minY))
    ensures forall o :: o in outs ==> Shifted(o, minX, minY)
    ensures AllOnlyMoved(outs, was)
  {
    minX, minY := FindLeast(outs);
    if minX != 0 || minY != 0 {
      var k := 0;
      while k < |outs|
        invariant 0 <= k <= |outs|
        invariant forall j :: 0 <= j < k ==> Shifted(outs[j], minX, minY)
        invariant forall j :: k <= j < |outs| ==> unchanged(outs[j])
        invariant AllOnlyMoved(outs, was)
      {
        assert old(OnlyPlaced(outs[k], was[k]));
        ShiftOutput(outs, k, outs[k], minX, minY, was);
        k := k + 1;
      }
    }
  }

  /** An enabled output related to an enabled one, in the program's own records. */
  ghost predicate RelatedTo(outs: seq<Output>, k: nat, t: nat)
    requires k < |outs| && t < |outs|
    reads outs
  {
    && outs[k].modeInfo.Some? && ChangedRelation in outs[k].changes
    && FindByName(outs, outs[k].relativeTo) == t && outs[t].modeInfo.Some?
  }

  /** `o` stands left of, right of, above, below or on top of `to`, as its relation asks. */
  ghost predicate StandsBy(o: Output, to: Output)
    requires o.modeInfo.Some? && to.modeInfo.Some?
    reads o`modeInfo, o`relation, o`rotation, o`x, o`y, to`modeInfo, to`rotation, to`x, to`y
  {
    match o.relation
    case LeftOf => o.x + ModeWidth(o.modeInfo.value, o.rotation) == to.x && o.y == to.y
    case RightOf => o.x == to.x + ModeWidth(to.modeInfo.value, to.rotation) && o.y == to.y
    case Above => o.y + ModeHeight(o.modeInfo.value, o.rotation) == to.y && o.x == to.x
    case Below => o.y == to.y + ModeHeight(to.modeInfo.value, to.rotation) && o.x == to.x
    case SameAs => o.x == to.x && o.y == to.y
  }

  // ----- relations in terms of pixels -----

  /** Pixel `q` is on this side of pixel `p`. */
  predicate OnSide(relation: Relation, p: (int, int), q: (int, int)) {
    match relation
    case LeftOf => p.0 < q.0
    case RightOf => q.0 < p.0
    case Above => p.1 < q.1
    case Below => q.1 < p.1
    case SameAs => true
  }

  /** The next pixel on that side. */
  function Next(relation: Relation, p: (int, int)): (int, int) {
    match relation
    case LeftOf => (p.0 + 1, p.1)
    case RightOf => (p.0 - 1, p.1)
    case Above => (p.0, p.1 + 1)
    case Below => (p.0, p.1 - 1)
    case SameAs => p
  }

  /** Every pixel of an output that stands beside another is on the right side of all the other's. */
  lemma {:induction false} StandsApart(o: Output, to: Output, p: (int, int), q: (int, int))
    requires o.modeInfo.Some? && to.modeInfo.Some? && StandsBy(o, to)
    requires Lights(o, p.0, p.1) && Lights(to, q.0, q.1)
    ensures OnSide(o.relation, p, q)
  {
    TurnedFills(o.modeInfo.value, o.rotation, p.0 - o.x, p.1 - o.y);
    TurnedFills(to.modeInfo.value, to.rotation, q.0 - to.x, q.1 - to.y);
  }

  ghost predicate Touch(o: Output, to: Output, p: (int, int))
    reads o`modeInfo, o`relation, o`rotation, o`x, o`y, to`modeInfo, to`rotation, to`x, to`y
  {
    Lights(o, p.0, p.1) && Lights(to, Next(o.relation, p).0, Next(o.relation, p).1)
  }

  /** And no gap is left: some pixel of the one is next to one of the other's, or on it. */
  lemma {:induction false} StandsNext(o: Output, to: Output) returns (p: (int, int))
    requires o.modeInfo.Some? && to.modeInfo.Some? && StandsBy(o, to)
    requires (exists x, y :: Lights(o, x, y)) && (exists x, y :: Lights(to, x, y))
    ensures Touch(o, to, p)
  {
    var x, y :| Lights(o, x, y);
    var u, v :| Lights(to, u, v);
    TurnedFills(o.modeInfo.value, o.rotation, x - o.x, y - o.y);
    TurnedFills(to.modeInfo.value, to.rotation, u - to.x, v - to.y);
    p := match o.relation
      case LeftOf => (to.x - 1, to.y)
      case RightOf => (o.x, o.y)
      case Above => (to.x, to.y - 1)
      case Below => (o.x, o.y)
      case SameAs => (o.x, o.y);
    var q := Next(o.relation, p);
    TurnedFills(o.modeInfo.value, o.rotation, p.0 - o.x, p.1 - o.y);
    TurnedFills(to.modeInfo.value, to.rotation, q.0 - to.x, q.1 - to.y);
  }

  /** A full HD output turned by a quarter, with another one right of it: that one starts at column 1080. */
  lemma {:induction false} BesideTurned(o: Output, to: Output)
    requires o.modeInfo.Some? && o.relation == RightOf && to.modeInfo == Some(Mode(1, 1920, 1080))
    requires to.rotation == Rotation(Rotate90, false, false) && to.x == 0 && to.y == 0 && StandsBy(o, to)
    ensures o.x == 1080 && o.y == 0
  {}

  /** No output with a relation was given a position of its own. */
  ghost predicate Unpinned(outs: seq<Output>)
    reads outs`changes
  {
    forall o :: o in outs && ChangedRelation in o.changes ==> ChangedPosition !in o.changes
  }

  /** The relations of the enabled outputs cannot be met: a name is unknown, or they go round in a circle. */
  ghost predicate Unplaceable(outs: seq<Output>)
    reads outs
  {
    !AllTargetsKnown(Graph(outs)) || HasCycle(Graph(outs))
  }

  ghost predicate RelationsHold(outs: seq<Output>)
    reads outs
  {
    forall k, t :: 0 <= k < |outs| && 0 <= t < |outs| && RelatedTo(outs, k, t) ==> StandsBy(outs[k], outs[t])
  }

  /** After the placement loop the relations hold, read off the program's records. */
  lemma ShownRelationsHold(outs: seq<Output>, g: seq<Node>, spots: seq<Spot>, k: nat, t: nat)
    requires Shows(outs, g, spots) && k < |outs| && t < |outs|
    requires forall j: nat :: Bound(g, j) ==> Holds(g, spots, j)
    requires RelatedTo(outs, k, t)
    ensures StandsBy(outs[k], outs[t])
  {
    assert NodeOf(outs, outs[k]) == g[k] && NodeOf(outs, outs[t]) == g[t];
    assert SpotOf(outs[k]) == spots[k] && SpotOf(outs[t]) == spots[t];
    assert Bound(g, k);
  }

  /** Shifting all enabled outputs alike keeps every relation between them. */
  method NormaliseKeepingRelations(outs: seq<Output>, ghost was: seq<Tag>) returns (minX: int, minY: int)
    requires DistinctOutputs(outs) && AllOnlyPlaced(outs, was)
    modifies outs`x, outs`y, outs`changes
    ensures AllOnlyMoved(outs, was)
    ensures forall o :: o in outs ==> Shifted(o, minX, minY)
    ensures old(RelationsHold(outs)) ==> RelationsHold(outs)
    ensures forall o :: o in outs && o.modeInfo.Some? ==> o.x >= 0 && o.y >= 0
    ensures minX < 32768 ==> exists o :: o in outs && o.modeInfo.Some? && o.x == 0
    ensures minY < 32768 ==> exists o :: o in outs && o.modeInfo.Some? && o.y == 0
  {
    minX, minY := Normalise(outs, was);
    if old(RelationsHold(outs)) {
      forall k, t | 0 <= k < |outs| && 0 <= t < |outs| && RelatedTo(outs, k, t)
        ensures StandsBy(outs[k], outs[t])
      {
        assert outs[k] in outs && outs[t] in outs;
        assert old(RelatedTo(outs, k, t));
      }
    }
    if minX < 32768 {
      ghost var k :| 0 <= k < |outs| && outs[k].modeInfo.Some? && old(outs[k].x) == minX;
      assert outs[k] in outs && outs[k].x == 0;
    }
    if minY < 32768 {
      ghost var k :| 0 <= k < |outs| && outs[k].modeInfo.Some? && old(outs[k].y) == minY;
      assert outs[k] in outs && outs[k].y == 0;
    }
    forall o | o in outs && o.modeInfo.Some? ensures o.x >= 0 && o.y >= 0 {
      var k :| 0 <= k < |outs| && outs[k] == o;
      assert old(outs[k].modeInfo).Some?;
    }
  }

  /** Explicit positions of related outputs fit already, or the sweeps made undo them. */
  ghost predicate PinsAgree(g: seq<Node>, spots: seq<Spot>)
    requires Valid(g) && |spots| == |g|
  {
    Settled(g, spots) || AllMeet(g, Flags(spots))
  }

  lemma AgreedMeansHolds(g: seq<Node>, spots: seq<Spot>, budget: nat)
    requires Valid(g) && |spots| == |g| && PinsAgree(g, spots) && Run(g, spots, budget).Placed?
    ensures AllHold(g, Run(g, spots, budget).spots)
  {
    if Settled(g, spots) {
      PlacedMeansHolds(g, spots, budget);
    } else {
      MetHoldsAtEnd(g, Flags(spots), spots, budget);
    }
  }

  /** The outputs that are on stand at these spots, all moved alike. */
  ghost predicate StandAt(outs: seq<Output>, spots: seq<Spot>, dx: int, dy: int)
    reads outs`modeInfo, outs`x, outs`y
  {
    |spots| == |outs| && forall k {:trigger spots[k]} :: 0 <= k < |outs| && outs[k].modeInfo.Some? ==>
      outs[k].x == spots[k].x - dx && outs[k].y == spots[k].y - dy
  }

  /** Where the loop leaves the outputs. */
  ghost predicate PlacedBy(outs: seq<Output>, outcome: Outcome, dx: int, dy: int)
    reads outs`modeInfo, outs`x, outs`y
  {
    outcome.Placed? && StandAt(outs, outcome.spots, dx, dy)
  }

  /** The loop and the shift, on the records. */
  method PlaceAndNormalise(outs: seq<Output>, budget: nat) returns (r: Result, minX: int, minY: int)
    requires DistinctOutputs(outs)
    modifies outs`x, outs`y, outs`changes
    ensures Ends(Run(old(Graph(outs)), old(Spots(outs)), budget), r)
    ensures r == Positioned ==> PlacedBy(outs, Run(old(Graph(outs)), old(Spots(outs)), budget), minX, minY)
    ensures r == Positioned && old(PinsAgree(Graph(outs), Spots(outs))) ==> RelationsHold(outs)
    ensures r == Positioned ==> forall o :: o in outs && o.modeInfo.Some? ==> o.x >= 0 && o.y >= 0
    ensures r == Positioned ==> forall o :: o in outs && o.modeInfo.Some? && old(ChangedRelation !in o.changes) ==>
      o.x == old(o.x) - minX && o.y == old(o.y) - minY
    ensures r == Positioned && minX < 32768 ==> exists o :: o in outs && o.modeInfo.Some? && o.x == 0
    ensures r == Positioned && minY < 32768 ==> exists o :: o in outs && o.modeInfo.Some? && o.y == 0
    ensures AllOnlyMoved(outs, old(Tags(outs)))
  {
    ghost var g, spots, was := Graph(outs), Spots(outs), Tags(outs);
    minX, minY := 0, 0;
    r := PlaceAll(outs, budget, g, spots, was);
    if r == Positioned {
      UnrelatedStay(g, spots, budget);
      ghost var after := Run(g, spots, budget).spots;
      forall k | 0 <= k < |outs| && old(ChangedRelation !in outs[k].changes)
        ensures outs[k].x == old(outs[k].x) && outs[k].y == old(outs[k].y)
      {
        assert !Active(g, k);
        assert SpotOf(outs[k]) == after[k] == spots[k] == old(SpotOf(outs[k]));
      }
      if PinsAgree(g, spots) {
        AgreedMeansHolds(g, spots, budget);
        forall k, t | 0 <= k < |outs| && 0 <= t < |outs| && RelatedTo(outs, k, t)
          ensures StandsBy(outs[k], outs[t])
        {
          ShownRelationsHold(outs, g, after, k, t);
        }
      }
      minX, minY := NormaliseKeepingRelations(outs, was);
      forall k | 0 <= k < |outs| && outs[k].modeInfo.Some?
        ensures outs[k].x == after[k].x - minX && outs[k].y == after[k].y - minY
      {
        assert outs[k] in outs;
      }
    }
  }

  /**
   Places and normalises. How the loop ends is `Placement.Run` of the relation graph, whose cases
   `PinnedCycles.EndingFromPins` settles; on normal exit every relation between enabled outputs holds, no
   enabled coordinate is negative, outputs without a relation all moved by the same amount, and 0 is
   reached unless the smallest coordinate was over 32768. With as many sweeps as outputs it succeeds
   exactly if all names are known and every cycle has an explicit position on it. The relations need that
   outputs with a relation and a position of their own fit already, or that the sweeps made undo these
   positions, which `PinnedCycles.HoldExactlyWhenAllMeet` makes precise.
   */
  method SetPositions(outs: seq<Output>, budget: nat) returns (r: Result, minX: int, minY: int)
    requires DistinctOutputs(outs)
    modifies outs`x, outs`y, outs`changes
    ensures Ends(Run(old(Graph(outs)), old(Spots(outs)), budget), r)
    ensures r == Positioned ==> PlacedBy(outs, Run(old(Graph(outs)), old(Spots(outs)), budget), minX, minY)
    ensures r == Positioned && old(PinsAgree(Graph(outs), Spots(outs))) ==> RelationsHold(outs)
    ensures r == Positioned ==> forall o :: o in outs && o.modeInfo.Some? ==> o.x >= 0 && o.y >= 0
    ensures r == Positioned ==> forall o :: o in outs && o.modeInfo.Some? && old(ChangedRelation !in o.changes) ==>
      o.x == old(o.x) - minX && o.y == old(o.y) - minY
    ensures r == Positioned && minX < 32768 ==> exists o :: o in outs && o.modeInfo.Some? && o.x == 0
    ensures r == Positioned && minY < 32768 ==> exists o :: o in outs && o.modeInfo.Some? && o.y == 0
    ensures AllOnlyMoved(outs, old(Tags(outs))) && Graph(outs) == old(Graph(outs))
    ensures budget > 0 && budget >= |outs| ==> (r == Positioned <==> old(Placeable(Graph(outs), Spots(outs))))
  {
    ghost var g, spots, was := Graph(outs), Spots(outs), Tags(outs);
    r, minX, minY := PlaceAndNormalise(outs, budget);
    forall k | 0 <= k < |outs| ensures NodeOf(outs, outs[k]) == g[k] {
      assert OnlyMoved(outs[k], was[k]);
      assert old(NodeOf(outs, outs[k])) == g[k];
    }
    assert Graph(outs) == g;
    if budget > 0 && budget >= |outs| {
      EndsWithinCount(g, spots, budget);
    }
  }
}
