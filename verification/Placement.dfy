/**
 Placing outputs relative to one another: the graph of relations, one visit, one sweep over
 the list, and the loop of sweeps. The theorems say when the loop ends, how, and what holds then.
 */
module Placement {
  import opened RandR

  datatype Relation = LeftOf | RightOf | Above | Below | SameAs

  /** One output as the placement loop sees it; `target` is the output it names, if there is one. */
  datatype Node = Node(enabled: bool, related: bool, target: Option<nat>, relation: Relation, width: int, height: int)
  datatype Spot = Spot(x: int, y: int, placed: bool)

  datatype Sweep = Missing | Sweep(spots: seq<Spot>, keepGoing: bool, anySet: bool)
  datatype Outcome = Placed(spots: seq<Spot>) | LoopReported | NoSuchOutput | StillRunning

  ghost predicate Valid(g: seq<Node>) {
    forall k :: 0 <= k < |g| && g[k].target.Some? ==> g[k].target.value < |g|
  }

  /** The loop only looks at enabled outputs that were given a relation. */
  predicate Active(g: seq<Node>, k: nat)
    requires k < |g|
  {
    g[k].enabled && g[k].related
  }

  /** Where `node` goes when its target `t` sits at `at`. */
  function Beside(node: Node, t: Node, at: Spot): Spot {
    match node.relation
    case LeftOf => Spot(at.x - node.width, at.y, true)
    case RightOf => Spot(at.x + t.width, at.y, true)
    case Above => Spot(at.x, at.y - node.height, true)
    case Below => Spot(at.x, at.y + t.height, true)
    case SameAs => Spot(at.x, at.y, true)
  }

  function Visit(g: seq<Node>, s: Sweep, k: nat): Sweep
    requires Valid(g) && k < |g| && (s.Sweep? ==> |s.spots| == |g|)
  {
    if s.Missing? || !Active(g, k) then s
    else if g[k].target.None? then Missing
    else
      var t := g[k].target.value;
      if !g[t].enabled then Sweep(s.spots[k := Spot(0, 0, true)], s.keepGoing, true)
      else if g[t].related && !s.spots[t].placed then s.(keepGoing := true)
      else Sweep(s.spots[k := Beside(g[k], g[t], s.spots[t])], s.keepGoing, true)
  }

  /** The first `n` visits of a sweep. */
  function SweepTo(g: seq<Node>, spots: seq<Spot>, n: nat): (s: Sweep)
    requires Valid(g) && |spots| == |g| && n <= |g|
    ensures s.Sweep? ==> |s.spots| == |g|
  {
    if n == 0 then Sweep(spots, false, false) else Visit(g, SweepTo(g, spots, n - 1), n - 1)
  }

  /** At most `budget` sweeps; `StillRunning` when that was not enough to end the loop. */
  function Run(g: seq<Node>, spots: seq<Spot>, budget: nat): Outcome
    requires Valid(g) && |spots| == |g|
    decreases budget
  {
    if budget == 0 then StillRunning
    else
      match SweepTo(g, spots, |g|)
      case Missing => NoSuchOutput
      case Sweep(after, keepGoing, anySet) =>
        if !keepGoing then Placed(after)
        else if !anySet then LoopReported
        else Run(g, after, budget - 1)
  }

  // ----- what a sweep keeps -----

  /** Output `k` is an enabled output related to an enabled one. */
  ghost predicate Bound(g: seq<Node>, k: nat)
    requires Valid(g)
  {
    k < |g| && Active(g, k) && g[k].target.Some? && g[g[k].target.value].enabled
  }

  /** `k` stands where its relation puts it. */
  ghost predicate Holds(g: seq<Node>, spots: seq<Spot>, k: nat)
    requires Valid(g) && |spots| == |g| && Bound(g, k)
  {
    var t := g[k].target.value;
    var at, to := spots[k], spots[t];
    match g[k].relation
    case LeftOf => at.x + g[k].width == to.x && at.y == to.y
    case RightOf => at.x == to.x + g[t].width && at.y == to.y
    case Above => at.y + g[k].height == to.y && at.x == to.x
    case Below => at.y == to.y + g[t].height && at.x == to.x
    case SameAs => at.x == to.x && at.y == to.y
  }

  ghost predicate PlacedAt(g: seq<Node>, spots: seq<Spot>, k: nat)
    requires |spots| == |g|
  {
    k < |g| && Active(g, k) && spots[k].placed
  }

  /** A target that a visit may use: not itself waiting for a place. */
  ghost predicate Ready(g: seq<Node>, spots: seq<Spot>, t: nat)
    requires |spots| == |g| && t < |g|
  {
    !Active(g, t) || spots[t].placed
  }

  /** Every placed active output already stands where its relation puts it, and so does all it leans on. */
  ghost predicate Settled(g: seq<Node>, spots: seq<Spot>)
    requires Valid(g) && |spots| == |g|
  {
    forall k: nat :: PlacedAt(g, spots, k) ==>
      && g[k].target.Some?
      && Ready(g, spots, g[k].target.value)
      && (if Bound(g, k) then Holds(g, spots, k) else spots[k].x == 0 && spots[k].y == 0)
  }

  lemma VisitSettles(g: seq<Node>, s: Sweep, k: nat)
    requires Valid(g) && k < |g| && s.Sweep? && |s.spots| == |g| && Settled(g, s.spots)
    requires Visit(g, s, k).Sweep?
    ensures Settled(g, Visit(g, s, k).spots)
  {
    var spots, after := s.spots, Visit(g, s, k).spots;
    if after != spots {
      // Re-placing an output that was placed before changes nothing, so `k` was not placed.
      assert !PlacedAt(g, spots, k);
      forall j: nat | PlacedAt(g, after, j) && j != k
        ensures g[j].target.Some? && Ready(g, after, g[j].target.value)
        ensures if Bound(g, j) then Holds(g, after, j) else after[j].x == 0 && after[j].y == 0
      {
        assert PlacedAt(g, spots, j) && g[j].target.value != k;
      }
    }
  }

  /** What a (partial) sweep over the first `n` outputs does, from settled spots. */
  lemma {:induction false} SweepFacts(g: seq<Node>, spots: seq<Spot>, n: nat)
    requires Valid(g) && |spots| == |g| && n <= |g| && Settled(g, spots)
    requires SweepTo(g, spots, n).Sweep?
    ensures var s := SweepTo(g, spots, n);
      && Settled(g, s.spots)
      && (forall k :: 0 <= k < |g| && (!Active(g, k) || k >= n) ==> s.spots[k] == spots[k])
      && (forall k :: 0 <= k < |g| && Active(g, k) && spots[k].placed ==> s.spots[k].placed)
      && (forall k :: 0 <= k < n && Active(g, k) ==> g[k].target.Some?)
      && (forall k :: 0 <= k < n && Active(g, k) && Ready(g, spots, g[k].target.value) ==> s.spots[k].placed)
      && (s.keepGoing <==> exists k :: 0 <= k < n && Active(g, k) && !s.spots[k].placed)
      && (s.anySet <==> exists k :: 0 <= k < n && Active(g, k) && s.spots[k].placed)
  {
    if n > 0 {
      SweepFacts(g, spots, n - 1);
      var s, k := SweepTo(g, spots, n - 1), n - 1;
      var s' := Visit(g, s, k);
      VisitSettles(g, s, k);
      forall j | 0 <= j < |g| && j != k ensures s'.spots[j] == s.spots[j] {}
      if Active(g, k) {
        assert PlacedAt(g, s.spots, k) ==> Ready(g, s.spots, g[k].target.value);
        assert s'.spots[k].placed <==> Ready(g, s.spots, g[k].target.value);
      }
    }
  }

  /** A sweep meets a relation to an unknown output exactly when there is one among those visited. */
  lemma {:induction false} SweepMissing(g: seq<Node>, spots: seq<Spot>, n: nat)
    requires Valid(g) && |spots| == |g| && n <= |g|
    ensures SweepTo(g, spots, n).Missing? <==> exists k :: 0 <= k < n && Active(g, k) && g[k].target.None?
  {
    if n > 0 {
      SweepMissing(g, spots, n - 1);
    }
  }

  // ----- cycles -----

  /** A closed chain of enabled outputs, each one placed relative to the next. */
  ghost predicate IsCycle(g: seq<Node>, c: seq<nat>)
    requires Valid(g)
  {
    && c != []
    && (forall i :: 0 <= i < |c| ==> c[i] < |g| && Active(g, c[i]))
    && (forall i :: 0 <= i < |c| - 1 ==> g[c[i]].target == Some(c[i + 1]))
    && g[c[|c| - 1]].target == Some(c[0])
  }

  ghost predicate HasCycle(g: seq<Node>)
    requires Valid(g)
  {
    exists c :: IsCycle(g, c)
  }

  /** Nobody in `u` leans on anything outside it. */
  ghost predicate ClosedUnderTargets(g: seq<Node>, u: set<nat>)
    requires Valid(g)
  {
    forall k :: k in u ==> k < |g| && Active(g, k) && g[k].target.Some? && g[k].target.value in u
  }

  ghost predicate Distinct(w: seq<nat>) {
    forall i, j :: 0 <= i < j < |w| ==> w[i] != w[j]
  }

  ghost function Elements(w: seq<nat>): set<nat> { set i | 0 <= i < |w| :: w[i] }

  lemma {:induction false} DistinctCount(w: seq<nat>)
    requires Distinct(w)
    ensures |Elements(w)| == |w|
  {
    if w == [] {
      assert Elements(w) == {};
    } else {
      var n := |w| - 1;
      DistinctCount(w[..n]);
      assert Elements(w) == Elements(w[..n]) + {w[n]};
    }
  }

  lemma SubsetCount(a: set<nat>, b: set<nat>)
    requires a <= b
    ensures |a| <= |b|
  {
    assert b == a + (b - a);
  }

  lemma CycleIsActive(g: seq<Node>)
    requires Valid(g) && HasCycle(g)
    ensures AnyActive(g)
  {
    var c :| IsCycle(g, c);
    assert c[0] < |g| && Active(g, c[0]);
  }

  /** A walk along targets inside `u` that has not come round yet. */
  ghost predicate IsWalk(g: seq<Node>, u: set<nat>, w: seq<nat>)
    requires Valid(g) && ClosedUnderTargets(g, u)
  {
    && w != [] && Distinct(w)
    && (forall i :: 0 <= i < |w| ==> w[i] in u)
    && (forall i :: 0 <= i < |w| - 1 ==> g[w[i]].target == Some(w[i + 1]))
  }

  /** A cycle among these outputs. */
  ghost predicate IsCycleIn(g: seq<Node>, u: set<nat>, c: seq<nat>)
    requires Valid(g)
  {
    IsCycle(g, c) && forall i :: 0 <= i < |c| ==> c[i] in u
  }

  lemma WalkComesRound(g: seq<Node>, u: set<nat>, w: seq<nat>, i: nat)
    requires Valid(g) && ClosedUnderTargets(g, u) && IsWalk(g, u, w)
    requires i < |w| && g[w[|w| - 1]].target == Some(w[i])
    ensures IsCycleIn(g, u, w[i..])
  {
    var c := w[i..];
    forall j | 0 <= j < |c| ensures c[j] == w[i + j] && c[j] in u {}
  }

  lemma WalkGoesOn(g: seq<Node>, u: set<nat>, w: seq<nat>, next: nat)
    requires Valid(g) && ClosedUnderTargets(g, u) && IsWalk(g, u, w)
    requires g[w[|w| - 1]].target == Some(next) && next !in w
    ensures IsWalk(g, u, w + [next])
  {}

  lemma WalkIsShort(g: seq<Node>, u: set<nat>, w: seq<nat>)
    requires Valid(g) && ClosedUnderTargets(g, u) && IsWalk(g, u, w)
    ensures |w| <= |u|
  {
    DistinctCount(w);
    SubsetCount(Elements(w), u);
  }

  /** Following targets inside a closed set must come round. */
  lemma {:induction false} WalkCloses(g: seq<Node>, u: set<nat>, w: seq<nat>)
    requires Valid(g) && ClosedUnderTargets(g, u) && IsWalk(g, u, w)
    ensures exists c :: IsCycleIn(g, u, c)
    decreases |u| - |w|
  {
    WalkIsShort(g, u, w);
    var next := g[w[|w| - 1]].target.value;
    if next in w {
      var i :| 0 <= i < |w| && w[i] == next;
      WalkComesRound(g, u, w, i);
    } else {
      WalkGoesOn(g, u, w, next);
      WalkIsShort(g, u, w + [next]);
      WalkCloses(g, u, w + [next]);
    }
  }

  lemma ClosedSetHasCycle(g: seq<Node>, u: set<nat>)
    requires Valid(g) && ClosedUnderTargets(g, u) && u != {}
    ensures HasCycle(g) && exists c :: IsCycleIn(g, u, c)
  {
    var k :| k in u;
    WalkCloses(g, u, [k]);
    var c :| IsCycleIn(g, u, c);
    assert IsCycle(g, c);
  }

  // ----- progress and termination -----

  /** The active outputs still waiting for a place. */
  ghost function Waiting(g: seq<Node>, spots: seq<Spot>): set<nat>
    requires |spots| == |g|
  {
    set k: nat | k < |g| && Active(g, k) && !spots[k].placed
  }

  /** A sweep that leaves somebody waiting has placed somebody new, unless the relations are cyclic. */
  lemma SweepProgress(g: seq<Node>, spots: seq<Spot>)
    requires Valid(g) && |spots| == |g| && Settled(g, spots)
    requires SweepTo(g, spots, |g|).Sweep? && SweepTo(g, spots, |g|).keepGoing
    requires !HasCycle(g)
    ensures Waiting(g, SweepTo(g, spots, |g|).spots) < Waiting(g, spots)
    ensures SweepTo(g, spots, |g|).anySet
  {
    SweepFacts(g, spots, |g|);
    var s := SweepTo(g, spots, |g|);
    var before, after := Waiting(g, spots), Waiting(g, s.spots);
    assert after <= before;
    if after == before {
      assert ClosedUnderTargets(g, before) by {
        forall k | k in before ensures g[k].target.Some? && g[k].target.value in before {
          assert k in after;
          assert !Ready(g, spots, g[k].target.value);
        }
      }
      ClosedSetHasCycle(g, before);
    }
    var k :| k in before && k !in after;
  }

  lemma ProperSubsetCount(a: set<nat>, b: set<nat>)
    requires a < b
    ensures |a| < |b|
  {
    var x :| x in b && x !in a;
    SubsetCount(a, b - {x});
  }

  ghost predicate AllTargetsKnown(g: seq<Node>) {
    forall k :: 0 <= k < |g| && Active(g, k) ==> g[k].target.Some?
  }

  /** After a sweep that goes on somebody waits, but fewer than before. */
  lemma {:induction false} SweepLeavesFewer(g: seq<Node>, spots: seq<Spot>)
    requires Valid(g) && |spots| == |g| && Settled(g, spots) && !HasCycle(g)
    requires SweepTo(g, spots, |g|).Sweep? && SweepTo(g, spots, |g|).keepGoing
    ensures var s := SweepTo(g, spots, |g|);
      s.anySet && Settled(g, s.spots) && 0 < |Waiting(g, s.spots)| < |Waiting(g, spots)|
  {
    SweepFacts(g, spots, |g|);
    var s := SweepTo(g, spots, |g|);
    SweepProgress(g, spots);
    ProperSubsetCount(Waiting(g, s.spots), Waiting(g, spots));
    var k :| 0 <= k < |g| && Active(g, k) && !s.spots[k].placed;
    assert k in Waiting(g, s.spots);
  }

  /** Acyclic relations are placed within as many sweeps as outputs were waiting (at least one). */
  lemma {:induction false} AcyclicTerminates(g: seq<Node>, spots: seq<Spot>, budget: nat)
    requires Valid(g) && |spots| == |g| && Settled(g, spots)
    requires AllTargetsKnown(g) && !HasCycle(g)
    requires budget >= 1 && budget >= |Waiting(g, spots)|
    ensures Run(g, spots, budget).Placed?
    decreases budget
  {
    SweepMissing(g, spots, |g|);
    var s := SweepTo(g, spots, |g|);
    if s.keepGoing {
      SweepLeavesFewer(g, spots);
      AcyclicTerminates(g, s.spots, budget - 1);
    }
  }

  /** On normal exit every relation holds, and outputs without one have not moved. */
  lemma {:induction false} PlacedMeansHolds(g: seq<Node>, spots: seq<Spot>, budget: nat)
    requires Valid(g) && |spots| == |g| && Settled(g, spots)
    requires Run(g, spots, budget).Placed?
    ensures var after := Run(g, spots, budget).spots;
      && |after| == |g|
      && (forall k: nat :: Bound(g, k) ==> Holds(g, after, k))
      && (forall k :: 0 <= k < |g| && Active(g, k) && !Bound(g, k) ==> after[k].x == 0 && after[k].y == 0)
      && (forall k :: 0 <= k < |g| && Active(g, k) ==> after[k].placed)
      && (forall k :: 0 <= k < |g| && !Active(g, k) ==> after[k] == spots[k])
    decreases budget
  {
    SweepFacts(g, spots, |g|);
    var s := SweepTo(g, spots, |g|);
    if s.keepGoing {
      PlacedMeansHolds(g, s.spots, budget - 1);
    } else {
      forall k: nat | k < |g| && Active(g, k) ensures PlacedAt(g, s.spots, k) {}
    }
  }

  lemma {:induction false} SweepKeepsUnrelated(g: seq<Node>, spots: seq<Spot>, n: nat)
    requires Valid(g) && |spots| == |g| && n <= |g| && SweepTo(g, spots, n).Sweep?
    ensures forall k :: 0 <= k < |g| && !Active(g, k) ==> SweepTo(g, spots, n).spots[k] == spots[k]
  {
    if n > 0 { SweepKeepsUnrelated(g, spots, n - 1); }
  }

  /** Outputs without a relation, and disabled ones, never move in the placement loop. */
  lemma {:induction false} UnrelatedStay(g: seq<Node>, spots: seq<Spot>, budget: nat)
    requires Valid(g) && |spots| == |g| && Run(g, spots, budget).Placed?
    ensures |Run(g, spots, budget).spots| == |g|
    ensures forall k :: 0 <= k < |g| && !Active(g, k) ==> Run(g, spots, budget).spots[k] == spots[k]
    decreases budget
  {
    SweepKeepsUnrelated(g, spots, |g|);
    var s := SweepTo(g, spots, |g|);
    if s.keepGoing { UnrelatedStay(g, s.spots, budget - 1); }
  }

  /**
   Settled beforehand is needed: an output that has both a relation and an explicit position counts
   as placed from the start, and one listed before it is put beside the position it then leaves.
   */
  lemma PinnedTargetMisleads(budget: nat)
    requires budget >= 1
    ensures var g := [Node(true, true, Some(1), RightOf, 100, 100), Node(true, true, Some(2), RightOf, 100, 100),
                      Node(true, false, None, RightOf, 100, 100)];
            var spots := [Spot(0, 0, false), Spot(500, 0, true), Spot(0, 0, false)];
            && Valid(g) && Bound(g, 0)
            && Run(g, spots, budget) == Placed([Spot(600, 0, true), Spot(100, 0, true), Spot(0, 0, false)])
            && !Holds(g, Run(g, spots, budget).spots, 0)
  {
    var g := [Node(true, true, Some(1), RightOf, 100, 100), Node(true, true, Some(2), RightOf, 100, 100),
              Node(true, false, None, RightOf, 100, 100)];
    var spots := [Spot(0, 0, false), Spot(500, 0, true), Spot(0, 0, false)];
    assert SweepTo(g, spots, 1) == Sweep([Spot(600, 0, true), Spot(500, 0, true), Spot(0, 0, false)], false, true);
    assert SweepTo(g, spots, 2) == Sweep([Spot(600, 0, true), Spot(100, 0, true), Spot(0, 0, false)], false, true);
    assert SweepTo(g, spots, 3) == SweepTo(g, spots, 2);
  }

  // ----- cyclic relations -----

  /** No output on a cycle is ever placed, so a cyclic configuration never leaves the loop normally. */
  lemma CycleStaysUnplaced(g: seq<Node>, spots: seq<Spot>, c: seq<nat>, n: nat)
    requires Valid(g) && |spots| == |g| && n <= |g| && IsCycle(g, c)
    requires forall i :: 0 <= i < |c| ==> !spots[c[i]].placed
    requires SweepTo(g, spots, n).Sweep?
    ensures forall i :: 0 <= i < |c| ==> !SweepTo(g, spots, n).spots[c[i]].placed
  {
    if n > 0 {
      CycleStaysUnplaced(g, spots, c, n - 1);
      var s := SweepTo(g, spots, n - 1);
      forall i | 0 <= i < |c| ensures !SweepTo(g, spots, n).spots[c[i]].placed {
        var next := if i + 1 < |c| then c[i + 1] else c[0];
        assert g[c[i]].target == Some(next) && Active(g, next) && !s.spots[next].placed;
      }
    }
  }

  /** Some active output leans on one that is not itself waiting for a relation. */
  ghost predicate Anchored(g: seq<Node>)
    requires Valid(g)
  {
    exists k :: 0 <= k < |g| && Active(g, k) && g[k].target.Some? && !Active(g, g[k].target.value)
  }

  lemma AnchoredSweepGoesOn(g: seq<Node>, spots: seq<Spot>, c: seq<nat>)
    requires Valid(g) && |spots| == |g| && Settled(g, spots)
    requires AllTargetsKnown(g) && IsCycle(g, c) && Anchored(g)
    requires forall i :: 0 <= i < |c| ==> !spots[c[i]].placed
    ensures SweepTo(g, spots, |g|).Sweep?
    ensures SweepTo(g, spots, |g|).keepGoing && SweepTo(g, spots, |g|).anySet
  {
    SweepMissing(g, spots, |g|);
    SweepFacts(g, spots, |g|);
    CycleStaysUnplaced(g, spots, c, |g|);
    var s := SweepTo(g, spots, |g|);
    var k :| 0 <= k < |g| && Active(g, k) && g[k].target.Some? && !Active(g, g[k].target.value);
    assert Ready(g, spots, g[k].target.value) && s.spots[k].placed;
    assert Active(g, c[0]) && !s.spots[c[0]].placed;
  }

  /**
   With a cycle beside an anchored relation no number of sweeps ends the loop: the anchored output
   is placed again in every sweep, which counts as progress.
   */
  lemma {:induction false} AnchoredCycleNeverEnds(g: seq<Node>, spots: seq<Spot>, c: seq<nat>, budget: nat)
    requires Valid(g) && |spots| == |g| && Settled(g, spots)
    requires AllTargetsKnown(g) && IsCycle(g, c) && Anchored(g)
    requires forall i :: 0 <= i < |c| ==> !spots[c[i]].placed
    ensures Run(g, spots, budget) == StillRunning
    decreases budget
  {
    if budget > 0 {
      SweepMissing(g, spots, |g|);
      SweepFacts(g, spots, |g|);
      CycleStaysUnplaced(g, spots, c, |g|);
      var s := SweepTo(g, spots, |g|);
      AnchoredSweepGoesOn(g, spots, c);
      AnchoredCycleNeverEnds(g, s.spots, c, budget - 1);
    }
  }

  /** No more outputs can wait than there are. */
  lemma WaitingCount(g: seq<Node>, spots: seq<Spot>)
    requires |spots| == |g|
    ensures |Waiting(g, spots)| <= |g|
  {
    var all: seq<nat> := seq(|g|, k requires 0 <= k < |g| => k);
    DistinctCount(all);
    forall k | k in Waiting(g, spots) ensures k in Elements(all) {
      assert all[k] == k;
    }
    SubsetCount(Waiting(g, spots), Elements(all));
  }

  /** Two outputs that stand beside each other, and a third one beside a fourth: no number of sweeps is enough. */
  lemma TwoCirclesNeverEnd(budget: nat)
    ensures var g := [Node(true, true, Some(1), RightOf, 100, 100), Node(true, true, Some(0), RightOf, 100, 100),
                      Node(true, true, Some(3), RightOf, 100, 100), Node(true, false, None, RightOf, 100, 100)];
            var spot := Spot(0, 0, false);
            && Valid(g) && Run(g, [spot, spot, spot, spot], budget) == StillRunning
  {
    var g := [Node(true, true, Some(1), RightOf, 100, 100), Node(true, true, Some(0), RightOf, 100, 100),
              Node(true, true, Some(3), RightOf, 100, 100), Node(true, false, None, RightOf, 100, 100)];
    var spot := Spot(0, 0, false);
    var circle: seq<nat> := [0, 1];
    assert IsCycle(g, circle);
    assert Active(g, 2) && !Active(g, g[2].target.value);
    AnchoredCycleNeverEnds(g, [spot, spot, spot, spot], circle, budget);
  }

  ghost predicate NonePlaced(g: seq<Node>, spots: seq<Spot>)
    requires |spots| == |g|
  {
    forall k :: 0 <= k < |g| && Active(g, k) ==> !spots[k].placed
  }

  ghost predicate AnyActive(g: seq<Node>) { exists k :: 0 <= k < |g| && Active(g, k) }

  /** Relations none of which is anchored leave everybody waiting in the first sweep. */
  lemma {:induction false} UnanchoredSweep(g: seq<Node>, spots: seq<Spot>, n: nat)
    requires Valid(g) && |spots| == |g| && n <= |g| && NonePlaced(g, spots)
    requires AllTargetsKnown(g) && !Anchored(g)
    ensures SweepTo(g, spots, n).Sweep? && SweepTo(g, spots, n).spots == spots
    ensures !SweepTo(g, spots, n).anySet
    ensures SweepTo(g, spots, n).keepGoing <==> exists k :: 0 <= k < n && Active(g, k)
  {
    if n > 0 {
      UnanchoredSweep(g, spots, n - 1);
      if Active(g, n - 1) { assert Active(g, g[n - 1].target.value); }
    }
  }

  lemma UnanchoredIsCyclic(g: seq<Node>)
    requires Valid(g) && AllTargetsKnown(g) && AnyActive(g) && !Anchored(g)
    ensures HasCycle(g)
  {
    var u := set k: nat | k < |g| && Active(g, k);
    var k: nat :| k < |g| && Active(g, k);
    assert k in u;
    ClosedSetHasCycle(g, u);
  }

  lemma UnanchoredRun(g: seq<Node>, spots: seq<Spot>, budget: nat)
    requires Valid(g) && |spots| == |g| && NonePlaced(g, spots) && budget >= 1
    requires AllTargetsKnown(g) && !Anchored(g)
    ensures Run(g, spots, budget) == if AnyActive(g) then LoopReported else Placed(spots)
    ensures HasCycle(g) <==> AnyActive(g)
  {
    if AnyActive(g) {
      UnanchoredIsCyclic(g);
    }
    if HasCycle(g) {
      CycleIsActive(g);
    }
    UnanchoredSweep(g, spots, |g|);
  }

  /**
   How the placement loop ends, for every graph and every number of sweeps, when no related output
   has been placed beforehand. The "loop" error therefore proves a cycle, but a cycle is reported
   only if no relation at all is anchored; otherwise the loop never ends.
   */
  lemma LoopEnding(g: seq<Node>, spots: seq<Spot>, budget: nat)
    requires Valid(g) && |spots| == |g| && NonePlaced(g, spots)
    requires budget >= 1 && budget >= |Waiting(g, spots)|
    ensures Run(g, spots, budget) == NoSuchOutput <==> !AllTargetsKnown(g)
    ensures Run(g, spots, budget).Placed? <==> AllTargetsKnown(g) && !HasCycle(g)
    ensures Run(g, spots, budget) == LoopReported <==> AllTargetsKnown(g) && AnyActive(g) && !Anchored(g)
    ensures Run(g, spots, budget) == StillRunning <==> AllTargetsKnown(g) && HasCycle(g) && Anchored(g)
    ensures Run(g, spots, budget) == LoopReported ==> HasCycle(g)
  {
    SweepMissing(g, spots, |g|);
    if AllTargetsKnown(g) {
      if HasCycle(g) && Anchored(g) {
        var c :| IsCycle(g, c);
        AnchoredCycleNeverEnds(g, spots, c, budget);
        CycleIsActive(g);
      } else if !Anchored(g) {
        UnanchoredRun(g, spots, budget);
      } else {
        AcyclicTerminates(g, spots, budget);
      }
    }
  }
}
