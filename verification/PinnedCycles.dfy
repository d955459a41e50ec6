/**
 The placement loop from arbitrary explicit positions and arbitrary relations, cycles included: how
 it ends, and which relations hold then. An explicit position on a cycle lets the loop go round it.
 */
module PinnedCycles {
  import opened RandR
  import opened Placement
  import opened PinnedPlacement

  // ----- how the loop ends -----

  /** A cycle on which nobody has a place. */
  ghost predicate IsFree(g: seq<Node>, spots: seq<Spot>, c: seq<nat>)
    requires Valid(g) && |spots| == |g|
  {
    IsCycle(g, c) && forall i :: 0 <= i < |c| ==> !spots[c[i]].placed
  }

  ghost predicate HasFreeCycle(g: seq<Node>, spots: seq<Spot>)
    requires Valid(g) && |spots| == |g|
  {
    exists c :: IsFree(g, spots, c)
  }

  /** Some output with a relation leans on one that need not be waited for. */
  ghost predicate Tied(g: seq<Node>, spots: seq<Spot>)
    requires Valid(g) && |spots| == |g|
  {
    exists k :: 0 <= k < |g| && Active(g, k) && g[k].target.Some? && Ready(g, spots, g[k].target.value)
  }

  /** What a (partial) sweep does, from any spots whatever. */
  lemma {:induction false} SweepFromPins(g: seq<Node>, spots: seq<Spot>, n: nat)
    requires Valid(g) && |spots| == |g| && n <= |g| && SweepTo(g, spots, n).Sweep?
    ensures var s := SweepTo(g, spots, n);
      && (forall k :: 0 <= k < |g| && spots[k].placed ==> s.spots[k].placed)
      && (forall k :: 0 <= k < n && Active(g, k) ==> g[k].target.Some?)
      && (forall k :: 0 <= k < n && Active(g, k) && Ready(g, spots, g[k].target.value) ==>
            s.spots[k].placed && s.anySet)
      && (s.keepGoing ==> exists k :: 0 <= k < n && Active(g, k) && !Ready(g, spots, g[k].target.value))
      && (!s.anySet ==> s.spots == spots)
  {
    if n > 0 { SweepFromPins(g, spots, n - 1); }
  }

  lemma {:induction false} FreeCycleWaits(g: seq<Node>, spots: seq<Spot>, c: seq<nat>, n: nat)
    requires Valid(g) && |spots| == |g| && n <= |g| && IsFree(g, spots, c) && SweepTo(g, spots, n).Sweep?
    ensures IsFree(g, SweepTo(g, spots, n).spots, c)
    ensures c[0] < n ==> SweepTo(g, spots, n).keepGoing
  {
    CycleStaysUnplaced(g, spots, c, n);
    if n > 0 {
      FreeCycleWaits(g, spots, c, n - 1);
      var next := if |c| > 1 then c[1] else c[0];
      assert g[c[0]].target == Some(next) && Active(g, next) && Active(g, c[0]);
    }
  }

  /** A sweep that goes on and places nobody new has a free cycle. */
  lemma {:induction false} NobodyNewIsFree(g: seq<Node>, spots: seq<Spot>)
    requires Valid(g) && |spots| == |g|
    requires SweepTo(g, spots, |g|).Sweep? && SweepTo(g, spots, |g|).keepGoing
    requires Waiting(g, SweepTo(g, spots, |g|).spots) == Waiting(g, spots)
    ensures HasFreeCycle(g, spots)
  {
    SweepFromPins(g, spots, |g|);
    var u := Waiting(g, spots);
    var k :| 0 <= k < |g| && Active(g, k) && !Ready(g, spots, g[k].target.value);
    assert g[k].target.value in u;
    ClosedSetHasCycle(g, u);
    var c :| IsCycleIn(g, u, c);
    assert IsFree(g, spots, c);
  }

  lemma {:induction false} FreeLaterIsFree(g: seq<Node>, spots: seq<Spot>)
    requires Valid(g) && |spots| == |g| && SweepTo(g, spots, |g|).Sweep?
    requires HasFreeCycle(g, SweepTo(g, spots, |g|).spots)
    ensures HasFreeCycle(g, spots)
  {
    SweepFromPins(g, spots, |g|);
    var c :| IsFree(g, SweepTo(g, spots, |g|).spots, c);
    assert IsFree(g, spots, c);
  }

  /** Going on without a free cycle places somebody new. */
  lemma {:induction false} SweepPlaces(g: seq<Node>, spots: seq<Spot>)
    requires Valid(g) && |spots| == |g| && !HasFreeCycle(g, spots)
    requires SweepTo(g, spots, |g|).Sweep? && SweepTo(g, spots, |g|).keepGoing
    ensures var s := SweepTo(g, spots, |g|);
      Waiting(g, s.spots) < Waiting(g, spots) && s.anySet && !HasFreeCycle(g, s.spots)
  {
    SweepFromPins(g, spots, |g|);
    var s := SweepTo(g, spots, |g|);
    if Waiting(g, s.spots) == Waiting(g, spots) { NobodyNewIsFree(g, spots); }
    if HasFreeCycle(g, s.spots) { FreeLaterIsFree(g, spots); }
  }

  lemma {:induction false} EndsWithoutFreeCycle(g: seq<Node>, spots: seq<Spot>, budget: nat)
    requires Valid(g) && |spots| == |g| && AllTargetsKnown(g) && !HasFreeCycle(g, spots)
    requires budget > |Waiting(g, spots)|
    ensures Run(g, spots, budget).Placed?
    decreases budget
  {
    SweepMissing(g, spots, |g|);
    var s := SweepTo(g, spots, |g|);
    if s.keepGoing {
      SweepPlaces(g, spots);
      ProperSubsetCount(Waiting(g, s.spots), Waiting(g, spots));
      EndsWithoutFreeCycle(g, s.spots, budget - 1);
    }
  }

  lemma {:induction false} TiedFreeCycleNeverEnds(g: seq<Node>, spots: seq<Spot>, c: seq<nat>, budget: nat)
    requires Valid(g) && |spots| == |g| && AllTargetsKnown(g) && IsFree(g, spots, c) && Tied(g, spots)
    ensures Run(g, spots, budget) == StillRunning
    decreases budget
  {
    if budget > 0 {
      SweepMissing(g, spots, |g|);
      SweepFromPins(g, spots, |g|);
      FreeCycleWaits(g, spots, c, |g|);
      assert Active(g, c[0]);
      TiedFreeCycleNeverEnds(g, SweepTo(g, spots, |g|).spots, c, budget - 1);
    }
  }

  lemma {:induction false} UntiedSweep(g: seq<Node>, spots: seq<Spot>, n: nat)
    requires Valid(g) && |spots| == |g| && n <= |g| && AllTargetsKnown(g) && !Tied(g, spots)
    ensures SweepTo(g, spots, n).Sweep? && SweepTo(g, spots, n).spots == spots && !SweepTo(g, spots, n).anySet
    ensures SweepTo(g, spots, n).keepGoing <==> exists k :: 0 <= k < n && Active(g, k)
  {
    if n > 0 { UntiedSweep(g, spots, n - 1); }
  }

  lemma {:induction false} UntiedIsFree(g: seq<Node>, spots: seq<Spot>)
    requires Valid(g) && |spots| == |g| && AllTargetsKnown(g) && AnyActive(g) && !Tied(g, spots)
    ensures HasFreeCycle(g, spots)
  {
    var u := Waiting(g, spots);
    var k :| 0 <= k < |g| && Active(g, k);
    assert g[k].target.value in u;
    ClosedSetHasCycle(g, u);
    var c :| IsCycleIn(g, u, c);
    assert IsFree(g, spots, c);
  }

  lemma {:induction false} FreeCycleIsActive(g: seq<Node>, spots: seq<Spot>)
    requires Valid(g) && |spots| == |g| && HasFreeCycle(g, spots)
    ensures AnyActive(g)
  {
    var c :| IsFree(g, spots, c);
    assert c[0] < |g| && Active(g, c[0]);
  }

  /**
   How the loop ends for every graph, every choice of explicit positions and every number of sweeps
   that is not too small. It ends normally exactly if every cycle has an explicit position on it; a cycle
   without one is reported only if nobody at all can be placed.
   */
  lemma {:induction false} EndingFromPins(g: seq<Node>, spots: seq<Spot>, budget: nat)
    requires Valid(g) && |spots| == |g| && budget > |Waiting(g, spots)|
    ensures Run(g, spots, budget) == NoSuchOutput <==> !AllTargetsKnown(g)
    ensures Run(g, spots, budget).Placed? <==> AllTargetsKnown(g) && !HasFreeCycle(g, spots)
    ensures Run(g, spots, budget) == LoopReported <==> AllTargetsKnown(g) && AnyActive(g) && !Tied(g, spots)
    ensures Run(g, spots, budget) == StillRunning <==>
      AllTargetsKnown(g) && HasFreeCycle(g, spots) && Tied(g, spots)
  {
    SweepMissing(g, spots, |g|);
    if AllTargetsKnown(g) {
      if !Tied(g, spots) {
        UntiedSweep(g, spots, |g|);
        if AnyActive(g) { UntiedIsFree(g, spots); }
        if HasFreeCycle(g, spots) { FreeCycleIsActive(g, spots); }
      } else if HasFreeCycle(g, spots) {
        var c :| IsFree(g, spots, c);
        TiedFreeCycleNeverEnds(g, spots, c, budget);
        FreeCycleIsActive(g, spots);
      } else {
        EndsWithoutFreeCycle(g, spots, budget);
      }
    }
  }

  /** The loop can end normally: all names are known, and every cycle has an explicit position on it. */
  ghost predicate Placeable(g: seq<Node>, spots: seq<Spot>)
    requires Valid(g) && |spots| == |g|
  {
    AllTargetsKnown(g) && !HasFreeCycle(g, spots)
  }

  /** As many sweeps as outputs are always enough. */
  lemma {:induction false} EndsWithinCount(g: seq<Node>, spots: seq<Spot>, budget: nat)
    requires Valid(g) && |spots| == |g| && budget > 0 && budget >= |g|
    ensures Run(g, spots, budget).Placed? <==> Placeable(g, spots)
  {
    WaitingCount(g, spots);
    if NonePlaced(g, spots) {
      LoopEnding(g, spots, budget);
      FreeIfNonePlaced(g, spots);
    } else {
      var k :| 0 <= k < |g| && Active(g, k) && spots[k].placed;
      var none := seq(|g|, i requires 0 <= i < |g| => spots[i].(placed := false));
      WaitingCount(g, none);
      assert k in Waiting(g, none);
      ProperSubsetCount(Waiting(g, spots), Waiting(g, none));
      EndingFromPins(g, spots, budget);
    }
  }

  lemma {:induction false} FreeIfNonePlaced(g: seq<Node>, spots: seq<Spot>)
    requires Valid(g) && |spots| == |g| && NonePlaced(g, spots)
    ensures HasFreeCycle(g, spots) <==> HasCycle(g)
  {
    forall c | IsCycle(g, c) ensures IsFree(g, spots, c) {}
  }

  // ----- which relations hold then -----

  /** An output that has followed so many targets, and whether it counts as placed. */
  datatype Mark = Mark(hops: nat, placed: bool)

  predicate MarkReady(g: seq<Node>, marks: seq<Mark>, t: nat)
    requires |marks| == |g| && t < |g|
  {
    !Active(g, t) || marks[t].placed
  }

  /** A visit, as far as it depends on no position. */
  function MarkVisit(g: seq<Node>, marks: seq<Mark>, k: nat): (after: seq<Mark>)
    requires Valid(g) && AllTargetsKnown(g) && |marks| == |g| && k < |g|
    ensures |after| == |g|
  {
    if !Active(g, k) || !MarkReady(g, marks, g[k].target.value) then marks
    else marks[k := Mark(marks[g[k].target.value].hops + 1, true)]
  }

  function MarkSweep(g: seq<Node>, marks: seq<Mark>, n: nat): (after: seq<Mark>)
    requires Valid(g) && AllTargetsKnown(g) && |marks| == |g| && n <= |g|
    ensures |after| == |g|
  {
    if n == 0 then marks else MarkVisit(g, MarkSweep(g, marks, n - 1), n - 1)
  }

  /** Somebody among the first `n` finds its target waiting in this sweep. */
  predicate MarkWaits(g: seq<Node>, marks: seq<Mark>, n: nat)
    requires Valid(g) && AllTargetsKnown(g) && |marks| == |g| && n <= |g|
  {
    n > 0 && (MarkWaits(g, marks, n - 1)
              || (Active(g, n - 1) && !MarkReady(g, MarkSweep(g, marks, n - 1), g[n - 1].target.value)))
  }

  function MarksAfter(g: seq<Node>, pinned: seq<bool>, sweeps: nat): (marks: seq<Mark>)
    requires Valid(g) && AllTargetsKnown(g) && |pinned| == |g|
    ensures |marks| == |g|
  {
    if sweeps == 0 then seq(|g|, k requires 0 <= k < |g| => Mark(0, pinned[k]))
    else MarkSweep(g, MarksAfter(g, pinned, sweeps - 1), |g|)
  }

  /** Sweep `s` is the first in which nobody finds a target waiting. */
  ghost predicate EndsAfter(g: seq<Node>, pinned: seq<bool>, s: nat)
    requires Valid(g) && AllTargetsKnown(g) && |pinned| == |g|
  {
    && s > 0 && !MarkWaits(g, MarksAfter(g, pinned, s - 1), |g|)
    && forall r: nat {:trigger MarksAfter(g, pinned, r)} :: r < s - 1 ==> MarkWaits(g, MarksAfter(g, pinned, r), |g|)
  }

  /** So many steps beyond an output: where they end (`None`: at an output that is off), and how far away. */
  datatype Way = Way(end: Option<nat>, dx: int, dy: int)

  /** One step: from an output to its target. */
  function Step(g: seq<Node>, k: nat, rest: Way): Way
    requires Valid(g) && k < |g| && g[k].target.Some?
  {
    var t := g[k].target.value;
    if !g[t].enabled then Way(None, 0, 0)
    else
      var step := Beside(g[k], g[t], Spot(0, 0, true));
      Way(rest.end, rest.dx + step.x, rest.dy + step.y)
  }

  function WayFrom(g: seq<Node>, k: nat, hops: nat): (way: Way)
    requires Valid(g) && AllTargetsKnown(g) && k < |g|
    ensures way.end.Some? ==> way.end.value < |g|
    decreases hops
  {
    if hops == 0 || !Active(g, k) then Way(Some(k), 0, 0) else Step(g, k, WayFrom(g, g[k].target.value, hops - 1))
  }

  /** The spot stands at the end of the way. */
  predicate StandsAt(spot: Spot, way: Way, start: seq<Spot>)
    requires way.end.Some? ==> way.end.value < |start|
  {
    match way.end
    case None => spot.x == way.dx && spot.y == way.dy
    case Some(end) => spot.x == start[end].x + way.dx && spot.y == start[end].y + way.dy
  }

  /** Everybody stands where the targets followed so far lead, as seen from the spots at the start. */
  ghost predicate Follows(g: seq<Node>, start: seq<Spot>, spots: seq<Spot>, marks: seq<Mark>)
    requires Valid(g) && AllTargetsKnown(g) && |start| == |g|
  {
    && |spots| == |marks| == |g|
    && forall k {:trigger spots[k]} {:trigger marks[k]} :: 0 <= k < |g| ==>
         && StandsAt(spots[k], WayFrom(g, k, marks[k].hops), start)
         && (Active(g, k) ==> (spots[k].placed <==> marks[k].placed))
  }

  /** Beside a spot that a way leads to is where the way with one more step leads. */
  lemma {:induction false} StepStands(g: seq<Node>, start: seq<Spot>, k: nat, at: Spot, rest: Way)
    requires Valid(g) && k < |g| && g[k].target.Some? && g[g[k].target.value].enabled
    requires (rest.end.Some? ==> rest.end.value < |start|) && StandsAt(at, rest, start)
    ensures StandsAt(Beside(g[k], g[g[k].target.value], at), Step(g, k, rest), start)
  {}

  lemma {:induction false} VisitFollows(g: seq<Node>, start: seq<Spot>, now: Sweep, marks: seq<Mark>, k: nat)
    requires Valid(g) && AllTargetsKnown(g) && |start| == |g| && k < |g|
    requires now.Sweep? && Follows(g, start, now.spots, marks)
    ensures var after := Visit(g, now, k);
      && after.Sweep? && Follows(g, start, after.spots, MarkVisit(g, marks, k))
      && (after.keepGoing <==> now.keepGoing || (Active(g, k) && !MarkReady(g, marks, g[k].target.value)))
  {
    if Active(g, k) {
      var t := g[k].target.value;
      var at := now.spots[t];
      assert MarkReady(g, marks, t) == Ready(g, now.spots, t);
      if MarkReady(g, marks, t) && g[t].enabled {
        StepStands(g, start, k, at, WayFrom(g, t, marks[t].hops));
      }
    }
  }

  lemma {:induction false} SweepFollows(g: seq<Node>, start: seq<Spot>, spots: seq<Spot>, marks: seq<Mark>, n: nat)
    requires Valid(g) && AllTargetsKnown(g) && |start| == |g| && n <= |g| && Follows(g, start, spots, marks)
    ensures var after := SweepTo(g, spots, n);
      && after.Sweep? && Follows(g, start, after.spots, MarkSweep(g, marks, n))
      && (after.keepGoing <==> MarkWaits(g, marks, n))
  {
    if n > 0 {
      SweepFollows(g, start, spots, marks, n - 1);
      VisitFollows(g, start, SweepTo(g, spots, n - 1), MarkSweep(g, marks, n - 1), n - 1);
    }
  }

  lemma {:induction false} AfterFollows(g: seq<Node>, pinned: seq<bool>, start: seq<Spot>, sweeps: nat)
    requires Valid(g) && AllTargetsKnown(g) && Pins(g, start, pinned)
    ensures Follows(g, start, SpotsAfter(g, start, sweeps), MarksAfter(g, pinned, sweeps))
  {
    if sweeps > 0 {
      AfterFollows(g, pinned, start, sweeps - 1);
      SweepFollows(g, start, SpotsAfter(g, start, sweeps - 1), MarksAfter(g, pinned, sweeps - 1), |g|);
    }
  }

  /** The loop, if it ends normally, does so after a number of sweeps that the pins determine. */
  lemma {:induction false} RunEndsAfter(g: seq<Node>, pinned: seq<bool>, start: seq<Spot>, made: nat, budget: nat)
    returns (s: nat)
    requires Valid(g) && AllTargetsKnown(g) && Pins(g, start, pinned)
    requires Run(g, SpotsAfter(g, start, made), budget).Placed?
    requires forall r: nat {:trigger MarksAfter(g, pinned, r)} :: r < made ==>
      MarkWaits(g, MarksAfter(g, pinned, r), |g|)
    ensures EndsAfter(g, pinned, s) && Run(g, SpotsAfter(g, start, made), budget).spots == SpotsAfter(g, start, s)
    decreases budget
  {
    AfterFollows(g, pinned, start, made);
    SweepFollows(g, start, SpotsAfter(g, start, made), MarksAfter(g, pinned, made), |g|);
    var next := made + 1;
    assert SpotsAfter(g, start, next) == SweepTo(g, SpotsAfter(g, start, made), |g|).spots;
    if MarkWaits(g, MarksAfter(g, pinned, made), |g|) {
      s := RunEndsAfter(g, pinned, start, next, budget - 1);
    } else {
      s := next;
    }
  }

  lemma {:induction false} EndsOnce(g: seq<Node>, pinned: seq<bool>, r: nat, s: nat)
    requires Valid(g) && AllTargetsKnown(g) && |pinned| == |g| && EndsAfter(g, pinned, r) && EndsAfter(g, pinned, s)
    ensures r == s
  {}

  /** In a sweep without waiting everybody with a relation follows its target. */
  lemma {:induction false} LastSweepFollows(g: seq<Node>, marks: seq<Mark>, n: nat)
    requires Valid(g) && AllTargetsKnown(g) && |marks| == |g| && n <= |g| && !MarkWaits(g, marks, n)
    ensures forall k :: 0 <= k < n && Active(g, k) ==> MarkSweep(g, marks, n)[k].hops > 0
  {
    if n > 0 { LastSweepFollows(g, marks, n - 1); }
  }

  /** The target of `k` has come just so far that `k` stands beside it, or round a cycle and back to there. */
  predicate Meets(g: seq<Node>, marks: seq<Mark>, k: nat)
    requires Valid(g) && AllTargetsKnown(g) && |marks| == |g| && k < |g| && g[k].target.Some? && marks[k].hops > 0
  {
    var t := g[k].target.value;
    WayFrom(g, t, marks[t].hops) == WayFrom(g, t, marks[k].hops - 1)
  }

  /** The spots follow the marks, and the relation of `k` holds exactly if its target is where its own way led. */
  ghost predicate HoldsAsFollowed(g: seq<Node>, start: seq<Spot>, spots: seq<Spot>, marks: seq<Mark>, k: nat)
    requires Valid(g) && AllTargetsKnown(g) && |start| == |g| && Bound(g, k)
  {
    && Follows(g, start, spots, marks) && marks[k].hops > 0
    && var t := g[k].target.value;
       Holds(g, spots, k) <==> StandsAt(spots[t], WayFrom(g, t, marks[k].hops - 1), start)
  }

  /** The relation of `k` holds after `s` sweeps from all explicit positions. */
  ghost predicate HoldsFromAll(g: seq<Node>, pinned: seq<bool>, s: nat, k: nat)
    requires Valid(g) && AllTargetsKnown(g) && Bound(g, k)
  {
    forall start {:trigger SpotsAfter(g, start, s)} :: Pins(g, start, pinned) ==> Holds(g, SpotsAfter(g, start, s), k)
  }

  lemma {:induction false} HoldsIffMet(g: seq<Node>, start: seq<Spot>, spots: seq<Spot>, marks: seq<Mark>, k: nat)
    requires Valid(g) && AllTargetsKnown(g) && |start| == |g| && Bound(g, k)
    requires Follows(g, start, spots, marks) && marks[k].hops > 0
    ensures HoldsAsFollowed(g, start, spots, marks, k) && (Meets(g, marks, k) ==> Holds(g, spots, k))
  {
    var t := g[k].target.value;
    assert StandsAt(spots[k], WayFrom(g, k, marks[k].hops), start);
    assert WayFrom(g, k, marks[k].hops) == Step(g, k, WayFrom(g, t, marks[k].hops - 1));
  }

  /** Two ways that end at the same place from these two starts, and so from all, are the same. */
  lemma {:induction false} SameEverywhere(a: Way, b: Way, start: seq<Spot>, other: seq<Spot>, j: nat,
                                          at: Spot, at2: Spot)
    requires (a.end.Some? ==> a.end.value < |start|) && (b.end.Some? ==> b.end.value < |start|)
    requires forall i :: 0 <= i < |start| ==> start[i].x == 0 && start[i].y == 0
    requires j < |start| && |other| == |start| && (a.end == Some(j) || (a.end.None? && b.end == Some(j)))
    requires forall i :: 0 <= i < |start| ==> other[i].x == (if i == j then 1 else 0) && other[i].y == 0
    requires StandsAt(at, a, start) && StandsAt(at, b, start)
    requires StandsAt(at2, a, other) && StandsAt(at2, b, other)
    ensures a == b
  {}

  /**
   The condition, for every graph whose loop ends normally, cycles included, and every relation of it:
   it holds at the end for all explicit positions exactly if it `Meets`, which depends on the order of the
   list, the relations, the sizes and which outputs are pinned.
   */
  lemma {:induction false} HoldsExactlyWhenMet(g: seq<Node>, pinned: seq<bool>, s: nat, k: nat)
    requires Valid(g) && AllTargetsKnown(g) && |pinned| == |g| && EndsAfter(g, pinned, s) && Bound(g, k)
    ensures MarksAfter(g, pinned, s)[k].hops > 0
    ensures HoldsFromAll(g, pinned, s, k) <==> Meets(g, MarksAfter(g, pinned, s), k)
  {
    var marks := MarksAfter(g, pinned, s);
    LastSweepFollows(g, MarksAfter(g, pinned, s - 1), |g|);
    forall start | Pins(g, start, pinned)
      ensures HoldsAsFollowed(g, start, SpotsAfter(g, start, s), marks, k)
      ensures Meets(g, marks, k) ==> Holds(g, SpotsAfter(g, start, s), k)
    {
      AfterFollows(g, pinned, start, s);
      HoldsIffMet(g, start, SpotsAfter(g, start, s), marks, k);
    }
    if HoldsFromAll(g, pinned, s, k) {
      AlwaysHoldingMeets(g, pinned, s, k, marks);
    }
  }

  lemma {:induction false} AlwaysHoldingMeets(g: seq<Node>, pinned: seq<bool>, s: nat, k: nat, marks: seq<Mark>)
    requires Valid(g) && AllTargetsKnown(g) && |pinned| == |g| == |marks| && Bound(g, k) && marks[k].hops > 0
    requires HoldsFromAll(g, pinned, s, k)
    requires forall start {:trigger SpotsAfter(g, start, s)} :: Pins(g, start, pinned) ==>
      HoldsAsFollowed(g, start, SpotsAfter(g, start, s), marks, k)
    ensures Meets(g, marks, k)
  {
    var t := g[k].target.value;
    var a, b := WayFrom(g, t, marks[t].hops), WayFrom(g, t, marks[k].hops - 1);
    var start := seq(|g|, i requires 0 <= i < |g| => Spot(0, 0, pinned[i]));
    assert Pins(g, start, pinned);
    var at := SpotsAfter(g, start, s)[t];
    assert StandsAt(at, a, start) && StandsAt(at, b, start);
    if a.end.Some? || b.end.Some? {
      var j := if a.end.Some? then a.end.value else b.end.value;
      var other := start[j := Spot(1, 0, pinned[j])];
      assert Pins(g, other, pinned);
      var at2 := SpotsAfter(g, other, s)[t];
      assert StandsAt(at2, a, other) && StandsAt(at2, b, other);
      SameEverywhere(a, b, start, other, j, at, at2);
    }
  }

  /** With these pins the loop ends after sweeps in which everybody comes to stand beside its target. */
  ghost predicate AllMeet(g: seq<Node>, pinned: seq<bool>)
    requires Valid(g) && |pinned| == |g|
  {
    AllTargetsKnown(g) && exists s :: AllMeetAfter(g, pinned, s)
  }

  ghost predicate AllMeetAfter(g: seq<Node>, pinned: seq<bool>, s: nat)
    requires Valid(g) && |pinned| == |g| && AllTargetsKnown(g)
  {
    && EndsAfter(g, pinned, s)
    && forall k: nat {:trigger Bound(g, k)} :: Bound(g, k) ==>
         MarksAfter(g, pinned, s)[k].hops > 0 && Meets(g, MarksAfter(g, pinned, s), k)
  }

  lemma {:induction false} FreeForEver(g: seq<Node>, start: seq<Spot>, c: seq<nat>, sweeps: nat)
    requires Valid(g) && |start| == |g| && AllTargetsKnown(g) && IsFree(g, start, c)
    ensures IsFree(g, SpotsAfter(g, start, sweeps), c)
  {
    if sweeps > 0 {
      FreeForEver(g, start, c, sweeps - 1);
      SweepMissing(g, SpotsAfter(g, start, sweeps - 1), |g|);
      FreeCycleWaits(g, SpotsAfter(g, start, sweeps - 1), c, |g|);
    }
  }

  lemma {:induction false} FreeCycleMarked(g: seq<Node>, pinned: seq<bool>, start: seq<Spot>, c: seq<nat>, made: nat)
    requires Valid(g) && AllTargetsKnown(g) && Pins(g, start, pinned) && IsFree(g, start, c)
    ensures MarkWaits(g, MarksAfter(g, pinned, made), |g|)
  {
    var now := SpotsAfter(g, start, made);
    FreeForEver(g, start, c, made);
    AfterFollows(g, pinned, start, made);
    SweepFollows(g, start, now, MarksAfter(g, pinned, made), |g|);
    assert Active(g, c[0]);
    FreeCycleWaits(g, now, c, |g|);
  }

  /** If the marks come to an end, so does the loop. */
  lemma {:induction false} EndedRun(g: seq<Node>, pinned: seq<bool>, start: seq<Spot>, s: nat) returns (budget: nat)
    requires Valid(g) && AllTargetsKnown(g) && Pins(g, start, pinned) && EndsAfter(g, pinned, s)
    ensures Run(g, start, budget) == Placed(SpotsAfter(g, start, s))
  {
    if HasFreeCycle(g, start) {
      var c :| IsFree(g, start, c);
      FreeCycleMarked(g, pinned, start, c, s - 1);
    }
    budget := |Waiting(g, start)| + 1;
    EndsWithoutFreeCycle(g, start, budget);
    var end := RunEndsAfter(g, pinned, start, 0, budget);
    EndsOnce(g, pinned, s, end);
  }

  /** For every graph whose loop ends: all relations hold for all explicit positions exactly if all meet. */
  lemma {:induction false} HoldExactlyWhenAllMeet(g: seq<Node>, pinned: seq<bool>, s: nat)
    requires Valid(g) && AllTargetsKnown(g) && |pinned| == |g| && EndsAfter(g, pinned, s)
    ensures AlwaysHold(g, pinned) <==> AllMeet(g, pinned)
  {
    forall k: nat | Bound(g, k)
      ensures MarksAfter(g, pinned, s)[k].hops > 0
      ensures HoldsFromAll(g, pinned, s, k) <==> Meets(g, MarksAfter(g, pinned, s), k)
    {
      HoldsExactlyWhenMet(g, pinned, s, k);
    }
    if AllMeet(g, pinned) {
      forall spots, budget: nat | Pins(g, spots, pinned) && Run(g, spots, budget).Placed?
        ensures AllHold(g, Run(g, spots, budget).spots)
      {
        MetHoldsAtEnd(g, pinned, spots, budget);
      }
    }
    if AlwaysHold(g, pinned) {
      forall k: nat, start | Bound(g, k) && Pins(g, start, pinned) ensures Holds(g, SpotsAfter(g, start, s), k) {
        var budget := EndedRun(g, pinned, start, s);
        assert Run(g, start, budget).Placed?;
      }
      forall k: nat | Bound(g, k) ensures HoldsFromAll(g, pinned, s, k) {}
      assert AllMeetAfter(g, pinned, s);
    }
  }

  lemma {:induction false} MetHoldsAtEnd(g: seq<Node>, pinned: seq<bool>, spots: seq<Spot>, budget: nat)
    requires Valid(g) && Pins(g, spots, pinned) && AllMeet(g, pinned) && Run(g, spots, budget).Placed?
    ensures AllHold(g, Run(g, spots, budget).spots)
  {
    var s :| AllMeetAfter(g, pinned, s);
    var end := RunEndsAfter(g, pinned, spots, 0, budget);
    EndsOnce(g, pinned, s, end);
    forall k: nat | Bound(g, k) ensures Holds(g, SpotsAfter(g, spots, s), k) {
      HoldsExactlyWhenMet(g, pinned, s, k);
    }
  }

  function Pair(back: Relation): (g: seq<Node>)
    ensures Valid(g)
  {
    [Node(true, true, Some(1), RightOf, 100, 100), Node(true, true, Some(0), back, 100, 100)]
  }

  /** Two outputs beside each other, one with a position: the loop ends well if they mean the same thing, */
  lemma {:induction false} PairAgrees(budget: nat)
    requires budget >= 2
    ensures var g := Pair(LeftOf);
      && Run(g, [At(500), FREE], budget) == Placed([At(500), At(400)])
      && Bound(g, 0) && Holds(g, [At(500), At(400)], 0) && Bound(g, 1) && Holds(g, [At(500), At(400)], 1)
  {
    var g := Pair(LeftOf);
    assert SweepTo(g, [At(500), FREE], 1) == Sweep([At(500), FREE], true, false);
    assert SweepTo(g, [At(500), FREE], 2) == Sweep([At(500), At(400)], true, true);
    assert SweepTo(g, [At(500), At(400)], 1) == Sweep([At(500), At(400)], false, true);
    assert SweepTo(g, [At(500), At(400)], 2) == Sweep([At(500), At(400)], false, true);
  }

  /** and if they contradict each other, without a complaint and with a relation that fails. */
  lemma {:induction false} PairContradicts(budget: nat)
    requires budget >= 2
    ensures var g := Pair(RightOf);
      && Run(g, [At(500), FREE], budget) == Placed([At(700), At(800)])
      && Bound(g, 0) && !Holds(g, [At(700), At(800)], 0)
  {
    var g := Pair(RightOf);
    assert SweepTo(g, [At(500), FREE], 1) == Sweep([At(500), FREE], true, false);
    assert SweepTo(g, [At(500), FREE], 2) == Sweep([At(500), At(600)], true, true);
    assert SweepTo(g, [At(500), At(600)], 1) == Sweep([At(700), At(600)], false, true);
    assert SweepTo(g, [At(500), At(600)], 2) == Sweep([At(700), At(800)], false, true);
  }
}
