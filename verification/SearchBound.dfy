/**
 Why the search needs at most 1000 enabled outputs to light as many as it can: from 1001 on there are
 set-ups where it keeps 1000 CRTCs at the price of a dark output.
 */
module SearchBound {
  import opened RandR
  import opened CrtcSearch
  import opened Records
  import PickCrtcs

  const MODE := Mode(1, 0, 0)

  /**
   `n` outputs, each on a CRTC of its own that it can only swap for the next one, and one output
   more that can only take the first CRTC. Nothing can be shared, and all CRTCs are idle.
   */
  function Chain(n: nat): (p: Problem)
    ensures |p.heads| == n + 1 == |p.wants|
  {
    Problem(
      seq(n + 1, i requires 0 <= i <= n => Head(i + 1, OFF)), [MODE],
      seq(n + 1, k requires 0 <= k <= n =>
        if k < n then Want(k + 1, Some(MODE), 0, 0, UPRIGHT, [k + 1, k + 2], [], Some(k))
        else Want(n + 1, Some(MODE), 0, 0, UPRIGHT, [1], [], None)))
  }

  /** Everyone moves on by one, and the last output is lit. */
  function Moved(n: nat): (a: seq<Choice>)
    ensures |a| == n + 1
  {
    seq(n + 1, k requires 0 <= k <= n => if k < n then Some(k + 1) else Some(0))
  }

  /** Everyone stays, and the last output is dark. */
  function Stayed(n: nat): (a: seq<Choice>)
    ensures |a| == n + 1
  {
    seq(n + 1, k requires 0 <= k <= n => if k < n then Some(k) else None)
  }

  lemma MovedIsFeasible(n: nat)
    ensures Feasible(Chain(n), Moved(n)) && LightsAll(Chain(n), Moved(n))
  {
    var p, a := Chain(n), Moved(n);
    forall k | 0 <= k <= n ensures ChoiceOk(p, a[..k], a[k]) {
      var c := if k < n then k + 1 else 0;
      assert p.heads[c].xid == c + 1;
      assert p.wants[k].crtcs[if k < n then 1 else 0] == c + 1;
    }
  }

  lemma StayedIsFeasible(n: nat)
    ensures Feasible(Chain(n), Stayed(n))
  {
    var p, a := Chain(n), Stayed(n);
    forall k | 0 <= k <= n ensures ChoiceOk(p, a[..k], a[k]) {
      if k < n {
        assert p.heads[k].xid == k + 1;
        assert p.wants[k].crtcs[0] == k + 1;
      }
    }
  }

  /** Who lights all has moved everyone. */
  lemma {:induction false} AllLitMoves(n: nat, a: seq<Choice>, k: nat)
    requires Feasible(Chain(n), a) && LightsAll(Chain(n), a) && k < n
    ensures a[n] == Some(0) && a[k] == Some(k + 1)
  {
    var p := Chain(n);
    assert ChoiceOk(p, a[..n], a[n]) && ChoiceOk(p, a[..k], a[k]);
    assert p.wants[n].mode.Some? && p.wants[k].mode.Some?;
    if k == 0 {
      assert CanShare(p, n, 0, 0, a[..n][0]);
    } else {
      AllLitMoves(n, a, k - 1);
      assert a[k] == Some(k) ==> CanShare(p, k, k, k - 1, a[..k][k - 1]);
    }
  }

  lemma {:induction false} MovedScore(n: nat, k: nat)
    requires k <= n
    ensures Score(Chain(n), k, Moved(n)[k..]) == 1000 * (n + 1 - k)
    decreases n - k
  {
    var a := Moved(n);
    assert a[k..][1..] == a[k + 1..];
    if k < n { MovedScore(n, k + 1); }
  }

  lemma {:induction false} StayedScore(n: nat, k: nat)
    requires k <= n
    ensures Score(Chain(n), k, Stayed(n)[k..]) == 1001 * (n - k)
    decreases n - k
  {
    var a := Stayed(n);
    assert a[k..][1..] == a[k + 1..];
    if k < n { StayedScore(n, k + 1); }
  }

  lemma AllLitIsMoved(n: nat, a: seq<Choice>)
    requires n > 0 && Feasible(Chain(n), a) && LightsAll(Chain(n), a)
    ensures a == Moved(n)
  {
    forall k | 0 <= k <= n ensures a[k] == Moved(n)[k] {
      AllLitMoves(n, a, if k < n then k else 0);
    }
  }

  lemma MovedLoses(n: nat)
    requires n >= 1000
    ensures !Beats(Chain(n), 0, Moved(n), Stayed(n))
  {
    MovedScore(n, 0);
    StayedScore(n, 0);
    assert Moved(n)[0..] == Moved(n) && Stayed(n)[0..] == Stayed(n);
    var p := Chain(n);
    assert p.wants[0].crtcs == [1, 2] && p.heads[0].xid == 1 && p.heads[1].xid == 2;
    var list: seq<Xid> := p.wants[0].crtcs;
    assert list[0] == 1 && list[1] == 2;
    assert IndexOf(list, 1) == 0 && IndexOf(list, 2) == 1;
  }

  /** No output of the chain lists an unknown CRTC. */
  lemma {:induction false} ChainIsKnown(n: nat, k: nat)
    requires k <= n + 1
    ensures DistinctHeads(Chain(n)) && !UnknownCrtc(Chain(n), k)
    decreases n + 1 - k
  {
    if k <= n {
      ChainIsKnown(n, k + 1);
      var p := Chain(n);
      var list := p.wants[k].crtcs;
      assert p.heads[list[0] - 1].xid == list[0];
      assert |list| > 1 ==> p.heads[list[1] - 1].xid == list[1];
      assert HasHead(p, list[0]) && (|list| > 1 ==> HasHead(p, list[1]));
      assert FirstExist(p, k, 0) && FirstExist(p, k, 1);
    }
  }

  /** From 1001 enabled outputs on, the best assignment may leave one dark that another would light. */
  lemma BoundIsSharp(n: nat, best: seq<Choice>)
    requires n >= 1000 && |best| == n + 1 && IsBest(Chain(n), [], best)
    ensures Enabled(Chain(n), 0) == n + 1
    ensures Feasible(Chain(n), Moved(n)) && LightsAll(Chain(n), Moved(n)) && !LightsAll(Chain(n), best)
  {
    EnabledAll(n, 0);
    MovedIsFeasible(n);
    StayedIsFeasible(n);
    FeasibleCompletes(Chain(n), best);
    FeasibleCompletes(Chain(n), Stayed(n));
    MovedLoses(n);
    if LightsAll(Chain(n), best) { AllLitIsMoved(n, best); }
  }

  lemma {:induction false} EnabledAll(n: nat, k: nat)
    requires k <= n + 1
    ensures Enabled(Chain(n), k) == n + 1 - k
    decreases n + 1 - k
  {
    if k <= n { EnabledAll(n, k + 1); }
  }

  /** From 1001 enabled outputs on there is such a best assignment. */
  lemma BoundIsReached(n: nat) returns (best: seq<Choice>)
    requires n >= 1000
    ensures |best| == n + 1 && IsBest(Chain(n), [], best) && !LightsAll(Chain(n), best)
  {
    ChainIsKnown(n, 0);
    best := BestExists(Chain(n), []);
    BoundIsSharp(n, best);
  }

  // ----- the chain in the program's records -----

  /** Output `o` asks for what the chain's `k`-th one wants, apart from the CRTC it would rather keep. */
  ghost predicate Asks(o: Output, want: Want)
    reads o`modeInfo, o`x, o`y, o`rotation
  {
    && o.xid == want.xid && o.modeInfo == want.mode && o.x == want.x && o.y == want.y
    && o.rotation == want.rotation && o.info.crtcs == want.crtcs && o.info.clones == want.clones
  }

  /** The CRTCs are idle, and the outputs ask for what those of the chain want. */
  ghost predicate AsksChain(outs: seq<Output>, crtcs: seq<Crtc>, n: nat)
    reads outs`modeInfo, outs`x, outs`y, outs`rotation
  {
    && |outs| == n + 1 == |crtcs|
    && (forall c {:trigger crtcs[c]} :: 0 <= c <= n ==> crtcs[c].xid == c + 1 && crtcs[c].info == OFF)
    && (forall k {:trigger outs[k]} :: 0 <= k <= n ==> Asks(outs[k], Chain(n).wants[k]))
  }

  /** All outputs are to be switched on, all but the last on a CRTC asked for. */
  ghost predicate ShowsChain(outs: seq<Output>, crtcs: seq<Crtc>, n: nat)
    reads outs
  {
    && AsksChain(outs, crtcs, n)
    && (forall k {:trigger outs[k]} :: 0 <= k <= n ==>
          outs[k].crtcInfo == Chain(n).wants[k].current && outs[k].changes != {})
  }

  /** The first pass gets stuck at the last output, whose only CRTC is the first output's. */
  lemma ChainGetsStuck(outs: seq<Output>, crtcs: seq<Crtc>, modes: seq<Mode>, n: nat)
    requires n > 0 && ShowsChain(outs, crtcs, n)
    ensures PickCrtcs.GetsStuck(outs, crtcs, modes, PickCrtcs.ChangesOf(outs), PickCrtcs.ChoicesOf(outs))
  {
    var was, before := PickCrtcs.ChangesOf(outs), PickCrtcs.ChoicesOf(outs);
    forall k | 0 <= k < n ensures PickCrtcs.MatchedUp(outs, crtcs, modes, was, k, before, before) {
      assert before[k] == outs[k].crtcInfo == Some(k) && crtcs[k].info == OFF;
    }
    assert before[n] == outs[n].crtcInfo && before[0] == outs[0].crtcInfo;
    assert crtcs[0].xid == 1 && outs[0].xid == 1;
    forall m | 0 <= m < |outs[n].info.crtcs|
      ensures var c := FindCrtc(crtcs, outs[n].info.crtcs[m]);
        c < |crtcs| && !PickCrtcs.Suits(outs, crtcs, modes, n, c, before)
    {
      assert outs[n].info.crtcs[m] == 1 && FindCrtc(crtcs, 1) == 0;
      assert outs[0].xid !in outs[n].info.clones;
    }
    assert PickCrtcs.StuckAt(outs, crtcs, modes, was, before, n, before);
  }

  /** It leaves every output as it is. */
  lemma ChainIsKept(outs: seq<Output>, crtcs: seq<Crtc>, modes: seq<Mode>, n: nat, kept: seq<Choice>)
    requires ShowsChain(outs, crtcs, n)
    requires PickCrtcs.LeavesStuck(outs, crtcs, modes, PickCrtcs.ChangesOf(outs), PickCrtcs.ChoicesOf(outs), kept)
    ensures kept == PickCrtcs.ChoicesOf(outs)
  {
    var was, before := PickCrtcs.ChangesOf(outs), PickCrtcs.ChoicesOf(outs);
    forall k | 0 <= k <= n ensures |kept| == |outs| && kept[k] == before[k] {
      PickCrtcs.StuckKeepsAt(outs, crtcs, modes, was, before, kept, k);
      assert before[k] == outs[k].crtcInfo;
      if k == n {
        var l: nat :| PickCrtcs.StuckAt(outs, crtcs, modes, was, before, l, kept);
        assert kept[n] == kept[l..][n - l] == before[l..][n - l];
      }
    }
  }

  lemma ChainIsPosed(outs: seq<Output>, crtcs: seq<Crtc>, n: nat)
    requires AsksChain(outs, crtcs, n)
    requires forall k {:trigger outs[k]} :: 0 <= k <= n ==> outs[k].currentCrtcInfo == Chain(n).wants[k].current
    ensures PickCrtcs.ProblemOf(outs, crtcs, [MODE]) == Chain(n)
  {
    var p := PickCrtcs.ProblemOf(outs, crtcs, [MODE]);
    forall c | 0 <= c <= n ensures p.heads[c] == Chain(n).heads[c] {
      assert crtcs[c].xid == c + 1;
    }
    forall k | 0 <= k <= n ensures p.wants[k] == Chain(n).wants[k] {
      assert Asks(outs[k], Chain(n).wants[k]);
    }
  }

  lemma ChainChoices(outs: seq<Output>, crtcs: seq<Crtc>, n: nat)
    requires ShowsChain(outs, crtcs, n)
    ensures PickCrtcs.ChoicesOf(outs) == CurrentsOfChain(n)
  {
    var before := PickCrtcs.ChoicesOf(outs);
    forall k | 0 <= k <= n ensures before[k] == CurrentsOfChain(n)[k] {
      assert before[k] == outs[k].crtcInfo;
    }
  }

  lemma ChainIsReady(outs: seq<Output>, crtcs: seq<Crtc>, n: nat)
    requires n > 0 && ShowsChain(outs, crtcs, n)
    ensures PickCrtcs.DistinctXids(crtcs) && PickCrtcs.InRange(PickCrtcs.ChoicesOf(outs), |crtcs|)
    ensures PickCrtcs.GetsStuck(outs, crtcs, [MODE], PickCrtcs.ChangesOf(outs), PickCrtcs.ChoicesOf(outs))
    ensures forall kept ::
      PickCrtcs.LeavesStuck(outs, crtcs, [MODE], PickCrtcs.ChangesOf(outs), PickCrtcs.ChoicesOf(outs), kept) ==>
        kept == CurrentsOfChain(n)
  {
    ChainChoices(outs, crtcs, n);
    ChainXids(crtcs, n);
    ChainGetsStuck(outs, crtcs, [MODE], n);
    forall kept |
      PickCrtcs.LeavesStuck(outs, crtcs, [MODE], PickCrtcs.ChangesOf(outs), PickCrtcs.ChoicesOf(outs), kept)
      ensures kept == CurrentsOfChain(n)
    {
      ChainIsKept(outs, crtcs, [MODE], n, kept);
    }
  }

  lemma ChainXids(crtcs: seq<Crtc>, n: nat)
    requires |crtcs| == n + 1 && forall c {:trigger crtcs[c]} :: 0 <= c <= n ==> crtcs[c].xid == c + 1
    ensures PickCrtcs.DistinctXids(crtcs)
  {
    assert forall i, j :: 0 <= i < j < |crtcs| ==> crtcs[i].xid != crtcs[j].xid;
  }

  function CurrentsOfChain(n: nat): (a: seq<Choice>)
    ensures |a| == n + 1
  {
    seq(n + 1, k requires 0 <= k <= n => Chain(n).wants[k].current)
  }

  /** The search over the chain fails, known CRTCs and a feasible assignment that lights all notwithstanding. */
  lemma ChainFails(outs: seq<Output>, crtcs: seq<Crtc>, n: nat, a: seq<Choice>)
    requires n >= 1000 && AsksChain(outs, crtcs, n) && PickCrtcs.CurrentsOf(outs) == CurrentsOfChain(n)
    ensures var p := PickCrtcs.ProblemOf(outs, crtcs, [MODE]);
      && !UnknownCrtc(p, 0) && |p.wants| == n + 1 && Feasible(p, Moved(n)) && LightsAll(p, Moved(n))
      && (PickCrtcs.BestAssignment(p, a) ==> !LightsAll(p, a))
  {
    forall k | 0 <= k <= n ensures outs[k].currentCrtcInfo == Chain(n).wants[k].current {
      assert PickCrtcs.CurrentsOf(outs)[k] == CurrentsOfChain(n)[k];
    }
    ChainIsPosed(outs, crtcs, n);
    ChainIsKnown(n, 0);
    MovedIsFeasible(n);
    if PickCrtcs.BestAssignment(Chain(n), a) {
      BoundIsSharp(n, a);
    }
  }

  /** What the program does when its first pass gets stuck and is known to leave `kept`. */
  method PickWhenStuck(outs: seq<Output>, crtcs: seq<Crtc>, modes: seq<Mode>, ghost kept: seq<Choice>)
    returns (r: PickCrtcs.PickResult)
    requires DistinctOutputs(outs) && PickCrtcs.DistinctXids(crtcs) && PickCrtcs.NothingPlanned(crtcs)
    requires PickCrtcs.InRange(PickCrtcs.ChoicesOf(outs), |crtcs|)
    requires PickCrtcs.GetsStuck(outs, crtcs, modes, PickCrtcs.ChangesOf(outs), PickCrtcs.ChoicesOf(outs))
    requires forall a ::
      PickCrtcs.LeavesStuck(outs, crtcs, modes, PickCrtcs.ChangesOf(outs), PickCrtcs.ChoicesOf(outs), a) ==> a == kept
    modifies outs`crtcInfo, outs`currentCrtcInfo, outs`changes
    ensures PickCrtcs.CurrentsOf(outs) == kept
    ensures var p, a := PickCrtcs.ProblemOf(outs, crtcs, modes), PickCrtcs.ChoicesOf(outs);
      && (r == PickCrtcs.NoSuchCrtc ==> UnknownCrtc(p, 0))
      && (r == PickCrtcs.Picked ==> PickCrtcs.BestAssignment(p, a) && LightsAll(p, a))
  {
    var searched;
    r, searched := PickCrtcs.PickCrtcs(outs, crtcs, modes);
  }

  /** The program finds no CRTC for an output of the chain, although all of them could be lit. */
  method PickForChain(outs: seq<Output>, crtcs: seq<Crtc>, n: nat) returns (r: PickCrtcs.PickResult)
    requires n >= 1000 && DistinctOutputs(outs) && ShowsChain(outs, crtcs, n) && PickCrtcs.NothingPlanned(crtcs)
    modifies outs`crtcInfo, outs`currentCrtcInfo, outs`changes
    ensures r.NoCrtcFor?
    ensures var p := PickCrtcs.ProblemOf(outs, crtcs, [MODE]);
      |p.wants| == n + 1 && Feasible(p, Moved(n)) && LightsAll(p, Moved(n))
  {
    ChainIsReady(outs, crtcs, n);
    r := PickWhenStuck(outs, crtcs, [MODE], CurrentsOfChain(n));
    ChainFails(outs, crtcs, n, PickCrtcs.ChoicesOf(outs));
  }
}
