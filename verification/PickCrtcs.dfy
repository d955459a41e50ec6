/**
 `pick_crtcs`: a first pass that matches newly enabled outputs with spare CRTCs, and the
 backtracking search it falls back to, which overwrites and rebuilds `crtcInfo` in the records.
 */
module PickCrtcs {
  import opened RandR
  import opened Records
  import opened CrtcSearch

  function WantOf(o: Output): Want
    reads o`modeInfo, o`x, o`y, o`rotation, o`currentCrtcInfo
  {
    Want(o.xid, o.modeInfo, o.x, o.y, o.rotation, o.info.crtcs, o.info.clones, o.currentCrtcInfo)
  }

  /** The records pose the problem `p`; before `set_crtcs` no CRTC has planned outputs. */
  ghost predicate Poses(outs: seq<Output>, crtcs: seq<Crtc>, modes: seq<Mode>, p: Problem)
    reads outs`modeInfo, outs`x, outs`y, outs`rotation, outs`currentCrtcInfo, crtcs`outputs
  {
    && DistinctOutputs(outs) && DistinctHeads(p) && p.modes == modes
    && |p.heads| == |crtcs| && |p.wants| == |outs|
    && (forall c {:trigger p.heads[c]} :: 0 <= c < |crtcs| ==>
          p.heads[c] == Head(crtcs[c].xid, crtcs[c].info) && crtcs[c].outputs == [])
    && (forall k {:trigger p.wants[k]} :: 0 <= k < |outs| ==> p.wants[k] == WantOf(outs[k]))
  }

  /** The outputs from `i` on currently have the choices `a`. */
  ghost predicate Chosen(outs: seq<Output>, i: nat, a: seq<Choice>)
    reads outs`crtcInfo
  {
    i + |a| <= |outs| && forall k :: 0 <= k < |a| ==> outs[i + k].crtcInfo == a[k]
  }

  /** Whether `crtcs[c]` can be used for output `k`, given all the other outputs' CRTCs. */
  method CheckCrtcForOutput(outs: seq<Output>, crtcs: seq<Crtc>, modes: seq<Mode>, k: nat, c: nat) returns (ok: bool)
    requires k < |outs| && c < |crtcs| && DistinctOutputs(outs)
    ensures ok <==>
      && crtcs[c].xid in outs[k].info.crtcs
      && (forall j :: 0 <= j < |outs| && j != k && outs[j].modeInfo.Some? && outs[j].crtcInfo == Some(c) ==>
            outs[j].xid in outs[k].info.clones)
      && (if crtcs[c].outputs != [] then
            && crtcs[c].modeInfo == outs[k].modeInfo && crtcs[c].x == outs[k].x && crtcs[c].y == outs[k].y
            && crtcs[c].rotation == outs[k].rotation && crtcs[c].currentTransform == outs[k].transform
          else crtcs[c].info.outputs != [] ==>
            && FindMode(modes, crtcs[c].info.mode) == outs[k].modeInfo
            && crtcs[c].info.x == outs[k].x && crtcs[c].info.y == outs[k].y
            && crtcs[c].info.rotation == outs[k].rotation)
  {
    var crtc, output := crtcs[c], outs[k];
    if crtc.xid !in output.info.crtcs {
      return false;
    }
    var j := 0;
    while j < |outs|
      invariant 0 <= j <= |outs|
      invariant forall i :: 0 <= i < j && i != k && outs[i].modeInfo.Some? && outs[i].crtcInfo == Some(c) ==>
        outs[i].xid in output.info.clones
    {
      var other := outs[j];
      if other != output && other.modeInfo.Some? && other.crtcInfo == Some(c) {
        if other.xid !in output.info.clones {
          return false;
        }
      }
      j := j + 1;
    }
    if crtc.outputs != [] {
      if crtc.modeInfo != output.modeInfo { return false; }
      if crtc.x != output.x { return false; }
      if crtc.y != output.y { return false; }
      if crtc.rotation != output.rotation { return false; }
      if crtc.currentTransform != output.transform { return false; }
    } else if crtc.info.outputs != [] {
      var mode := FindMode(modes, crtc.info.mode);
      if mode != output.modeInfo { return false; }
      if crtc.info.x != output.x { return false; }
      if crtc.info.y != output.y { return false; }
      if crtc.info.rotation != output.rotation { return false; }
    }
    return true;
  }

  /** The search for outputs `i` on has nothing of its own left in the records. */
  method DisableOutputs(outs: seq<Output>, i: nat)
    requires i <= |outs|
    modifies outs[i..]`crtcInfo
    ensures forall k :: i <= k < |outs| ==> outs[k].crtcInfo == None
  {
    var k := i;
    while k < |outs|
      invariant i <= k <= |outs|
      invariant forall j :: i <= j < k ==> outs[j].crtcInfo == None
    {
      assert outs[k] in outs[i..];
      outs[k].crtcInfo := None;
      k := k + 1;
    }
  }

  /** The search's use of the check: later outputs are off, so only earlier choices count. */
  method CheckInSearch(outs: seq<Output>, crtcs: seq<Crtc>, modes: seq<Mode>, i: nat, c: nat, ghost p: Problem,
                       ghost pre: seq<Choice>)
    returns (ok: bool)
    requires Poses(outs, crtcs, modes, p) && i < |outs| && c < |crtcs|
    requires |pre| == i && Chosen(outs, 0, pre) && outs[i].modeInfo.Some?
    requires forall k :: i < k < |outs| ==> outs[k].crtcInfo == None
    ensures ok <==> ChoiceOk(p, pre, Some(c))
  {
    ok := CheckCrtcForOutput(outs, crtcs, modes, i, c);
    assert p.wants[i] == WantOf(outs[i]) && p.heads[c] == Head(crtcs[c].xid, crtcs[c].info);
    assert forall j :: 0 <= j < i ==> pre[j] == outs[j].crtcInfo && p.wants[j] == WantOf(outs[j]);
    if CanShareAll(p, i, c, pre) {
      forall j | 0 <= j < |outs| && j != i && outs[j].modeInfo.Some? && outs[j].crtcInfo == Some(c)
        ensures outs[j].xid in outs[i].info.clones
      {
        assert j < i && CanShare(p, i, c, j, pre[j]);
      }
    }
  }

  /** The records hold the best completion of the earlier choices, and this is its score. */
  ghost predicate Rebuilt(outs: seq<Output>, p: Problem, pre: seq<Choice>, suf: seq<Choice>, score: nat)
    reads outs`crtcInfo
  {
    && |pre| + |suf| == |p.wants| && Chosen(outs, |pre|, suf)
    && IsBest(p, pre, suf) && score == Score(p, |pre|, suf)
  }

  ghost predicate CanShareAll(p: Problem, i: nat, c: nat, pre: seq<Choice>)
    requires i < |p.wants| && |pre| <= |p.wants|
  {
    forall j :: 0 <= j < |pre| && j != i ==> CanShare(p, i, c, j, pre[j])
  }

  /**
   The backtracking search over the outputs from `i` on, in place. `None` is the fatal error for a
   CRTC the server does not have. Otherwise it returns the highest score any feasible completion of
   the earlier choices reaches, and leaves in the records the completion that comes first among
   those that reach it, although every recursive call overwrote the rest of the list. By
   `CrtcSearch.BestUnique` nothing else about the records before the call matters.
   */
  method PickCrtcsScore(outs: seq<Output>, crtcs: seq<Crtc>, modes: seq<Mode>, i: nat,
                        ghost p: Problem, ghost pre: seq<Choice>)
    returns (r: Option<nat>, ghost suf: seq<Choice>)
    requires Poses(outs, crtcs, modes, p) && i == |pre| && Chosen(outs, 0, pre)
    modifies outs[i..]`crtcInfo
    ensures r.None? <==> UnknownCrtc(p, i)
    ensures r.Some? ==> Rebuilt(outs, p, pre, suf, r.value)
    ensures Chosen(outs, 0, pre)
    decreases |outs| - i, 5
  {
    if i == |outs| {
      return Some(0), [];
    }
    var output := outs[i];
    ghost var rest: seq<Choice>;
    r, rest := ChooseAndSearch(outs, crtcs, modes, i, output, None, p, pre);
    suf := [None] + rest;
    assert p.wants[i] == WantOf(output);
    if r.None? {
      return;
    }
    StartWithOff(p, pre, rest);
    if output.modeInfo.None? {
      return;
    }
    r, suf := TryCrtcs(outs, crtcs, modes, i, output, r.value, p, pre, suf);
  }

  /** Gives output `i` the choice `ch` and searches the rest; the earlier choices stand. */
  method ChooseAndSearch(outs: seq<Output>, crtcs: seq<Crtc>, modes: seq<Mode>, i: nat, output: Output, ch: Choice,
                         ghost p: Problem, ghost pre: seq<Choice>)
    returns (score: Option<nat>, ghost rest: seq<Choice>)
    requires Poses(outs, crtcs, modes, p) && i == |pre| < |outs| && Chosen(outs, 0, pre)
    requires output == outs[i]
    modifies outs[i..]`crtcInfo
    ensures Chosen(outs, 0, pre)
    ensures score.None? <==> UnknownCrtc(p, i + 1)
    ensures score.Some? ==> |pre| + 1 + |rest| == |outs| && Chosen(outs, i, [ch] + rest)
    ensures score.Some? ==> IsBest(p, pre + [ch], rest) && score.value == Score(p, i + 1, rest)
    decreases |outs| - i, 0
  {
    assert outs[i..][0] == output && outs[i + 1..] == outs[i..][1..];
    assert forall k :: 0 <= k < i ==> outs[k] != output;
    output.crtcInfo := ch;
    assert Chosen(outs, 0, pre + [ch]);
    score, rest := PickCrtcsScore(outs, crtcs, modes, i + 1, p, pre + [ch]);
    assert outs[i].crtcInfo == (pre + [ch])[i];
  }

  /** One CRTC of the list: if it is usable, take it and search the rest. */
  method TryCrtc(outs: seq<Output>, crtcs: seq<Crtc>, modes: seq<Mode>, i: nat, output: Output, c: nat,
                 ghost p: Problem, ghost pre: seq<Choice>)
    returns (ok: bool, score: nat, ghost rest: seq<Choice>)
    requires Poses(outs, crtcs, modes, p) && i == |pre| < |outs| && Chosen(outs, 0, pre) && c < |crtcs|
    requires output == outs[i] && output.modeInfo.Some? && !UnknownCrtc(p, i + 1)
    modifies outs[i..]`crtcInfo
    ensures ok <==> ChoiceOk(p, pre, Some(c))
    ensures ok ==> |pre| + 1 + |rest| == |outs| && IsBest(p, pre + [Some(c)], rest)
    ensures ok ==> score == Weight(p, i, Some(c)) + Score(p, i + 1, rest)
    ensures Chosen(outs, 0, pre)
    decreases |outs| - i, 1
  {
    assert outs[i + 1..] == outs[i..][1..];
    assert p.wants[i] == WantOf(output);
    DisableOutputs(outs, i + 1);
    score, rest := 0, [];
    ok := CheckInSearch(outs, crtcs, modes, i, c, p, pre);
    if ok {
      var myScore := 1000;
      if Some(c) == output.currentCrtcInfo { myScore := myScore + 1; }
      var found;
      found, rest := ChooseAndSearch(outs, crtcs, modes, i, output, Some(c), p, pre);
      score := myScore + found.value;
    }
  }

  /** The best completion so far, its score and its first choice, with `n` CRTCs tried. */
  ghost predicate BestSoFar(p: Problem, pre: seq<Choice>, n: nat, best: seq<Choice>, score: nat, crtc: Choice) {
    && |pre| + |best| == |p.wants| && best != [] && n <= |p.wants[|pre|].crtcs|
    && BestTried(p, pre, n, best) && score == Score(p, |pre|, best) && crtc == best[0]
  }

  /** It is the turn of output `i`, which is to be on, and the rest can be searched. */
  ghost predicate OnTurn(outs: seq<Output>, crtcs: seq<Crtc>, modes: seq<Mode>, i: nat, output: Output, p: Problem,
                         pre: seq<Choice>)
    reads outs`modeInfo, outs`x, outs`y, outs`rotation, outs`currentCrtcInfo, crtcs`outputs
  {
    && Poses(outs, crtcs, modes, p) && i == |pre| < |outs| && output == outs[i]
    && output.modeInfo.Some? && !UnknownCrtc(p, i + 1) && p.wants[i].crtcs == output.info.crtcs
  }

  /** Output `i`, to be on, tries every CRTC of its list against the best score with it off. */
  method TryCrtcs(outs: seq<Output>, crtcs: seq<Crtc>, modes: seq<Mode>, i: nat, output: Output, offScore: nat,
                  ghost p: Problem, ghost pre: seq<Choice>, ghost off: seq<Choice>)
    returns (r: Option<nat>, ghost best: seq<Choice>)
    requires OnTurn(outs, crtcs, modes, i, output, p, pre) && Chosen(outs, 0, pre)
    requires BestSoFar(p, pre, 0, off, offScore, None)
    modifies outs[i..]`crtcInfo
    ensures r.None? <==> !CrtcsExist(p, i)
    ensures r.Some? ==> Rebuilt(outs, p, pre, best, r.value)
    ensures Chosen(outs, 0, pre)
    decreases |outs| - i, 4
  {
    var known, bestScore, bestCrtc;
    known, bestScore, bestCrtc, best := TryAll(outs, crtcs, modes, i, output, offScore, p, pre, off);
    r := None;
    if known {
      TakeBest(outs, crtcs, modes, i, output, |output.info.crtcs|, bestScore, bestCrtc, p, pre, best);
      r := Some(bestScore);
    }
  }

  /** The loop over the CRTC list. */
  method TryAll(outs: seq<Output>, crtcs: seq<Crtc>, modes: seq<Mode>, i: nat, output: Output, offScore: nat,
                ghost p: Problem, ghost pre: seq<Choice>, ghost off: seq<Choice>)
    returns (known: bool, bestScore: nat, bestCrtc: Choice, ghost best: seq<Choice>)
    requires OnTurn(outs, crtcs, modes, i, output, p, pre) && Chosen(outs, 0, pre)
    requires BestSoFar(p, pre, 0, off, offScore, None)
    modifies outs[i..]`crtcInfo
    ensures known <==> CrtcsExist(p, i)
    ensures known ==> BestSoFar(p, pre, |output.info.crtcs|, best, bestScore, bestCrtc)
    ensures Chosen(outs, 0, pre)
    decreases |outs| - i, 3
  {
    known, bestScore, bestCrtc, best := true, offScore, None, off;
    var n := 0;
    while n < |output.info.crtcs|
      invariant n <= |output.info.crtcs| && BestSoFar(p, pre, n, best, bestScore, bestCrtc)
      invariant known && FirstExist(p, i, n)
      invariant Chosen(outs, 0, pre)
    {
      known, bestScore, bestCrtc, best := TryNext(outs, crtcs, modes, i, output, n, bestScore, bestCrtc, p, pre, best);
      if !known {
        return;
      }
      n := n + 1;
    }
  }

  /** One turn of the loop over the CRTC list: a strictly higher score replaces the best. */
  method TryNext(outs: seq<Output>, crtcs: seq<Crtc>, modes: seq<Mode>, i: nat, output: Output, n: nat,
                 score: nat, crtc: Choice, ghost p: Problem, ghost pre: seq<Choice>, ghost best: seq<Choice>)
    returns (known: bool, score': nat, crtc': Choice, ghost best': seq<Choice>)
    requires OnTurn(outs, crtcs, modes, i, output, p, pre) && Chosen(outs, 0, pre)
    requires BestSoFar(p, pre, n, best, score, crtc) && n < |output.info.crtcs|
    modifies outs[i..]`crtcInfo
    requires FirstExist(p, i, n)
    ensures known ==> FirstExist(p, i, n + 1)
    ensures !known ==> !CrtcsExist(p, i)
    ensures known ==> BestSoFar(p, pre, n + 1, best', score', crtc')
    ensures Chosen(outs, 0, pre)
    decreases |outs| - i, 2
  {
    score', crtc', best' := score, crtc, best;
    var c := FindCrtc(crtcs, output.info.crtcs[n]);
    SameHead(outs, crtcs, modes, p, output.info.crtcs[n]);
    known := c < |crtcs|;
    if !known {
      UnknownAmongFirst(p, i, n, |p.wants[i].crtcs|);
      return;
    }
    var ok, found;
    ghost var rest;
    ok, found, rest := TryCrtc(outs, crtcs, modes, i, output, c, p, pre);
    if ok {
      TryUsable(p, pre, n, c, best, rest);
      if found > score {
        score', crtc', best' := found, Some(c), [Some(c)] + rest;
      }
    } else {
      SkipUnusable(p, pre, n, c, best);
    }
  }

  /** Puts the best CRTC back and lets the search rebuild the best rest for it. */
  method TakeBest(outs: seq<Output>, crtcs: seq<Crtc>, modes: seq<Mode>, i: nat, output: Output, n: nat,
                  score: nat, crtc: Choice, ghost p: Problem, ghost pre: seq<Choice>, ghost best: seq<Choice>)
    requires OnTurn(outs, crtcs, modes, i, output, p, pre) && Chosen(outs, 0, pre)
    requires BestSoFar(p, pre, n, best, score, crtc) && n == |output.info.crtcs|
    modifies outs[i..]`crtcInfo
    ensures Rebuilt(outs, p, pre, best, score)
    ensures Chosen(outs, 0, pre)
    decreases |outs| - i, 1
  {
    AllTried(p, pre, best);
    var _, rest := ChooseAndSearch(outs, crtcs, modes, i, output, crtc, p, pre);
    BestUnique(p, pre + [crtc], rest, best[1..]);
    assert [crtc] + rest == best;
  }

  lemma SameHead(outs: seq<Output>, crtcs: seq<Crtc>, modes: seq<Mode>, p: Problem, x: Xid)
    requires Poses(outs, crtcs, modes, p)
    ensures FindCrtc(crtcs, x) == HeadIndex(p.heads, x)
    ensures HasHead(p, x) ==> p.heads[HeadIndex(p.heads, x)].xid == x
  {
    var c, h := FindCrtc(crtcs, x), HeadIndex(p.heads, x);
    assert forall j :: 0 <= j < |crtcs| ==> p.heads[j].xid == crtcs[j].xid;
  }

  // ----- the whole of pick_crtcs -----

  ghost predicate NothingPlanned(crtcs: seq<Crtc>)
    reads crtcs`outputs
  {
    forall c :: 0 <= c < |crtcs| ==> crtcs[c].outputs == []
  }

  ghost predicate InRange(a: seq<Choice>, n: nat) {
    forall k {:trigger a[k]} :: 0 <= k < |a| && a[k].Some? ==> a[k].value < n
  }

  ghost function ChangesOf(outs: seq<Output>): (was: seq<set<Change>>)
    reads outs`changes
    ensures |was| == |outs|
    ensures forall k {:trigger was[k]} :: 0 <= k < |outs| ==> was[k] == outs[k].changes
  {
    if outs == [] then [] else [outs[0].changes] + ChangesOf(outs[1..])
  }

  /**
   What the rest of the program relies on afterwards: CRTCs are real, changed outputs that are to be
   on have one, and an output that is still without changes has the CRTC it had.
   */
  ghost predicate Settled(outs: seq<Output>, crtcs: seq<Crtc>, was: seq<set<Change>>, before: seq<Choice>)
    reads outs`modeInfo, outs`crtcInfo, outs`changes
  {
    && |was| == |before| == |outs|
    && forall k {:trigger was[k]} {:trigger before[k]} :: 0 <= k < |outs| ==>
         && (outs[k].crtcInfo.Some? ==> outs[k].crtcInfo.value < |crtcs|)
         && (outs[k].modeInfo.Some? && outs[k].changes != {} ==> outs[k].crtcInfo.Some?)
         && was[k] <= outs[k].changes
         && (outs[k].changes == {} ==> outs[k].crtcInfo == before[k])
  }

  datatype Found = Unknown | NoneUsable | Usable(crtc: nat)
  datatype PickResult = Picked | NoSuchCrtc | NoCrtcFor(output: nat)

  /** CRTC `c` suits output `k` when output `j` has choice `a[j]`. */
  ghost predicate Suits(outs: seq<Output>, crtcs: seq<Crtc>, modes: seq<Mode>, k: nat, c: nat, a: seq<Choice>)
    requires k < |outs| && |a| == |outs|
    reads outs`modeInfo, outs`x, outs`y, outs`rotation
  {
    && c < |crtcs| && crtcs[c].xid in outs[k].info.crtcs
    && (forall j :: 0 <= j < |outs| && j != k && outs[j].modeInfo.Some? && a[j] == Some(c) ==>
          outs[j].xid in outs[k].info.clones)
    && (crtcs[c].info.outputs != [] ==>
          && FindMode(modes, crtcs[c].info.mode) == outs[k].modeInfo
          && crtcs[c].info.x == outs[k].x && crtcs[c].info.y == outs[k].y
          && crtcs[c].info.rotation == outs[k].rotation)
  }

  /** The first `n` CRTCs on the output's list are real, and none of them suits it. */
  ghost predicate NoneBefore(outs: seq<Output>, crtcs: seq<Crtc>, modes: seq<Mode>, k: nat, n: nat, a: seq<Choice>)
    requires k < |outs| && |a| == |outs| && n <= |outs[k].info.crtcs|
    reads outs`modeInfo, outs`x, outs`y, outs`rotation
  {
    forall m :: 0 <= m < n ==>
      var c := FindCrtc(crtcs, outs[k].info.crtcs[m]);
      c < |crtcs| && !Suits(outs, crtcs, modes, k, c, a)
  }

  /** The `n`-th CRTC on the output's list is `c`, and none before it suits. */
  ghost predicate FirstCandidate(outs: seq<Output>, crtcs: seq<Crtc>, modes: seq<Mode>, k: nat, n: nat,
                                 a: seq<Choice>, c: nat)
    requires k < |outs| && |a| == |outs|
    reads outs`modeInfo, outs`x, outs`y, outs`rotation
  {
    n < |outs[k].info.crtcs| && NoneBefore(outs, crtcs, modes, k, n, a) && FindCrtc(crtcs, outs[k].info.crtcs[n]) == c
  }

  /** `c` is the first CRTC on the output's list that suits it. */
  ghost predicate FirstSuited(outs: seq<Output>, crtcs: seq<Crtc>, modes: seq<Mode>, k: nat, c: nat, a: seq<Choice>)
    requires k < |outs| && |a| == |outs|
    reads outs`modeInfo, outs`x, outs`y, outs`rotation
  {
    Suits(outs, crtcs, modes, k, c, a) && exists n :: FirstCandidate(outs, crtcs, modes, k, n, a, c)
  }

  /** The output's list comes to a CRTC the server does not have before one that suits. */
  ghost predicate MeetsUnknown(outs: seq<Output>, crtcs: seq<Crtc>, modes: seq<Mode>, k: nat, a: seq<Choice>)
    requires k < |outs| && |a| == |outs|
    reads outs`modeInfo, outs`x, outs`y, outs`rotation
  {
    exists n :: FirstCandidate(outs, crtcs, modes, k, n, a, |crtcs|)
  }

  lemma FirstSuitedOnce(outs: seq<Output>, crtcs: seq<Crtc>, modes: seq<Mode>, k: nat, c: nat, d: nat, a: seq<Choice>)
    requires k < |outs| && |a| == |outs|
    requires FirstSuited(outs, crtcs, modes, k, c, a) && FirstSuited(outs, crtcs, modes, k, d, a)
    ensures c == d
  {
    var m :| FirstCandidate(outs, crtcs, modes, k, m, a, c);
    var n :| FirstCandidate(outs, crtcs, modes, k, n, a, d);
  }

  lemma FirstSuitedOrNot(outs: seq<Output>, crtcs: seq<Crtc>, modes: seq<Mode>, k: nat, c: nat, a: seq<Choice>)
    requires k < |outs| && |a| == |outs| && FirstSuited(outs, crtcs, modes, k, c, a)
    ensures !NoneBefore(outs, crtcs, modes, k, |outs[k].info.crtcs|, a) && !MeetsUnknown(outs, crtcs, modes, k, a)
  {
    var m :| FirstCandidate(outs, crtcs, modes, k, m, a, c);
    forall n ensures !FirstCandidate(outs, crtcs, modes, k, n, a, |crtcs|) {}
  }

  /** Output `k` is to be changed and on. */
  ghost predicate Wanted(outs: seq<Output>, was: seq<set<Change>>, k: nat)
    requires k < |outs| == |was|
    reads outs`modeInfo
  {
    was[k] != {} && outs[k].modeInfo.Some?
  }

  /** Output `k` has a CRTC that the server uses for others too, or finds no CRTC that suits it. */
  ghost predicate Stuck(outs: seq<Output>, crtcs: seq<Crtc>, modes: seq<Mode>,
                        was: seq<set<Change>>, k: nat, a: seq<Choice>)
    requires |a| == |outs| == |was|
    reads outs`modeInfo, outs`x, outs`y, outs`rotation
  {
    && k < |outs| && Wanted(outs, was, k)
    && match a[k]
       case Some(c) => c < |crtcs| && !SoleUse(outs, crtcs[c], k)
       case None => NoneBefore(outs, crtcs, modes, k, |outs[k].info.crtcs|, a)
  }

  /** The first CRTC on the output's list that suits it. */
  method FindCrtcForOutput(outs: seq<Output>, crtcs: seq<Crtc>, modes: seq<Mode>, k: nat, ghost a: seq<Choice>)
    returns (r: Found)
    requires k < |outs| && DistinctOutputs(outs) && |a| == |outs| && Chosen(outs, 0, a)
    requires NothingPlanned(crtcs)
    ensures r.Usable? ==> FirstSuited(outs, crtcs, modes, k, r.crtc, a)
    ensures r == NoneUsable ==> NoneBefore(outs, crtcs, modes, k, |outs[k].info.crtcs|, a)
    ensures r == Unknown ==> MeetsUnknown(outs, crtcs, modes, k, a)
  {
    var n := 0;
    while n < |outs[k].info.crtcs|
      invariant 0 <= n <= |outs[k].info.crtcs| && NoneBefore(outs, crtcs, modes, k, n, a)
    {
      var c := FindCrtc(crtcs, outs[k].info.crtcs[n]);
      assert FirstCandidate(outs, crtcs, modes, k, n, a, c);
      if c == |crtcs| {
        return Unknown;
      }
      var ok := CheckCrtcForOutput(outs, crtcs, modes, k, c);
      if ok {
        r := Usable(c);
        assert FirstCandidate(outs, crtcs, modes, k, n, a, r.crtc);
        return;
      }
      n := n + 1;
    }
    r := NoneUsable;
  }

  /** The server uses the CRTC for this output alone, or not at all. */
  predicate SoleUse(outs: seq<Output>, crtc: Crtc, k: nat) {
    crtc.info.outputs == [] || (|crtc.info.outputs| == 1 && FindOutput(outs, crtc.info.outputs[0]) == k)
  }

  /** If output `k` comes with a CRTC that drives another one on the server, the first pass does not get through. */
  lemma {:induction false} TakenStops(outs: seq<Output>, crtcs: seq<Crtc>, modes: seq<Mode>, was: seq<set<Change>>,
                                      before: seq<Choice>, k: nat, x: Xid, a: seq<Choice>)
    requires k < |outs| && |before| == |a| == |outs| == |was| && was[k] != {} && outs[k].modeInfo.Some?
    requires before[k].Some? && before[k].value < |crtcs|
    requires x in crtcs[before[k].value].info.outputs && FindOutput(outs, x) != k
    ensures !MatchedUp(outs, crtcs, modes, was, k, before, a)
    ensures !AllMatchedUp(outs, crtcs, modes, was, |outs|, before, a)
  {}

  /** A CRTC that drives nobody, or output `k` alone, never stops the first pass at output `k`. */
  lemma {:induction false} OwnDoesNotStop(outs: seq<Output>, crtcs: seq<Crtc>, modes: seq<Mode>,
                                          was: seq<set<Change>>, k: nat, c: nat, a: seq<Choice>)
    requires k < |outs| && |a| == |outs| == |was| && a[k] == Some(c) && c < |crtcs|
    requires var driven := crtcs[c].info.outputs;
             driven == [] || exists x: Xid :: driven == [x] && FindOutput(outs, x) == k
    ensures !Stuck(outs, crtcs, modes, was, k, a)
  {}

  /** If all that are to be changed and on come with such a CRTC, the pass gets through and changes nothing. */
  lemma {:induction false} OwnGetThrough(outs: seq<Output>, crtcs: seq<Crtc>, modes: seq<Mode>,
                                         was: seq<set<Change>>, before: seq<Choice>)
    requires |before| == |outs| == |was|
    requires forall k {:trigger before[k]} :: 0 <= k < |outs| && was[k] != {} && outs[k].modeInfo.Some? ==>
      && before[k].Some? && before[k].value < |crtcs|
      && var driven := crtcs[before[k].value].info.outputs;
         driven == [] || exists x: Xid :: driven == [x] && FindOutput(outs, x) == k
    ensures AllMatchedUp(outs, crtcs, modes, was, |outs|, before, before)
    ensures !GetsStuck(outs, crtcs, modes, was, before) && !GetsUnknown(outs, crtcs, modes, was, before)
  {
    forall k | 0 <= k < |outs| ensures MatchedUp(outs, crtcs, modes, was, k, before, before) {
      if was[k] != {} && outs[k].modeInfo.Some? {
        assert before[k].Some?;
      }
    }
    ThroughIsNotStopped(outs, crtcs, modes, was, before, before);
  }

  /** The first `k` choices of `after`, and the others of `before`. */
  ghost function UpTo(after: seq<Choice>, before: seq<Choice>, k: nat): seq<Choice>
    requires |after| == |before| && k <= |after|
  {
    after[..k] + before[k..]
  }

  /** What the first pass leaves output `k` with, when it started from `before` and is at `after`. */
  ghost predicate MatchedUp(outs: seq<Output>, crtcs: seq<Crtc>, modes: seq<Mode>, was: seq<set<Change>>, k: nat,
                            before: seq<Choice>, after: seq<Choice>)
    requires k < |outs| && |before| == |after| == |outs| == |was|
    reads outs`modeInfo, outs`x, outs`y, outs`rotation
  {
    if !Wanted(outs, was, k) then after[k] == before[k]
    else if before[k].Some? then
      after[k] == before[k] && (before[k].value < |crtcs| ==> SoleUse(outs, crtcs[before[k].value], k))
    else
      after[k].Some? && FirstSuited(outs, crtcs, modes, k, after[k].value, UpTo(after, before, k))
  }

  ghost predicate AllMatchedUp(outs: seq<Output>, crtcs: seq<Crtc>, modes: seq<Mode>, was: seq<set<Change>>, n: nat,
                               before: seq<Choice>, after: seq<Choice>)
    requires n <= |outs| && |before| == |after| == |outs| == |was|
    reads outs`modeInfo, outs`x, outs`y, outs`rotation
  {
    forall k {:trigger MatchedUp(outs, crtcs, modes, was, k, before, after)} :: 0 <= k < n ==>
      MatchedUp(outs, crtcs, modes, was, k, before, after)
  }

  /** The first `k` outputs have been matched up, and no other has been touched. */
  ghost predicate MatchedSoFar(outs: seq<Output>, crtcs: seq<Crtc>, modes: seq<Mode>, was: seq<set<Change>>, k: nat,
                               before: seq<Choice>, after: seq<Choice>)
    reads outs`modeInfo, outs`x, outs`y, outs`rotation, outs`crtcInfo
  {
    && k <= |outs| && |before| == |after| == |outs| == |was|
    && Chosen(outs, 0, after) && InRange(after, |crtcs|)
    && after[k..] == before[k..]
    && (forall j :: 0 <= j < |outs| && (was[j] == {} || outs[j].modeInfo.None?) ==> after[j] == before[j])
    && AllMatchedUp(outs, crtcs, modes, was, k, before, after)
  }

  /** Output `k` is matched up beside the choices `now`. */
  ghost predicate GetsMatched(outs: seq<Output>, crtcs: seq<Crtc>, modes: seq<Mode>,
                              was: seq<set<Change>>, k: nat, now: seq<Choice>,
                              ch: Choice)
    requires k < |outs| && |now| == |outs| == |was|
    reads outs`modeInfo, outs`x, outs`y, outs`rotation
  {
    if !Wanted(outs, was, k) then ch == now[k]
    else if now[k].Some? then ch == now[k] && (ch.value < |crtcs| ==> SoleUse(outs, crtcs[ch.value], k))
    else ch.Some? && FirstSuited(outs, crtcs, modes, k, ch.value, now)
  }

  lemma MatchedUpStep(outs: seq<Output>, crtcs: seq<Crtc>, modes: seq<Mode>, was: seq<set<Change>>, k: nat,
                      before: seq<Choice>, now: seq<Choice>, ch: Choice)
    requires k < |outs| && |before| == |now| == |outs| == |was| && now[k..] == before[k..]
    requires AllMatchedUp(outs, crtcs, modes, was, k, before, now) && GetsMatched(outs, crtcs, modes, was, k, now, ch)
    ensures AllMatchedUp(outs, crtcs, modes, was, k + 1, before, now[k := ch])
  {
    var after := now[k := ch];
    assert now[k] == now[k..][0] == before[k..][0] == before[k];
    forall i | 0 <= i < k + 1 ensures MatchedUp(outs, crtcs, modes, was, i, before, after) {
      if i == k {
        assert UpTo(after, before, k) == now by { assert now == now[..k] + now[k..]; }
      } else {
        assert MatchedUp(outs, crtcs, modes, was, i, before, now);
        assert UpTo(after, before, i) == UpTo(now, before, i);
      }
    }
  }

  /** The choices that match up outputs are determined by those the pass starts from. */
  lemma {:induction false} MatchedUpOnce(outs: seq<Output>, crtcs: seq<Crtc>, modes: seq<Mode>,
                                         was: seq<set<Change>>, n: nat,
                                         before: seq<Choice>, a: seq<Choice>, b: seq<Choice>)
    requires n <= |outs| && |before| == |a| == |b| == |outs| == |was|
    requires AllMatchedUp(outs, crtcs, modes, was, n, before, a) && AllMatchedUp(outs, crtcs, modes, was, n, before, b)
    ensures a[..n] == b[..n]
  {
    if n > 0 {
      var k := n - 1;
      MatchedUpOnce(outs, crtcs, modes, was, k, before, a, b);
      assert MatchedUp(outs, crtcs, modes, was, k, before, a) && MatchedUp(outs, crtcs, modes, was, k, before, b);
      if Wanted(outs, was, k) && before[k].None? {
        FirstSuitedOnce(outs, crtcs, modes, k, a[k].value, b[k].value, UpTo(a, before, k));
      }
      assert a[..n] == a[..k] + [a[k]] && b[..n] == b[..k] + [b[k]];
    }
  }

  /** Some output lists a CRTC that the server does not have. */
  ghost predicate ListsUnknown(outs: seq<Output>, crtcs: seq<Crtc>) {
    exists k, n :: 0 <= k < |outs| && 0 <= n < |outs[k].info.crtcs| && FindCrtc(crtcs, outs[k].info.crtcs[n]) == |crtcs|
  }

  /** The first pass, from these choices, comes to an output that is stuck. */
  ghost predicate GetsStuck(outs: seq<Output>, crtcs: seq<Crtc>, modes: seq<Mode>,
                            was: seq<set<Change>>, before: seq<Choice>)
    requires |before| == |outs| == |was|
    reads outs`modeInfo, outs`x, outs`y, outs`rotation
  {
    exists k: nat, a: seq<Choice> :: StuckAt(outs, crtcs, modes, was, before, k, a)
  }

  /** Output `k` is where the pass gets stuck, and `a` are the choices it leaves. */
  ghost predicate StuckAt(outs: seq<Output>, crtcs: seq<Crtc>, modes: seq<Mode>,
                          was: seq<set<Change>>, before: seq<Choice>, k: nat,
                          a: seq<Choice>)
    requires |before| == |outs| == |was|
    reads outs`modeInfo, outs`x, outs`y, outs`rotation
  {
    && k < |outs| && |a| == |outs| && a[k..] == before[k..]
    && AllMatchedUp(outs, crtcs, modes, was, k, before, a) && Stuck(outs, crtcs, modes, was, k, a)
  }

  /** The first pass, from these choices, gets stuck and leaves `kept`. */
  ghost predicate LeavesStuck(outs: seq<Output>, crtcs: seq<Crtc>, modes: seq<Mode>,
                              was: seq<set<Change>>, before: seq<Choice>,
                              kept: seq<Choice>)
    requires |before| == |outs| == |was|
    reads outs`modeInfo, outs`x, outs`y, outs`rotation
  {
    exists k: nat :: StuckAt(outs, crtcs, modes, was, before, k, kept)
  }

  /** The first pass, from these choices, comes to a CRTC the server does not have. */
  ghost predicate GetsUnknown(outs: seq<Output>, crtcs: seq<Crtc>, modes: seq<Mode>,
                              was: seq<set<Change>>, before: seq<Choice>)
    requires |before| == |outs| == |was|
    reads outs`modeInfo, outs`x, outs`y, outs`rotation
  {
    exists k: nat, a: seq<Choice> :: UnknownAt(outs, crtcs, modes, was, before, k, a)
  }

  ghost predicate UnknownAt(outs: seq<Output>, crtcs: seq<Crtc>, modes: seq<Mode>,
                            was: seq<set<Change>>, before: seq<Choice>, k: nat,
                            a: seq<Choice>)
    requires |before| == |outs| == |was|
    reads outs`modeInfo, outs`x, outs`y, outs`rotation
  {
    && k < |outs| && |a| == |outs| && a[k..] == before[k..] && AllMatchedUp(outs, crtcs, modes, was, k, before, a)
    && Wanted(outs, was, k) && a[k].None? && MeetsUnknown(outs, crtcs, modes, k, a)
  }

  /** Where the pass stops it cannot go on. */
  lemma NoFurther(outs: seq<Output>, crtcs: seq<Crtc>, modes: seq<Mode>, was: seq<set<Change>>, before: seq<Choice>,
                  k: nat, a: seq<Choice>, n: nat, b: seq<Choice>)
    requires n <= |outs| && |before| == |b| == |outs| == |was| && AllMatchedUp(outs, crtcs, modes, was, n, before, b)
    requires StuckAt(outs, crtcs, modes, was, before, k, a) || UnknownAt(outs, crtcs, modes, was, before, k, a)
    ensures n <= k
  {
    if k < n {
      MatchedUpOnce(outs, crtcs, modes, was, k, before, a, b);
      assert MatchedUp(outs, crtcs, modes, was, k, before, b);
      assert a[k] == a[k..][0] == before[k..][0] == before[k];
      assert UpTo(b, before, k) == a by { assert a == a[..k] + a[k..]; }
      if before[k].None? {
        FirstSuitedOrNot(outs, crtcs, modes, k, b[k].value, a);
      }
    }
  }

  /** The first pass ends in one way only. */
  lemma OneEnding(outs: seq<Output>, crtcs: seq<Crtc>, modes: seq<Mode>, was: seq<set<Change>>, before: seq<Choice>)
    requires |before| == |outs| == |was|
    ensures !(GetsStuck(outs, crtcs, modes, was, before) && GetsUnknown(outs, crtcs, modes, was, before))
  {
    if GetsStuck(outs, crtcs, modes, was, before) && GetsUnknown(outs, crtcs, modes, was, before) {
      var k, a :| StuckAt(outs, crtcs, modes, was, before, k, a);
      var l, b :| UnknownAt(outs, crtcs, modes, was, before, l, b);
      NoFurther(outs, crtcs, modes, was, before, k, a, l, b);
      NoFurther(outs, crtcs, modes, was, before, l, b, k, a);
      MatchedUpOnce(outs, crtcs, modes, was, k, before, a, b);
      StuckIsKnown(outs, crtcs, modes, was, before, k, a, b);
    }
  }

  lemma StuckIsKnown(outs: seq<Output>, crtcs: seq<Crtc>, modes: seq<Mode>,
                     was: seq<set<Change>>, before: seq<Choice>, k: nat,
                     a: seq<Choice>, b: seq<Choice>)
    requires |before| == |outs| == |was| && StuckAt(outs, crtcs, modes, was, before, k, a) && |b| == |outs|
    requires a[..k] == b[..k] && b[k..] == before[k..]
    ensures !UnknownAt(outs, crtcs, modes, was, before, k, b)
  {
    assert a == a[..k] + a[k..] && b == b[..k] + b[k..];
    assert forall n :: FirstCandidate(outs, crtcs, modes, k, n, a, |crtcs|) ==>
      !NoneBefore(outs, crtcs, modes, k, |outs[k].info.crtcs|, a);
  }

  /** One turn of the first pass; `stuck` ends it. */
  method MatchOne(outs: seq<Output>, crtcs: seq<Crtc>, modes: seq<Mode>, ghost was: seq<set<Change>>,
                  k: nat, output: Output, ghost before: seq<Choice>, ghost now: seq<Choice>)
    returns (stuck: bool, unknown: bool, ghost after: seq<Choice>)
    requires DistinctOutputs(outs) && NothingPlanned(crtcs) && k < |outs| && output == outs[k]
    requires MatchedSoFar(outs, crtcs, modes, was, k, before, now) && was == ChangesOf(outs)
    modifies output`crtcInfo
    ensures stuck || unknown ==> MatchedSoFar(outs, crtcs, modes, was, k, before, after)
    ensures stuck ==> !unknown && Stuck(outs, crtcs, modes, was, k, after)
    ensures unknown ==> Wanted(outs, was, k) && after[k].None? && MeetsUnknown(outs, crtcs, modes, k, after)
    ensures !stuck && !unknown ==> MatchedSoFar(outs, crtcs, modes, was, k + 1, before, after)
  {
    stuck, unknown, after := false, false, now;
    assert outs[k].crtcInfo == now[k];
    ghost var ch := now[k];
    if output.changes != {} && output.modeInfo.Some? {
      if output.crtcInfo.Some? {
        var info := crtcs[output.crtcInfo.value].info;
        if |info.outputs| > 0 && (|info.outputs| > 1 || k != FindOutput(outs, info.outputs[0])) {
          stuck := true;
          return;
        }
      } else {
        var found := FindCrtcForOutput(outs, crtcs, modes, k, now);
        if !found.Usable? {
          unknown, stuck := found == Unknown, found == NoneUsable;
          return;
        }
        output.crtcInfo := Some(found.crtc);
        ch := Some(found.crtc);
        assert forall j :: 0 <= j < |outs| && j != k ==> outs[j] != output;
        assert forall j :: 0 <= j < |outs| && j != k ==> outs[0 + j].crtcInfo == now[j];
      }
    }
    after := now[k := ch];
    MatchedNext(outs, crtcs, modes, was, k, before, now, ch);
  }

  lemma {:induction false} MatchedNext(outs: seq<Output>, crtcs: seq<Crtc>, modes: seq<Mode>, was: seq<set<Change>>,
                                       k: nat, before: seq<Choice>, now: seq<Choice>, ch: Choice)
    requires k < |outs| && |before| == |now| == |outs| == |was|
    requires now[k..] == before[k..] && InRange(now, |crtcs|) && (ch.Some? ==> ch.value < |crtcs|)
    requires forall j :: 0 <= j < |outs| && (was[j] == {} || outs[j].modeInfo.None?) ==> now[j] == before[j]
    requires AllMatchedUp(outs, crtcs, modes, was, k, before, now) && GetsMatched(outs, crtcs, modes, was, k, now, ch)
    requires Chosen(outs, 0, now[k := ch])
    ensures MatchedSoFar(outs, crtcs, modes, was, k + 1, before, now[k := ch])
  {
    MatchedUpStep(outs, crtcs, modes, was, k, before, now, ch);
    assert now[k := ch][k + 1..] == now[k..][1..] == before[k + 1..];
  }

  /** Matches up newly enabled outputs with spare CRTCs; `happy` when that was enough. */
  method MatchSpareCrtcs(outs: seq<Output>, crtcs: seq<Crtc>, modes: seq<Mode>,
                         ghost was: seq<set<Change>>, ghost before: seq<Choice>)
    returns (happy: bool, unknown: bool, ghost after: seq<Choice>)
    requires DistinctOutputs(outs) && |before| == |outs| && Chosen(outs, 0, before) && was == ChangesOf(outs)
    requires NothingPlanned(crtcs) && InRange(before, |crtcs|)
    modifies outs`crtcInfo
    ensures happy ==> !unknown && MatchedSoFar(outs, crtcs, modes, was, |outs|, before, after)
    ensures unknown ==> GetsUnknown(outs, crtcs, modes, was, before)
    ensures |after| == |outs| && Chosen(outs, 0, after)
    ensures !happy && !unknown ==> exists n: nat ::
      StuckAt(outs, crtcs, modes, was, before, n, after) && MatchedSoFar(outs, crtcs, modes, was, n, before, after)
  {
    after := before;
    happy, unknown := false, false;
    var k := 0;
    while k < |outs|
      invariant MatchedSoFar(outs, crtcs, modes, was, k, before, after)
    {
      var stuck;
      stuck, unknown, after := MatchOne(outs, crtcs, modes, was, k, outs[k], before, after);
      if stuck || unknown {
        assert unknown ==> UnknownAt(outs, crtcs, modes, was, before, k, after);
        assert stuck ==> StuckAt(outs, crtcs, modes, was, before, k, after);
        return;
      }
      k := k + 1;
    }
    happy, unknown := true, false;
  }

  ghost function HeadsOf(crtcs: seq<Crtc>): (heads: seq<Head>)
    ensures |heads| == |crtcs|
    ensures forall c {:trigger heads[c]} :: 0 <= c < |crtcs| ==> heads[c] == Head(crtcs[c].xid, crtcs[c].info)
  {
    if crtcs == [] then [] else [Head(crtcs[0].xid, crtcs[0].info)] + HeadsOf(crtcs[1..])
  }

  ghost function WantsOf(outs: seq<Output>): (wants: seq<Want>)
    reads outs`modeInfo, outs`x, outs`y, outs`rotation, outs`currentCrtcInfo
    ensures |wants| == |outs|
    ensures forall k {:trigger wants[k]} :: 0 <= k < |outs| ==> wants[k] == WantOf(outs[k])
  {
    if outs == [] then [] else [WantOf(outs[0])] + WantsOf(outs[1..])
  }

  /** The problem the records pose right now. */
  ghost function ProblemOf(outs: seq<Output>, crtcs: seq<Crtc>, modes: seq<Mode>): Problem
    reads outs`modeInfo, outs`x, outs`y, outs`rotation, outs`currentCrtcInfo
  {
    Problem(HeadsOf(crtcs), modes, WantsOf(outs))
  }

  ghost predicate DistinctXids(crtcs: seq<Crtc>) {
    forall i, j :: 0 <= i < j < |crtcs| ==> crtcs[i].xid != crtcs[j].xid
  }

  method RecordCurrent(outs: seq<Output>)
    requires DistinctOutputs(outs)
    modifies outs`currentCrtcInfo
    ensures forall k :: 0 <= k < |outs| ==> outs[k].currentCrtcInfo == outs[k].crtcInfo
  {
    var k := 0;
    while k < |outs|
      invariant 0 <= k <= |outs|
      invariant forall j :: 0 <= j < k ==> outs[j].currentCrtcInfo == outs[j].crtcInfo
    {
      outs[k].currentCrtcInfo := outs[k].crtcInfo;
      k := k + 1;
    }
  }

  /** A CRTC swapped for an output without changes is a change. */
  function Flagged(was: set<Change>, chosen: Choice, current: Choice): set<Change> {
    if was == {} && chosen != current then {ChangedCrtc} else was
  }

  /** The first `n` outputs have been flagged, and no other. */
  ghost predicate FlaggedUpTo(outs: seq<Output>, was: seq<set<Change>>, n: nat)
    reads outs`changes, outs`crtcInfo, outs`currentCrtcInfo
  {
    && |was| == |outs|
    && forall j {:trigger was[j]} :: 0 <= j < |outs| ==>
         outs[j].changes == if j < n then Flagged(was[j], outs[j].crtcInfo, outs[j].currentCrtcInfo) else was[j]
  }

  /** Output `k` is the first that is to be on and is not; |outs| when there is none. */
  ghost predicate FirstDark(outs: seq<Output>, k: nat)
    reads outs`modeInfo, outs`crtcInfo
  {
    && k <= |outs| && (k < |outs| ==> outs[k].modeInfo.Some? && outs[k].crtcInfo.None?)
    && forall j :: 0 <= j < k && outs[j].modeInfo.Some? ==> outs[j].crtcInfo.Some?
  }

  /** After the search: everybody to be on has a CRTC, and a swapped CRTC counts as a change. */
  method FlagSwapped(outs: seq<Output>, ghost was: seq<set<Change>>) returns (dark: nat)
    requires DistinctOutputs(outs) && was == ChangesOf(outs)
    modifies outs`changes
    ensures FirstDark(outs, dark) && FlaggedUpTo(outs, was, dark)
    ensures forall j {:trigger was[j]} :: 0 <= j < |outs| ==>
      outs[j].changes ==
        if j < dark && was[j] == {} && outs[j].crtcInfo != outs[j].currentCrtcInfo then {ChangedCrtc} else was[j]
  {
    dark := 0;
    while dark < |outs|
      invariant 0 <= dark <= |outs| && FlaggedUpTo(outs, was, dark)
      invariant forall j :: 0 <= j < dark && outs[j].modeInfo.Some? ==> outs[j].crtcInfo.Some?
    {
      var output := outs[dark];
      assert output.changes == was[dark];
      if output.modeInfo.Some? && output.crtcInfo.None? {
        return;
      }
      if output.changes == {} && output.crtcInfo != output.currentCrtcInfo {
        output.changes := output.changes + {ChangedCrtc};
      }
      assert forall j :: 0 <= j < |outs| && j != dark ==> outs[j] != output;
      dark := dark + 1;
    }
  }

  /** Outputs without changes have recorded the CRTC they came with. */
  ghost predicate KeptRecorded(outs: seq<Output>, was: seq<set<Change>>, before: seq<Choice>)
    requires |before| == |outs| == |was|
    reads outs`currentCrtcInfo
  {
    forall k {:trigger was[k]} {:trigger before[k]} :: 0 <= k < |outs| && was[k] == {} ==>
      outs[k].currentCrtcInfo == before[k]
  }

  lemma FlaggedSettles(outs: seq<Output>, crtcs: seq<Crtc>, was: seq<set<Change>>, before: seq<Choice>)
    requires |before| == |outs| == |was| && FlaggedUpTo(outs, was, |outs|) && AllLit(outs)
    requires InRange(ChoicesOf(outs), |crtcs|) && KeptRecorded(outs, was, before)
    ensures Settled(outs, crtcs, was, before)
  {
    forall k | 0 <= k < |outs|
      ensures outs[k].crtcInfo.Some? ==> outs[k].crtcInfo.value < |crtcs|
      ensures was[k] <= outs[k].changes && (outs[k].changes == {} ==> outs[k].crtcInfo == before[k])
    {
      assert ChoicesOf(outs)[k] == outs[k].crtcInfo;
    }
  }

  ghost function ChoicesOf(outs: seq<Output>): (a: seq<Choice>)
    reads outs`crtcInfo
    ensures |a| == |outs|
    ensures forall k {:trigger a[k]} :: 0 <= k < |outs| ==> a[k] == outs[k].crtcInfo
  {
    if outs == [] then [] else [outs[0].crtcInfo] + ChoicesOf(outs[1..])
  }

  lemma ChosenIsChoicesOf(outs: seq<Output>, a: seq<Choice>)
    requires |a| == |outs| && Chosen(outs, 0, a)
    ensures a == ChoicesOf(outs)
  {
    forall k | 0 <= k < |a| ensures a[k] == ChoicesOf(outs)[k] {
      assert outs[0 + k].crtcInfo == a[k];
    }
  }

  lemma BestFacts(p: Problem, a: seq<Choice>)
    requires |a| == |p.wants| && IsBest(p, [], a)
    ensures forall k :: 0 <= k < |a| && a[k].Some? ==> a[k].value < |p.heads|
    ensures Enabled(p, 0) <= 1000 ==> (LightsAll(p, a) <==> exists b :: Feasible(p, b) && LightsAll(p, b))
  {
    FeasibleCompletes(p, a);
    assert forall k :: 0 <= k < |a| ==> ChoiceOk(p, a[..k], a[k]);
    if Enabled(p, 0) <= 1000 {
      BestLightsAllIfPossible(p, a);
    }
  }

  /** Every output to be on is, in the records. */
  ghost predicate AllLit(outs: seq<Output>)
    reads outs`modeInfo, outs`crtcInfo
  {
    forall k :: 0 <= k < |outs| && outs[k].modeInfo.Some? ==> outs[k].crtcInfo.Some?
  }

  /** `a` is the best assignment; up to 1000 outputs it leaves one dark only if every feasible one does. */
  ghost predicate BestAssignment(p: Problem, a: seq<Choice>) {
    && |a| == |p.wants| && IsBest(p, [], a)
    && (Enabled(p, 0) <= 1000 ==> (LightsAll(p, a) <==> exists b :: Feasible(p, b) && LightsAll(p, b)))
  }

  /** The search over the whole list, from the choices the first pass left. */
  method SearchCrtcs(outs: seq<Output>, crtcs: seq<Crtc>, modes: seq<Mode>) returns (known: bool)
    requires DistinctOutputs(outs) && DistinctXids(crtcs) && NothingPlanned(crtcs)
    modifies outs`crtcInfo
    ensures known <==> !UnknownCrtc(ProblemOf(outs, crtcs, modes), 0)
    ensures known ==>
      BestAssignment(ProblemOf(outs, crtcs, modes), ChoicesOf(outs)) && InRange(ChoicesOf(outs), |crtcs|)
  {
    assert outs[0..] == outs;
    var score, best := PickCrtcsScore(outs, crtcs, modes, 0, ProblemOf(outs, crtcs, modes), []);
    known := score.Some?;
    if known {
      SearchLeavesBest(outs, crtcs, modes, best);
    }
  }

  lemma SearchLeavesBest(outs: seq<Output>, crtcs: seq<Crtc>, modes: seq<Mode>, best: seq<Choice>)
    requires |best| == |outs| && Chosen(outs, 0, best) && IsBest(ProblemOf(outs, crtcs, modes), [], best)
    ensures BestAssignment(ProblemOf(outs, crtcs, modes), ChoicesOf(outs)) && InRange(ChoicesOf(outs), |crtcs|)
  {
    ChosenIsChoicesOf(outs, best);
    BestFacts(ProblemOf(outs, crtcs, modes), best);
  }

  /** Lighting every output in the problem is lighting every output in the records. */
  lemma LitInRecords(outs: seq<Output>, crtcs: seq<Crtc>, modes: seq<Mode>)
    ensures AllLit(outs) <==> LightsAll(ProblemOf(outs, crtcs, modes), ChoicesOf(outs))
  {
    var p, a := ProblemOf(outs, crtcs, modes), ChoicesOf(outs);
    assert forall k :: 0 <= k < |outs| ==> p.wants[k] == WantOf(outs[k]) && a[k] == outs[k].crtcInfo;
  }

  ghost function CurrentsOf(outs: seq<Output>): (a: seq<Choice>)
    reads outs`currentCrtcInfo
    ensures |a| == |outs|
    ensures forall k {:trigger a[k]} :: 0 <= k < |outs| ==> a[k] == outs[k].currentCrtcInfo
  {
    if outs == [] then [] else [outs[0].currentCrtcInfo] + CurrentsOf(outs[1..])
  }

  /** The way out when the simple way fails; `now` is what the outputs have. */
  method SwapCrtcs(outs: seq<Output>, crtcs: seq<Crtc>, modes: seq<Mode>, ghost was: seq<set<Change>>,
                   ghost now: seq<Choice>)
    returns (r: PickResult)
    requires DistinctOutputs(outs) && DistinctXids(crtcs) && NothingPlanned(crtcs)
    requires was == ChangesOf(outs) && Chosen(outs, 0, now) && |now| == |outs|
    modifies outs`crtcInfo, outs`currentCrtcInfo, outs`changes
    ensures CurrentsOf(outs) == now
    ensures r == NoSuchCrtc <==> UnknownCrtc(ProblemOf(outs, crtcs, modes), 0)
    ensures r != NoSuchCrtc ==>
      BestAssignment(ProblemOf(outs, crtcs, modes), ChoicesOf(outs)) && InRange(ChoicesOf(outs), |crtcs|)
    ensures r == Picked ==> AllLit(outs) && FlaggedUpTo(outs, was, |outs|)
    ensures r.NoCrtcFor? ==> r.output < |outs| && FirstDark(outs, r.output) && FlaggedUpTo(outs, was, r.output)
    ensures r == NoSuchCrtc ==> ChangesOf(outs) == was
  {
    var known := SearchAgain(outs, crtcs, modes, now);
    if !known {
      return NoSuchCrtc;
    }
    ghost var p, a := ProblemOf(outs, crtcs, modes), ChoicesOf(outs);
    var dark := FlagSwapped(outs, was);
    assert ProblemOf(outs, crtcs, modes) == p && ChoicesOf(outs) == a;
    r := if dark < |outs| then NoCrtcFor(dark) else Picked;
  }

  /** Records what every output has, and searches. */
  method SearchAgain(outs: seq<Output>, crtcs: seq<Crtc>, modes: seq<Mode>, ghost now: seq<Choice>)
    returns (known: bool)
    requires DistinctOutputs(outs) && DistinctXids(crtcs) && NothingPlanned(crtcs)
    requires Chosen(outs, 0, now) && |now| == |outs|
    modifies outs`crtcInfo, outs`currentCrtcInfo
    ensures CurrentsOf(outs) == now
    ensures known <==> !UnknownCrtc(ProblemOf(outs, crtcs, modes), 0)
    ensures known ==>
      BestAssignment(ProblemOf(outs, crtcs, modes), ChoicesOf(outs)) && InRange(ChoicesOf(outs), |crtcs|)
  {
    RecordCurrent(outs);
    RecordedIsNow(outs, now);
    known := SearchCrtcs(outs, crtcs, modes);
  }

  lemma RecordedIsNow(outs: seq<Output>, now: seq<Choice>)
    requires |now| == |outs| && Chosen(outs, 0, now)
    requires forall k :: 0 <= k < |outs| ==> outs[k].currentCrtcInfo == outs[k].crtcInfo
    ensures CurrentsOf(outs) == now
  {
    forall k | 0 <= k < |outs| ensures CurrentsOf(outs)[k] == now[k] {
      assert outs[0 + k].crtcInfo == now[k];
    }
  }

  lemma {:induction false} UnknownIsListed(outs: seq<Output>, crtcs: seq<Crtc>, modes: seq<Mode>, k: nat)
    requires k <= |outs| && UnknownCrtc(ProblemOf(outs, crtcs, modes), k)
    ensures ListsUnknown(outs, crtcs)
    decreases |outs| - k
  {
    var p := ProblemOf(outs, crtcs, modes);
    if k < |outs| && !CrtcsExist(p, k) {
      assert p.wants[k] == WantOf(outs[k]);
      var n := FirstUnknown(p, k, |p.wants[k].crtcs|);
      var x := outs[k].info.crtcs[n];
      assert forall c {:trigger p.heads[c]} :: 0 <= c < |crtcs| ==> p.heads[c].xid == crtcs[c].xid;
      assert forall c {:trigger p.heads[c]} :: 0 <= c < |crtcs| ==> p.heads[c].xid != x;
      assert forall c {:trigger crtcs[c]} :: 0 <= c < |crtcs| ==> crtcs[c].xid == p.heads[c].xid;
      assert FindCrtc(crtcs, x) == |crtcs|;
    } else {
      UnknownIsListed(outs, crtcs, modes, k + 1);
    }
  }

  lemma MatchedUpSettles(outs: seq<Output>, crtcs: seq<Crtc>, modes: seq<Mode>,
                         was: seq<set<Change>>, before: seq<Choice>, after: seq<Choice>)
    requires MatchedSoFar(outs, crtcs, modes, was, |outs|, before, after)
    requires was == ChangesOf(outs)
    ensures Settled(outs, crtcs, was, before)
  {
    forall k | 0 <= k < |outs|
      ensures outs[k].crtcInfo == after[k]
      ensures outs[k].modeInfo.Some? && outs[k].changes != {} ==> after[k].Some?
    {
      assert outs[0 + k].crtcInfo == after[k];
      assert MatchedUp(outs, crtcs, modes, was, k, before, after);
    }
  }

  /** How far `FlagSwapped` gets. */
  function FlaggedCount(outs: seq<Output>, r: PickResult, searched: bool): nat {
    if !searched then 0
    else match r
      case Picked => |outs|
      case NoSuchCrtc => 0
      case NoCrtcFor(k) => k
  }

  /** Outputs without changes keep their choice. */
  ghost predicate KeepsUnchanged(was: seq<set<Change>>, before: seq<Choice>, after: seq<Choice>) {
    && |was| == |before| == |after|
    && forall j {:trigger was[j]} {:trigger before[j]} :: 0 <= j < |was| && was[j] == {} ==> after[j] == before[j]
  }

  /** Output `j`, if it had a CRTC or none was wanted, is left with its choice by a pass that gets stuck. */
  lemma StuckKeepsAt(outs: seq<Output>, crtcs: seq<Crtc>, modes: seq<Mode>,
                     was: seq<set<Change>>, before: seq<Choice>, kept: seq<Choice>,
                     j: nat)
    requires |before| == |outs| == |was| && LeavesStuck(outs, crtcs, modes, was, before, kept) && j < |outs|
    ensures |kept| == |outs| && (before[j].Some? || !Wanted(outs, was, j) ==> kept[j] == before[j])
  {
    var k: nat :| StuckAt(outs, crtcs, modes, was, before, k, kept);
    if j < k {
      assert MatchedUp(outs, crtcs, modes, was, j, before, kept);
    } else {
      assert kept[j] == kept[k..][j - k] == before[k..][j - k] == before[j];
    }
  }

  lemma StuckKeeps(outs: seq<Output>, crtcs: seq<Crtc>, modes: seq<Mode>,
                   was: seq<set<Change>>, before: seq<Choice>, kept: seq<Choice>)
    requires |before| == |outs| == |kept| == |was| && LeavesStuck(outs, crtcs, modes, was, before, kept)
    ensures KeepsUnchanged(was, before, kept)
  {
    forall j | 0 <= j < |outs| && was[j] == {} ensures kept[j] == before[j] {
      StuckKeepsAt(outs, crtcs, modes, was, before, kept, j);
    }
  }

  /**
   Picks a CRTC for every changed output that is to be on. The search runs (`searched`) exactly if
   the first pass gets stuck. Then the records hold the best assignment of the problem they pose, where
   the CRTC an output would rather keep is the one the first pass left it with: its own, if it had
   one. With at most 1000 outputs on, the complaint that an output gets no CRTC means that no feasible
   assignment lights them all. The changes grow only where a CRTC was swapped.
   */
  method PickCrtcs(outs: seq<Output>, crtcs: seq<Crtc>, modes: seq<Mode>)
    returns (r: PickResult, searched: bool)
    requires DistinctOutputs(outs) && DistinctXids(crtcs) && NothingPlanned(crtcs)
    requires InRange(ChoicesOf(outs), |crtcs|)
    modifies outs`crtcInfo, outs`currentCrtcInfo, outs`changes
    ensures searched <==> old(GetsStuck(outs, crtcs, modes, ChangesOf(outs), ChoicesOf(outs)))
    ensures r == NoSuchCrtc && !searched <==>
      old(GetsUnknown(outs, crtcs, modes, ChangesOf(outs), ChoicesOf(outs)))
    ensures r == Picked && !searched ==>
      AllMatchedUp(outs, crtcs, modes, old(ChangesOf(outs)), |outs|, old(ChoicesOf(outs)), ChoicesOf(outs))
    ensures !searched ==> CurrentsOf(outs) == old(CurrentsOf(outs))
    ensures searched ==>
      var kept := CurrentsOf(outs); old(LeavesStuck(outs, crtcs, modes, ChangesOf(outs), ChoicesOf(outs), kept))
    ensures r == NoSuchCrtc ==> ListsUnknown(outs, crtcs)
    ensures searched ==> (r == NoSuchCrtc <==> UnknownCrtc(ProblemOf(outs, crtcs, modes), 0))
    ensures searched && r != NoSuchCrtc ==> BestAssignment(ProblemOf(outs, crtcs, modes), ChoicesOf(outs))
    ensures searched && r == Picked ==> AllLit(outs)
    ensures r.NoCrtcFor? ==> searched && r.output < |outs| && FirstDark(outs, r.output)
    ensures AllLit(outs) <==> LightsAll(ProblemOf(outs, crtcs, modes), ChoicesOf(outs))
    ensures FlaggedUpTo(outs, old(ChangesOf(outs)), FlaggedCount(outs, r, searched))
    ensures r == Picked ==> Settled(outs, crtcs, old(ChangesOf(outs)), old(ChoicesOf(outs)))
  {
    ghost var before, was := ChoicesOf(outs), ChangesOf(outs);
    var happy, unknown;
    ghost var after;
    happy, unknown, after := FirstPass(outs, crtcs, modes, was, before);
    searched := !unknown && !happy;
    if unknown {
      r := NoSuchCrtc;
    } else if happy {
      r := Picked;
    } else {
      r := Search(outs, crtcs, modes, was, before, after);
    }
    LitInRecords(outs, crtcs, modes);
  }

  /** The first pass, and which of its three endings it comes to. */
  method FirstPass(outs: seq<Output>, crtcs: seq<Crtc>, modes: seq<Mode>,
                   ghost was: seq<set<Change>>, ghost before: seq<Choice>)
    returns (happy: bool, unknown: bool, ghost after: seq<Choice>)
    requires DistinctOutputs(outs) && NothingPlanned(crtcs) && InRange(before, |crtcs|)
    requires before == ChoicesOf(outs) && was == ChangesOf(outs)
    modifies outs`crtcInfo
    ensures FlaggedUpTo(outs, was, 0)
    ensures !(happy && unknown)
    ensures unknown <==> old(GetsUnknown(outs, crtcs, modes, was, before))
    ensures unknown ==> ListsUnknown(outs, crtcs)
    ensures !happy && !unknown <==> old(GetsStuck(outs, crtcs, modes, was, before))
    ensures !happy && !unknown ==>
      && LeavesStuck(outs, crtcs, modes, was, before, after) && KeepsUnchanged(was, before, after)
      && |after| == |outs| && Chosen(outs, 0, after)
    ensures CurrentsOf(outs) == old(CurrentsOf(outs))
    ensures happy ==> AllMatchedUp(outs, crtcs, modes, was, |outs|, before, ChoicesOf(outs))
    ensures happy ==> Settled(outs, crtcs, was, before)
  {
    happy, unknown, after := MatchThrough(outs, crtcs, modes, was, before);
    if unknown {
      UnknownAtIsListed(outs, crtcs, modes, was, before);
    } else if happy {
      MatchedUpSettles(outs, crtcs, modes, was, before, after);
      ChosenIsChoicesOf(outs, after);
    } else {
      StuckKeeps(outs, crtcs, modes, was, before, after);
    }
  }

  /** The first pass, in terms of the records it leaves. */
  method MatchThrough(outs: seq<Output>, crtcs: seq<Crtc>, modes: seq<Mode>,
                      ghost was: seq<set<Change>>, ghost before: seq<Choice>)
    returns (happy: bool, unknown: bool, ghost after: seq<Choice>)
    requires DistinctOutputs(outs) && NothingPlanned(crtcs) && InRange(before, |crtcs|)
    requires before == ChoicesOf(outs) && was == ChangesOf(outs)
    modifies outs`crtcInfo
    ensures !(happy && unknown)
    ensures unknown <==> GetsUnknown(outs, crtcs, modes, was, before)
    ensures !happy && !unknown <==> GetsStuck(outs, crtcs, modes, was, before)
    ensures !happy && !unknown ==> LeavesStuck(outs, crtcs, modes, was, before, after)
    ensures happy ==> MatchedSoFar(outs, crtcs, modes, was, |outs|, before, after)
    ensures |after| == |outs| && Chosen(outs, 0, after)
  {
    happy, unknown, after := MatchSpareCrtcs(outs, crtcs, modes, was, before);
    WhichEnding(outs, crtcs, modes, was, before, after, happy, unknown);
  }

  lemma {:induction false} WhichEnding(outs: seq<Output>, crtcs: seq<Crtc>, modes: seq<Mode>, was: seq<set<Change>>,
                                       before: seq<Choice>, after: seq<Choice>, happy: bool, unknown: bool)
    requires |before| == |outs| == |was|
    requires happy ==> !unknown && |after| == |outs| && AllMatchedUp(outs, crtcs, modes, was, |outs|, before, after)
    requires unknown ==> GetsUnknown(outs, crtcs, modes, was, before)
    requires !happy && !unknown ==> GetsStuck(outs, crtcs, modes, was, before)
    ensures unknown <==> GetsUnknown(outs, crtcs, modes, was, before)
    ensures !happy && !unknown <==> GetsStuck(outs, crtcs, modes, was, before)
  {
    OneEnding(outs, crtcs, modes, was, before);
    if happy {
      ThroughIsNotStopped(outs, crtcs, modes, was, before, after);
    }
  }

  /** The search from where the first pass got stuck, and what it means for the changes. */
  method Search(outs: seq<Output>, crtcs: seq<Crtc>, modes: seq<Mode>,
                ghost was: seq<set<Change>>, ghost before: seq<Choice>, ghost now: seq<Choice>)
    returns (r: PickResult)
    requires DistinctOutputs(outs) && DistinctXids(crtcs) && NothingPlanned(crtcs)
    requires was == ChangesOf(outs) && KeepsUnchanged(was, before, now) && Chosen(outs, 0, now)
    modifies outs`crtcInfo, outs`currentCrtcInfo, outs`changes
    ensures CurrentsOf(outs) == now
    ensures r == NoSuchCrtc ==> ListsUnknown(outs, crtcs)
    ensures r == NoSuchCrtc <==> UnknownCrtc(ProblemOf(outs, crtcs, modes), 0)
    ensures r != NoSuchCrtc ==> BestAssignment(ProblemOf(outs, crtcs, modes), ChoicesOf(outs))
    ensures r == Picked ==> AllLit(outs) && Settled(outs, crtcs, was, before)
    ensures r.NoCrtcFor? ==> r.output < |outs| && FirstDark(outs, r.output)
    ensures FlaggedUpTo(outs, was, FlaggedCount(outs, r, true))
  {
    r := SwapCrtcs(outs, crtcs, modes, was, now);
    if r == NoSuchCrtc {
      UnknownIsListed(outs, crtcs, modes, 0);
    }
    if r == Picked {
      FlaggedSettles(outs, crtcs, was, before);
    }
  }

  lemma UnknownAtIsListed(outs: seq<Output>, crtcs: seq<Crtc>, modes: seq<Mode>,
                          was: seq<set<Change>>, before: seq<Choice>)
    requires |before| == |outs| == |was| && GetsUnknown(outs, crtcs, modes, was, before)
    ensures ListsUnknown(outs, crtcs)
  {
    var k, a :| UnknownAt(outs, crtcs, modes, was, before, k, a);
    var n :| FirstCandidate(outs, crtcs, modes, k, n, a, |crtcs|);
  }

  lemma ThroughIsNotStopped(outs: seq<Output>, crtcs: seq<Crtc>, modes: seq<Mode>,
                            was: seq<set<Change>>, before: seq<Choice>,
                            after: seq<Choice>)
    requires |before| == |after| == |outs| == |was| && AllMatchedUp(outs, crtcs, modes, was, |outs|, before, after)
    ensures !GetsStuck(outs, crtcs, modes, was, before) && !GetsUnknown(outs, crtcs, modes, was, before)
  {
    forall k: nat, a: seq<Choice>
      ensures !StuckAt(outs, crtcs, modes, was, before, k, a) && !UnknownAt(outs, crtcs, modes, was, before, k, a)
    {
      if StuckAt(outs, crtcs, modes, was, before, k, a) || UnknownAt(outs, crtcs, modes, was, before, k, a) {
        NoFurther(outs, crtcs, modes, was, before, k, a, |outs|, after);
      }
    }
  }
}
