/**
 `CFileItemList::StackFiles`: runs of files whose names differ only in a volume part are folded, in
 place, into one entry that stands for them all.
 */
module FileStacking {
  import opened RandR

  /** An entry of the listing; its kind is decided by two flags and by its path. */
  datatype Item = Item(path: string, size: nat, isFolder: bool, isParentFolder: bool)

  /** One match of a stacking expression: its four captures, and where the second and third start. */
  datatype Match = Match(title: string, volume: string, ignore: string, extension: string, start2: nat, start3: nat)

  /**
   What the listing asks of expressions, names and stack paths. `Find` looks for expression number
   `expr` in a file name from an offset on; `Build` makes the path of a stack and `Parts` reads it back.
   */
  datatype Rules = Rules(
    expressions: nat,
    find: (nat, string, nat) -> Option<Match>,
    fileName: string -> string,
    same: (string, string) -> bool,
    isNfo: string -> bool,
    isPlayList: string -> bool,
    isRar: string -> bool,
    build: seq<string> -> string,
    parts: string -> seq<string>)

  /** The third capture of a match starts beyond where the search began, inside the name. */
  ghost predicate Advancing(r: Rules) {
    forall expr: nat, file: string, offset: nat :: r.find(expr, file, offset).Some? ==>
      offset < r.find(expr, file, offset).value.start3 <= |file| && r.find(expr, file, offset).value.start2 <= |file|
  }

  /** Folders, the parent entry, nfo files and playlists are never stacked. */
  predicate Skipped(r: Rules, item: Item) {
    item.isFolder || item.isParentFolder || r.isNfo(item.path) || r.isPlayList(item.path)
  }

  function TotalSize(items: seq<Item>): nat {
    if items == [] then 0 else TotalSize(items[..|items| - 1]) + items[|items| - 1].size
  }

  function Paths(items: seq<Item>): (paths: seq<string>)
    ensures |paths| == |items|
    ensures forall i :: 0 <= i < |items| ==> paths[i] == items[i].path
  {
    seq(|items|, i requires 0 <= i < |items| => items[i].path)
  }

  /** The positions `stack` of the listing, from `i` on: entry `i` and later ones that may be stacked. */
  ghost predicate IsStack(r: Rules, items: seq<Item>, i: nat, stack: seq<nat>) {
    && |stack| >= 2 && stack[0] == i && Stackable(r, items, i, stack)
    && (forall j :: i <= j < stack[|stack| - 1] && !Skipped(r, items[j]) ==> j in stack)
  }

  datatype Verdict = Stacks | Sequel | Retry(offset: nat) | Differs

  /** Compares the match of the first file with that of a second one. */
  function Compare(r: Rules, expr: nat, file1: string, file2: string, offset: nat): Verdict
    requires r.find(expr, file1, offset).Some?
    requires r.find(expr, file1, offset).value.start2 <= |file1|
    requires r.find(expr, file2, offset).Some? ==> r.find(expr, file2, offset).value.start2 <= |file2|
  {
    var m1 := r.find(expr, file1, offset).value;
    match r.find(expr, file2, offset)
    case None => Differs
    case Some(m2) =>
      var title1 := if offset > 0 then file1[..m1.start2] else m1.title;
      var title2 := if offset > 0 then file2[..m2.start2] else m2.title;
      if !r.same(title1, title2) then Differs
      else if !r.same(m1.volume, m2.volume) then
        if r.same(m1.ignore, m2.ignore) && r.same(m1.extension, m2.extension) then Stacks else Sequel
      else if !r.same(m1.ignore, m2.ignore) then Retry(m2.start3)
      else Differs
  }

  // ----- what folding means -----

  /** `item` stands for the run `group` of original entries. */
  ghost predicate StandsFor(r: Rules, item: Item, group: seq<Item>) {
    && group != []
    && (|group| == 1 ==> item == group[0])
    && (|group| >= 2 ==>
          && item == group[0].(path := FoldedPath(r, group), size := TotalSize(group))
          && forall k :: 0 <= k < |group| ==> !Skipped(r, group[k]))
  }

  /** The parts of a RAR set are represented by the first of them, everything else by a stack path. */
  function FoldedPath(r: Rules, group: seq<Item>): string
    requires group != []
  {
    if r.isRar(group[0].path) then group[0].path else r.build(Paths(group))
  }

  ghost function Flat(groups: seq<seq<Item>>): seq<Item> {
    if groups == [] then [] else Flat(groups[..|groups| - 1]) + groups[|groups| - 1]
  }

  /** The listing `now` is `before` cut into runs, each folded into one entry, in order. */
  ghost predicate IsFolding(r: Rules, before: seq<Item>, now: seq<Item>, groups: seq<seq<Item>>) {
    && |groups| == |now| && Flat(groups) == before
    && forall k :: 0 <= k < |now| ==> StandsFor(r, now[k], groups[k])
  }

  /** The paths a listing stands for, with every stack taken apart. */
  ghost function Expanded(r: Rules, items: seq<Item>): seq<string> {
    if items == [] then [] else Expanded(r, items[..|items| - 1]) + r.parts(items[|items| - 1].path)
  }

  lemma {:induction false} TotalSizeConcat(a: seq<Item>, b: seq<Item>)
    ensures TotalSize(a + b) == TotalSize(a) + TotalSize(b)
  {
    if b == [] {
      assert a + b == a;
    } else {
      TotalSizeConcat(a, b[..|b| - 1]);
      assert (a + b)[..|a + b| - 1] == a + b[..|b| - 1];
    }
  }

  /** Folding conserves the total size. */
  lemma {:induction false} FoldingKeepsSize(r: Rules, before: seq<Item>, now: seq<Item>, groups: seq<seq<Item>>)
    requires IsFolding(r, before, now, groups)
    ensures TotalSize(now) == TotalSize(before)
    decreases |now|
  {
    if now != [] {
      var n := |now| - 1;
      FoldingKeepsSize(r, Flat(groups[..n]), now[..n], groups[..n]);
      TotalSizeConcat(Flat(groups[..n]), groups[n]);
      assert StandsFor(r, now[n], groups[n]);
      if |groups[n]| == 1 {
        assert groups[n] == [now[n]] && groups[n][..0] == [];
      }
    }
  }

  /** Every path is read back as itself, and none is that of a RAR part. */
  ghost predicate Readable(r: Rules, items: seq<Item>) {
    forall k :: 0 <= k < |items| ==> r.parts(items[k].path) == [items[k].path] && !r.isRar(items[k].path)
  }

  ghost predicate StacksReadBack(r: Rules) {
    forall paths: seq<string> :: |paths| >= 2 ==> r.parts(r.build(paths)) == paths
  }

  lemma PartsOfGroup(r: Rules, item: Item, group: seq<Item>)
    requires StandsFor(r, item, group) && StacksReadBack(r) && Readable(r, group)
    ensures r.parts(item.path) == Paths(group)
  {
    if |group| == 1 {
      assert Paths(group) == [group[0].path];
    }
  }

  lemma PathsConcat(a: seq<Item>, b: seq<Item>)
    ensures Paths(a + b) == Paths(a) + Paths(b)
  {}

  lemma ReadableParts(r: Rules, a: seq<Item>, b: seq<Item>)
    requires Readable(r, a + b)
    ensures Readable(r, a) && Readable(r, b)
  {
    forall k | 0 <= k < |a| ensures a[k] == (a + b)[k] {}
    forall k | 0 <= k < |b| ensures b[k] == (a + b)[|a| + k] {}
  }

  /** Taking every stack apart gives back the original entries, in their order. */
  lemma {:induction false} FoldingKeepsPaths(r: Rules, before: seq<Item>, now: seq<Item>, groups: seq<seq<Item>>)
    requires IsFolding(r, before, now, groups) && StacksReadBack(r) && Readable(r, before)
    ensures Expanded(r, now) == Paths(before)
    decreases |now|
  {
    if now != [] {
      var n := |now| - 1;
      var first := Flat(groups[..n]);
      assert before == first + groups[n];
      ReadableParts(r, first, groups[n]);
      FoldingKeepsPaths(r, first, now[..n], groups[..n]);
      assert StandsFor(r, now[n], groups[n]);
      PartsOfGroup(r, now[n], groups[n]);
      PathsConcat(first, groups[n]);
    }
  }

  /** The stack found at `i` has no skipped entry inside. */
  ghost predicate Contiguous(i: nat, stack: seq<nat>) {
    forall k :: 0 <= k < |stack| ==> stack[k] == i + k
  }

  /** No skipped entry lies between two that may be stacked. */
  ghost predicate Tidy(r: Rules, items: seq<Item>) {
    forall i, j, k :: 0 <= i < j < k < |items| && !Skipped(r, items[i]) && !Skipped(r, items[k]) ==>
      !Skipped(r, items[j])
  }

  ghost predicate TidyFrom(r: Rules, items: seq<Item>, i: nat) {
    forall a, b, c :: i <= a < b < c < |items| && !Skipped(r, items[a]) && !Skipped(r, items[c]) ==>
      !Skipped(r, items[b])
  }

  lemma {:induction false} TidyIsContiguous(r: Rules, items: seq<Item>, i: nat, stack: seq<nat>, n: nat)
    requires TidyFrom(r, items, i) && IsStack(r, items, i, stack) && n < |stack|
    ensures stack[n] == i + n
  {
    if n > 0 {
      TidyIsContiguous(r, items, i, stack, n - 1);
      NoGap(r, items, i, stack, n);
    }
  }

  lemma NoGap(r: Rules, items: seq<Item>, i: nat, stack: seq<nat>, n: nat)
    requires TidyFrom(r, items, i) && IsStack(r, items, i, stack) && 0 < n < |stack| && stack[n - 1] == i + n - 1
    ensures stack[n] == i + n
  {
    assert stack[n - 1] < stack[n] <= stack[|stack| - 1];
    var previous, between, next := items[stack[n - 1]], items[i + n], items[stack[n]];
    if i + n < stack[n] {
      assert false;
    }
  }

  lemma {:induction false} Increasing(stack: seq<nat>, a: nat, b: nat)
    requires a <= b < |stack| && Ascending(stack)
    ensures stack[b] >= stack[a] + (b - a)
  {
    if a < b { Increasing(stack, a, b - 1); }
  }

  // ----- which entries are stacked -----

  /** The entries from `j` on that go with entry `i` under one expression and offset, and what ended them. */
  ghost function GoesWith(r: Rules, items: seq<Item>, expr: nat, offset: nat, file1: string, j: nat): (seq<nat>,
                          Option<Verdict>)
    requires Advancing(r) && r.find(expr, file1, offset).Some? && j <= |items|
    decreases |items| - j
  {
    if j == |items| then ([], None)
    else if Skipped(r, items[j]) then GoesWith(r, items, expr, offset, file1, j + 1)
    else
      var verdict := Compare(r, expr, file1, r.fileName(items[j].path), offset);
      if verdict == Stacks then
        var rest := GoesWith(r, items, expr, offset, file1, j + 1);
        ([j] + rest.0, rest.1)
      else ([], Some(verdict))
  }

  lemma {:induction false} RetryAdvances(r: Rules, items: seq<Item>, expr: nat, offset: nat, file1: string, j: nat)
    requires Advancing(r) && r.find(expr, file1, offset).Some? && j <= |items|
    ensures var verdict := GoesWith(r, items, expr, offset, file1, j).1;
      verdict.Some? && verdict.value.Retry? ==> offset < verdict.value.offset <= Longest(r, items)
    decreases |items| - j
  {
    if j < |items| {
      RetryAdvances(r, items, expr, offset, file1, j + 1);
      NoLonger(r, items, j);
    }
  }

  /** The entries looked at before the `j`-th give `stack`, which entry `i` begins. */
  ghost predicate Gathered(r: Rules, items: seq<Item>, i: nat, expr: nat, offset: nat, file1: string, j: nat,
                           stack: seq<nat>)
    requires Advancing(r) && r.find(expr, file1, offset).Some? && i < j <= |items|
  {
    var all, rest := GoesWith(r, items, expr, offset, file1, i + 1), GoesWith(r, items, expr, offset, file1, j);
    && all.1 == rest.1
    && (if stack == [] then all.0 == rest.0 else |stack| > 1 && stack + rest.0 == [i] + all.0)
  }

  lemma GatheredNext(r: Rules, items: seq<Item>, i: nat, expr: nat, offset: nat, file1: string, j: nat, stack: seq<nat>)
    requires Advancing(r) && r.find(expr, file1, offset).Some? && i < j < |items| && !Skipped(r, items[j])
    requires Compare(r, expr, file1, r.fileName(items[j].path), offset) == Stacks
    requires Gathered(r, items, i, expr, offset, file1, j, stack)
    ensures Gathered(r, items, i, expr, offset, file1, j + 1, (if stack == [] then [i] else stack) + [j])
  {
    var rest := GoesWith(r, items, expr, offset, file1, j + 1).0;
    Associate(if stack == [] then [i] else stack, j, rest);
  }

  /** The stack that starts at entry `i`, tried from this expression and offset on. */
  ghost function StackFrom(r: Rules, items: seq<Item>, i: nat, expr: nat, offset: nat): seq<nat>
    requires Advancing(r) && i < |items| && offset <= Longest(r, items)
    decreases if expr <= r.expressions then r.expressions - expr else 0, Longest(r, items) - offset
  {
    var file1 := r.fileName(items[i].path);
    if expr >= r.expressions then []
    else if r.find(expr, file1, offset).None? then StackFrom(r, items, i, expr + 1, 0)
    else
      RetryAdvances(r, items, expr, offset, file1, i + 1);
      var (others, verdict) := GoesWith(r, items, expr, offset, file1, i + 1);
      if others != [] then [i] + others
      else match verdict
        case None => []
        case Some(Retry(next)) => StackFrom(r, items, i, expr, next)
        case Some(_) => StackFrom(r, items, i, expr + 1, 0)
  }

  /** The listing with the stack at `i` folded: as many entries go as the stack has others. */
  function Folded(r: Rules, items: seq<Item>, i: nat, stack: seq<nat>): seq<Item>
    requires i + |stack| <= |items| && stack != [] && InList(items, stack)
  {
    items[..i]
    + [items[i].(path := FoldedPath(r, Picked(items, stack)), size := TotalSize(Picked(items, stack)))]
    + items[i + |stack|..]
  }

  /** The listing with every stack from entry `i` on folded. */
  ghost function Stacked(r: Rules, items: seq<Item>, i: nat): seq<Item>
    requires Advancing(r) && i <= |items|
    decreases |items| - i
  {
    if i == |items| then items
    else if Skipped(r, items[i]) then Stacked(r, items, i + 1)
    else
      var stack := StackFrom(r, items, i, 0, 0);
      if stack == [] then Stacked(r, items, i + 1)
      else
        StackFromIsStack(r, items, i, 0, 0);
        StackFits(r, items, i, stack);
        Stacked(r, Folded(r, items, i, stack), i + 1)
  }

  /** No stack from entry `i` on has a skipped entry inside. */
  ghost predicate GapFree(r: Rules, items: seq<Item>, i: nat)
    requires Advancing(r) && i <= |items|
    decreases |items| - i
  {
    if i == |items| then true
    else if Skipped(r, items[i]) then GapFree(r, items, i + 1)
    else
      var stack := StackFrom(r, items, i, 0, 0);
      if stack == [] then GapFree(r, items, i + 1)
      else
        StackFromIsStack(r, items, i, 0, 0);
        StackFits(r, items, i, stack);
        Contiguous(i, stack) && GapFree(r, Folded(r, items, i, stack), i + 1)
  }

  /** Rules by which two letters are a title and a volume, and "n" is a note beside the parts. */
  function TwoLetters(build: seq<string> -> string, parts: string -> seq<string>): Rules {
    Rules(1,
      (expr: nat, file: string, offset: nat) =>
        if offset == 0 && |file| == 2 then Some(Match(file[..1], file[1..], "", "", 1, 2)) else None,
      (path: string) => path, (a: string, b: string) => a == b,
      (path: string) => path == "n", (path: string) => false, (path: string) => false, build, parts)
  }

  function Plain(path: string, size: nat): Item { Item(path, size, false, false) }

  const NOTE_INSIDE := [Plain("a1", 10), Plain("n", 1), Plain("a2", 20)]

  /** The two parts are a stack, the note between them notwithstanding. */
  lemma StackAroundNote(r: Rules, items: seq<Item>, build: seq<string> -> string, parts: string -> seq<string>)
    requires r == TwoLetters(build, parts) && items == NOTE_INSIDE
    ensures Advancing(r) && !Skipped(r, items[0]) && StackFrom(r, items, 0, 0, 0) == [0, 2]
  {
    assert "a1"[..1] == "a" == "a2"[..1] && "a1"[1..] == "1" && "a2"[1..] == "2";
    assert Compare(r, 0, "a1", "a2", 0) == Stacks;
    assert Skipped(r, items[1]) && !Skipped(r, items[2]) && r.fileName(items[2].path) == "a2";
    assert GoesWith(r, items, 0, 0, "a1", 3) == ([], None);
    assert GoesWith(r, items, 0, 0, "a1", 2) == ([2] + [], None);
    assert GoesWith(r, items, 0, 0, "a1", 2).0 == [2];
    assert GoesWith(r, items, 0, 0, "a1", 1) == GoesWith(r, items, 0, 0, "a1", 2);
  }

  lemma FoldedAroundNote(r: Rules, items: seq<Item>)
    requires items == NOTE_INSIDE && !r.isRar("a1")
    ensures Folded(r, items, 0, [0, 2]) == [Plain(r.build(["a1", "a2"]), 30), Plain("a2", 20)]
  {
    var picked := Picked(items, [0, 2]);
    assert picked == [items[0], items[2]] && Paths(picked) == ["a1", "a2"];
    assert TotalSize([items[0]]) == 10 by { assert [items[0]][..0] == []; }
    assert TotalSize(picked) == 30 by { assert picked[..1] == [items[0]]; }
  }

  /** A note between two parts is lost, and the second part is left beside the stack it is in. */
  lemma NoteInsideIsLost(build: seq<string> -> string, parts: string -> seq<string>)
    ensures var r := TwoLetters(build, parts);
      && Advancing(r) && !GapFree(r, NOTE_INSIDE, 0)
      && Stacked(r, NOTE_INSIDE, 0) == [Plain(build(["a1", "a2"]), 30), Plain("a2", 20)]
  {
    var r, items, stack: seq<nat> := TwoLetters(build, parts), NOTE_INSIDE, [0, 2];
    StackAroundNote(r, items, build, parts);
    FoldedAroundNote(r, items);
    var folded := Folded(r, items, 0, stack);
    assert GoesWith(r, folded, 0, 0, "a2", 2) == ([], None);
    assert Stacked(r, folded, 1) == folded;
    assert stack[1] == 2;
  }

  ghost predicate Ascending(stack: seq<nat>) {
    forall a, b :: 0 <= a < b < |stack| ==> stack[a] < stack[b]
  }

  /** Positions from `j` on, in order, of entries that may be stacked. */
  ghost predicate Stackable(r: Rules, items: seq<Item>, j: nat, stack: seq<nat>) {
    Ascending(stack) && forall k :: 0 <= k < |stack| ==> j <= stack[k] < |items| && !Skipped(r, items[stack[k]])
  }

  lemma {:induction false} GoesWithIs(r: Rules, items: seq<Item>, expr: nat, offset: nat, file1: string, j: nat)
    requires Advancing(r) && r.find(expr, file1, offset).Some? && j <= |items|
    ensures Stackable(r, items, j, GoesWith(r, items, expr, offset, file1, j).0)
    decreases |items| - j
  {
    if j < |items| {
      GoesWithIs(r, items, expr, offset, file1, j + 1);
      var others := GoesWith(r, items, expr, offset, file1, j).0;
      var rest := GoesWith(r, items, expr, offset, file1, j + 1).0;
      if !Skipped(r, items[j]) && others != [] {
        assert others == [j] + rest;
        assert Stackable(r, items, j + 1, rest);
      }
    }
  }

  /** An entry goes with entry `i` if it may be stacked, and it and all such entries before it compare well. */
  ghost predicate AllCompare(r: Rules, items: seq<Item>, expr: nat, offset: nat, file1: string, j: nat, m: nat)
    requires Advancing(r) && r.find(expr, file1, offset).Some? && j <= m < |items|
  {
    forall p :: j <= p <= m && !Skipped(r, items[p]) ==>
      Compare(r, expr, file1, r.fileName(items[p].path), offset) == Stacks
  }

  lemma {:induction false} GoesWithMeans(r: Rules, items: seq<Item>, expr: nat, offset: nat, file1: string, j: nat,
                                         m: nat)
    requires Advancing(r) && r.find(expr, file1, offset).Some? && j <= |items|
    ensures m in GoesWith(r, items, expr, offset, file1, j).0 <==>
      j <= m < |items| && !Skipped(r, items[m]) && AllCompare(r, items, expr, offset, file1, j, m)
    decreases |items| - j
  {
    if j < |items| {
      GoesWithMeans(r, items, expr, offset, file1, j + 1, m);
      GoesWithIs(r, items, expr, offset, file1, j);
      var rest := GoesWith(r, items, expr, offset, file1, j + 1).0;
      if !Skipped(r, items[j]) && Compare(r, expr, file1, r.fileName(items[j].path), offset) == Stacks {
        assert GoesWith(r, items, expr, offset, file1, j).0 == [j] + rest;
      }
    }
  }

  lemma {:induction false} GoesWithAll(r: Rules, items: seq<Item>, expr: nat, offset: nat, file1: string, j: nat)
    requires Advancing(r) && r.find(expr, file1, offset).Some? && j <= |items|
    ensures NoneMissed(r, items, j, GoesWith(r, items, expr, offset, file1, j).0)
  {
    var others := GoesWith(r, items, expr, offset, file1, j).0;
    GoesWithIs(r, items, expr, offset, file1, j);
    if others != [] {
      var last := others[|others| - 1];
      GoesWithMeans(r, items, expr, offset, file1, j, last);
      forall m | j <= m < last && !Skipped(r, items[m]) ensures m in others {
        GoesWithMeans(r, items, expr, offset, file1, j, m);
      }
    }
  }

  /** Of the entries from `j` on up to the last of these, all that may be stacked are among them. */
  ghost predicate NoneMissed(r: Rules, items: seq<Item>, j: nat, stack: seq<nat>) {
    stack != [] ==> forall m :: j <= m < stack[|stack| - 1] && m < |items| && !Skipped(r, items[m]) ==> m in stack
  }

  lemma FirstWithOthers(r: Rules, items: seq<Item>, i: nat, others: seq<nat>)
    requires i < |items| && !Skipped(r, items[i]) && others != []
    requires Stackable(r, items, i + 1, others) && NoneMissed(r, items, i + 1, others)
    ensures IsStack(r, items, i, [i] + others)
  {
    var stack := [i] + others;
    forall j | i <= j < stack[|stack| - 1] && !Skipped(r, items[j]) ensures j in stack {
      if j > i { assert j in others; }
    }
  }

  /** A stack, if any, is one: at least two entries that may be stacked, with all such entries between. */
  lemma {:induction false} StackFromIsStack(r: Rules, items: seq<Item>, i: nat, expr: nat, offset: nat)
    requires Advancing(r) && i < |items| && offset <= Longest(r, items) && !Skipped(r, items[i])
    ensures var stack := StackFrom(r, items, i, expr, offset); stack == [] || IsStack(r, items, i, stack)
    decreases if expr <= r.expressions then r.expressions - expr else 0, Longest(r, items) - offset
  {
    var file1 := r.fileName(items[i].path);
    if expr < r.expressions {
      if r.find(expr, file1, offset).None? {
        StackFromIsStack(r, items, i, expr + 1, 0);
      } else {
        RetryAdvances(r, items, expr, offset, file1, i + 1);
        var (others, verdict) := GoesWith(r, items, expr, offset, file1, i + 1);
        if others != [] {
          GoesWithIs(r, items, expr, offset, file1, i + 1);
          GoesWithAll(r, items, expr, offset, file1, i + 1);
          FirstWithOthers(r, items, i, others);
        } else if verdict.Some? && verdict.value.Retry? {
          StackFromIsStack(r, items, i, expr, verdict.value.offset);
        } else if verdict.Some? {
          StackFromIsStack(r, items, i, expr + 1, 0);
        }
      }
    }
  }

  // ----- what the parts of a stack have in common -----

  /** The title of a file: what is matched as one or, in a search from further on, all before the volume. */
  function TitleOf(m: Match, file: string, offset: nat): string
    requires m.start2 <= |file|
  {
    if offset == 0 then m.title else file[..m.start2]
  }

  /** Both files match; titles, ignored parts and extensions are the same, and the volumes are not. */
  ghost predicate PartsOfOne(r: Rules, expr: nat, offset: nat, a: string, b: string)
    requires Advancing(r)
  {
    && r.find(expr, a, offset).Some? && r.find(expr, b, offset).Some?
    && var m, n := r.find(expr, a, offset).value, r.find(expr, b, offset).value;
       && r.same(TitleOf(m, a, offset), TitleOf(n, b, offset)) && !r.same(m.volume, n.volume)
       && r.same(m.ignore, n.ignore) && r.same(m.extension, n.extension)
  }

  lemma {:induction false} StacksExactly(r: Rules, expr: nat, offset: nat, a: string, b: string)
    requires Advancing(r) && r.find(expr, a, offset).Some?
    ensures Compare(r, expr, a, b, offset) == Stacks <==> PartsOfOne(r, expr, offset, a, b)
  {}

  /** An entry that may be part of a stack. */
  predicate IsFile(r: Rules, item: Item) {
    !item.isFolder && !item.isParentFolder && !r.isNfo(item.path) && !r.isPlayList(item.path)
  }

  /** Every later member of a stack is another part of the same title as the first. */
  ghost predicate AllPartsOfOne(r: Rules, items: seq<Item>, stack: seq<nat>, expr: nat, offset: nat)
    requires Advancing(r)
  {
    && InList(items, stack) && stack != []
    && (forall k :: 0 <= k < |stack| ==> IsFile(r, items[stack[k]]))
    && forall k :: 0 < k < |stack| ==>
         PartsOfOne(r, expr, offset, r.fileName(items[stack[0]].path), r.fileName(items[stack[k]].path))
  }

  lemma {:induction false} GoesWithParts(r: Rules, items: seq<Item>, i: nat, expr: nat, offset: nat)
    requires Advancing(r) && i < |items| && !Skipped(r, items[i])
    requires r.find(expr, r.fileName(items[i].path), offset).Some?
    ensures var others := GoesWith(r, items, expr, offset, r.fileName(items[i].path), i + 1).0;
      others != [] ==> AllPartsOfOne(r, items, [i] + others, expr, offset)
  {
    var file1 := r.fileName(items[i].path);
    var others := GoesWith(r, items, expr, offset, file1, i + 1).0;
    GoesWithIs(r, items, expr, offset, file1, i + 1);
    forall k | 0 <= k < |others| ensures PartsOfOne(r, expr, offset, file1, r.fileName(items[others[k]].path)) {
      GoesWithMeans(r, items, expr, offset, file1, i + 1, others[k]);
      StacksExactly(r, expr, offset, file1, r.fileName(items[others[k]].path));
    }
  }

  /** A stack consists of the parts of one title, under some expression and offset. */
  lemma {:induction false} StackIsOfOneTitle(r: Rules, items: seq<Item>, i: nat, expr: nat, offset: nat)
    returns (e: nat, o: nat)
    requires Advancing(r) && i < |items| && offset <= Longest(r, items) && !Skipped(r, items[i])
    requires StackFrom(r, items, i, expr, offset) != []
    ensures e < r.expressions && o <= Longest(r, items)
    ensures AllPartsOfOne(r, items, StackFrom(r, items, i, expr, offset), e, o)
    decreases if expr <= r.expressions then r.expressions - expr else 0, Longest(r, items) - offset
  {
    var file1 := r.fileName(items[i].path);
    e, o := expr, offset;
    if r.find(expr, file1, offset).None? {
      e, o := StackIsOfOneTitle(r, items, i, expr + 1, 0);
    } else {
      RetryAdvances(r, items, expr, offset, file1, i + 1);
      var (others, verdict) := GoesWith(r, items, expr, offset, file1, i + 1);
      if others != [] {
        GoesWithParts(r, items, i, expr, offset);
      } else if verdict.value.Retry? {
        e, o := StackIsOfOneTitle(r, items, i, expr, verdict.value.offset);
      } else {
        e, o := StackIsOfOneTitle(r, items, i, expr + 1, 0);
      }
    }
  }

  /** The next entry is stacked with this one if the first expression finds both to be parts of one title. */
  lemma {:induction false} NeighboursStack(r: Rules, items: seq<Item>, i: nat)
    requires Advancing(r) && i + 1 < |items| && IsFile(r, items[i]) && IsFile(r, items[i + 1]) && r.expressions > 0
    requires PartsOfOne(r, 0, 0, r.fileName(items[i].path), r.fileName(items[i + 1].path))
    ensures |StackFrom(r, items, i, 0, 0)| >= 2 && StackFrom(r, items, i, 0, 0)[..2] == [i, i + 1]
  {
    var file1 := r.fileName(items[i].path);
    StacksExactly(r, 0, 0, file1, r.fileName(items[i + 1].path));
    var rest := GoesWith(r, items, 0, 0, file1, i + 2).0;
    assert GoesWith(r, items, 0, 0, file1, i + 1).0 == [i + 1] + rest;
    assert StackFrom(r, items, i, 0, 0) == [i] + ([i + 1] + rest);
  }

  /** What the search for a stack does next, when `j` is the next file after `i`. */
  lemma {:induction false} StackSearch(r: Rules, items: seq<Item>, i: nat, j: nat, expr: nat, offset: nat)
    requires Advancing(r) && i < j < |items| && IsFile(r, items[i]) && IsFile(r, items[j])
    requires forall m :: i < m < j ==> !IsFile(r, items[m])
    requires expr < r.expressions && offset <= Longest(r, items)
    ensures var a, b := r.fileName(items[i].path), r.fileName(items[j].path);
      var m, n := r.find(expr, a, offset), r.find(expr, b, offset);
      var stack := StackFrom(r, items, i, expr, offset);
      if PartsOfOne(r, expr, offset, a, b) then |stack| >= 2 && stack[..2] == [i, j]
      else if m.Some? && n.Some? && r.same(TitleOf(m.value, a, offset), TitleOf(n.value, b, offset))
              && r.same(m.value.volume, n.value.volume) && !r.same(m.value.ignore, n.value.ignore) then
        n.value.start3 <= Longest(r, items) && stack == StackFrom(r, items, i, expr, n.value.start3)
      else stack == StackFrom(r, items, i, expr + 1, 0)
  {
    var a, b := r.fileName(items[i].path), r.fileName(items[j].path);
    NoLonger(r, items, j);
    if r.find(expr, a, offset).Some? {
      StacksExactly(r, expr, offset, a, b);
      NextFile(r, items, expr, offset, a, i + 1, j);
      if PartsOfOne(r, expr, offset, a, b) {
        var rest := GoesWith(r, items, expr, offset, a, j + 1).0;
        assert StackFrom(r, items, i, expr, offset) == [i] + ([j] + rest);
      }
    }
  }

  lemma {:induction false} NextFile(r: Rules, items: seq<Item>, expr: nat, offset: nat, file1: string, k: nat, j: nat)
    requires Advancing(r) && r.find(expr, file1, offset).Some? && k <= j <= |items|
    requires forall m :: k <= m < j ==> !IsFile(r, items[m])
    ensures GoesWith(r, items, expr, offset, file1, k) == GoesWith(r, items, expr, offset, file1, j)
    decreases j - k
  {
    if k < j { NextFile(r, items, expr, offset, file1, k + 1, j); }
  }

  /** Rules by which four letters are a title, a volume, a part to ignore and an extension. */
  function FourLetters(build: seq<string> -> string, parts: string -> seq<string>): Rules {
    Rules(1,
      (expr: nat, file: string, offset: nat) =>
        if offset == 0 && |file| == 4 then Some(Match(file[..1], file[1..2], file[2..3], file[3..], 1, 2)) else None,
      (path: string) => path, (a: string, b: string) => a == b,
      (path: string) => false, (path: string) => false, (path: string) => false, build, parts)
  }

  /** Another volume is stacked; with another title, extension or ignored part it is not. */
  lemma {:induction false} OneTitleOnly(build: seq<string> -> string, parts: string -> seq<string>, name: string)
    requires name in ["a2xv", "b2xv", "a2xw", "a2yv"]
    ensures var r, items := FourLetters(build, parts), [Plain("a1xv", 1), Plain(name, 1)];
      Advancing(r) && StackFrom(r, items, 0, 0, 0) == if name == "a2xv" then [0, 1] else []
  {
    var r, items := FourLetters(build, parts), [Plain("a1xv", 1), Plain(name, 1)];
    assert "a1xv"[..1] == "a" && "a1xv"[1..2] == "1" && "a1xv"[2..3] == "x" && "a1xv"[3..] == "v";
    assert name[..1] == [name[0]] && name[1..2] == "2" && name[2..3] == [name[2]] && name[3..] == [name[3]];
    StackSearch(r, items, 0, 1, 0, 0);
    if name == "a2xv" {
      StackFromIsStack(r, items, 0, 0, 0);
      TwoEntries(r, items, StackFrom(r, items, 0, 0, 0));
    }
  }

  lemma {:induction false} TwoEntries(r: Rules, items: seq<Item>, stack: seq<nat>)
    requires |items| == 2 && IsStack(r, items, 0, stack)
    ensures stack == [0, 1]
  {
    StackFits(r, items, 0, stack);
    assert stack[1] == 1;
  }

  /** The parts of a RAR set keep the path of the first one. */
  lemma {:induction false} RarKeepsItsPath(r: Rules, items: seq<Item>, i: nat, stack: seq<nat>)
    requires IsStack(r, items, i, stack) && i + |stack| <= |items| && r.isRar(items[i].path)
    ensures Folded(r, items, i, stack)[i].path == items[i].path
  {
    assert Picked(items, stack)[0] == items[i];
  }

  class Listing {
    var items: seq<Item>

    constructor (items: seq<Item>)
      ensures this.items == items
    {
      this.items := items;
    }

    method Remove(i: nat)
      requires i < |items|
      modifies this
      ensures items == old(items)[..i] + old(items)[i + 1..]
    {
      items := items[..i] + items[i + 1..];
    }

    /** Goes through the entries after `i` for one expression and offset. */
    method Gather(r: Rules, i: nat, expr: nat, offset: nat, file1: string)
      returns (stack: seq<nat>, size: nat, verdict: Option<Verdict>)
      requires Advancing(r) && i < |items| && r.find(expr, file1, offset).Some?
      ensures var others := GoesWith(r, items, expr, offset, file1, i + 1).0;
        stack == if others == [] then [] else [i] + others
      ensures verdict == GoesWith(r, items, expr, offset, file1, i + 1).1
      ensures InList(items, stack) && size == TotalSize(Picked(items, stack))
    {
      stack, size, verdict := [], 0, None;
      var j := i + 1;
      while j < |items|
        invariant i < j <= |items| && Gathered(r, items, i, expr, offset, file1, j, stack)
        invariant InList(items, stack) && size == TotalSize(Picked(items, stack))
      {
        if !Skipped(r, items[j]) {
          var v := Compare(r, expr, file1, r.fileName(items[j].path), offset);
          if v != Stacks {
            return stack, size, Some(v);
          }
          GatheredNext(r, items, i, expr, offset, file1, j, stack);
          stack, size := Join(i, j, stack, size);
        }
        j := j + 1;
      }
    }

    /** Entry `j` joins the stack of entry `i`, which that entry itself begins. */
    method Join(i: nat, j: nat, stack: seq<nat>, size: nat) returns (stack': seq<nat>, size': nat)
      requires i < |items| && j < |items| && InList(items, stack) && size == TotalSize(Picked(items, stack))
      ensures stack' == (if stack == [] then [i] else stack) + [j]
      ensures InList(items, stack') && size' == TotalSize(Picked(items, stack'))
    {
      stack', size' := stack, size;
      if stack == [] {
        PickedNext(items, [], i);
        assert [] + [i] == [i];
        stack', size' := [i], items[i].size;
      }
      PickedNext(items, stack', j);
      stack', size' := stack' + [j], size' + items[j].size;
    }

    /** One turn: the stack found with this expression and offset, or what to try next. */
    method TryStack(r: Rules, i: nat, expr: nat, offset: nat, file1: string)
      returns (stack: seq<nat>, size: nat, expr': nat, offset': nat)
      requires Advancing(r) && i < |items| && offset <= Longest(r, items)
      requires file1 == r.fileName(items[i].path) && expr < r.expressions
      ensures InList(items, stack) && size == TotalSize(Picked(items, stack))
      ensures stack != [] ==> stack == StackFrom(r, items, i, expr, offset)
      ensures stack == [] ==>
        && offset' <= Longest(r, items) && (expr < expr' <= r.expressions || (expr == expr' && offset < offset'))
        && StackFrom(r, items, i, expr', offset') == StackFrom(r, items, i, expr, offset)
    {
      stack, size, expr', offset' := [], 0, expr + 1, 0;
      if r.find(expr, file1, offset).Some? {
        RetryAdvances(r, items, expr, offset, file1, i + 1);
        var verdict;
        stack, size, verdict := Gather(r, i, expr, offset, file1);
        match verdict {
          case None => expr' := r.expressions;
          case Some(Retry(next)) => expr', offset' := expr, next;
          case Some(_) =>
        }
      }
    }

    /** The stack that starts at entry `i`, tried with every expression and offset; empty if there is none. */
    method FindStack(r: Rules, i: nat) returns (stack: seq<nat>, size: nat)
      requires Advancing(r) && i < |items|
      ensures stack == StackFrom(r, items, i, 0, 0)
      ensures InList(items, stack) && size == TotalSize(Picked(items, stack))
    {
      stack, size := [], 0;
      var file1 := r.fileName(items[i].path);
      var expr, offset := 0, 0;
      ghost var longest := Longest(r, items);
      while expr < r.expressions && stack == []
        invariant InList(items, stack) && size == TotalSize(Picked(items, stack))
        invariant expr <= r.expressions && offset <= longest
        invariant StackFrom(r, items, i, 0, 0) == if stack == [] then StackFrom(r, items, i, expr, offset) else stack
        decreases if stack == [] then 1 else 0, r.expressions - expr, longest - offset
      {
        var expr', offset';
        stack, size, expr', offset' := TryStack(r, i, expr, offset, file1);
        if stack == [] {
          expr, offset := expr', offset';
        }
      }
    }

    /** Folds the entries of the stack at `i` into entry `i` and removes as many entries after it. */
    method Fold(r: Rules, i: nat, stack: seq<nat>, size: nat)
      requires IsStack(r, items, i, stack) && i + |stack| <= |items| && size == TotalSize(Picked(items, stack))
      modifies this
      ensures items == Folded(r, old(items), i, stack)
    {
      ghost var before := items;
      var stackPath := FoldedPath(r, Picked(items, stack));
      items := items[i := items[i].(path := stackPath)];
      RemoveAfter(i, |stack| - 1);
      items := items[i := items[i].(size := size)];
      FoldSteps(before, i, |stack|, stackPath, size);
    }

    /** Removes the `n` entries right after entry `i`. */
    method RemoveAfter(i: nat, n: nat)
      requires i + n < |items|
      modifies this
      ensures items == old(items)[..i + 1] + old(items)[i + n + 1..]
    {
      ghost var before := items;
      var k := 0;
      while k < n
        invariant 0 <= k <= n && items == before[..i + 1] + before[i + k + 1..]
      {
        Remove(i + 1);
        k := k + 1;
      }
    }

    /**
     Stacks the whole listing in place: every stack there is, `Stacked`, and nothing else. If no stack
     has a skipped entry inside (`GapFree`), the listing is cut into runs, in order, each folded into
     one entry. `Fold` removes the entries right behind the first one, so a skipped entry inside a
     stack is lost instead of the part behind it: with distinct paths, the original entries can be
     read back exactly if the original listing is free of gaps.
     */
    method StackFiles(r: Rules)
      requires Advancing(r)
      modifies this
      ensures items == Stacked(r, old(items), 0)
      ensures GapFree(r, old(items), 0) ==> exists groups :: IsFolding(r, old(items), items, groups)
      ensures Tidy(r, old(items)) ==> GapFree(r, old(items), 0)
      ensures StacksReadBack(r) && Readable(r, old(items)) && DistinctPaths(old(items)) ==>
        (Expanded(r, items) == Paths(old(items)) <==> GapFree(r, old(items), 0))
    {
      ghost var before, groups, done: nat := items, [], 0;
      ghost var clean := true;
      var i := 0;
      while i < |items|
        invariant Progress(r, before, items, i, clean, groups, done)
        invariant Stacked(r, items, i) == Stacked(r, before, 0)
        invariant GapFree(r, before, 0) <==> clean && GapFree(r, items, i)
        decreases |items| - i
      {
        if Skipped(r, items[i]) {
          PassOver(r, before, items, i, clean, groups, done);
          groups, done := groups + [[items[i]]], done + 1;
        } else {
          clean, groups, done := StackEntry(r, i, before, clean, groups, done);
        }
        i := i + 1;
      }
      AllDone(r, before, items, i, clean, groups, done);
    }

    /** One entry that may start a stack. */
    method StackEntry(r: Rules, i: nat, ghost before: seq<Item>, ghost clean: bool, ghost groups: seq<seq<Item>>,
                      ghost done: nat)
      returns (ghost clean': bool, ghost groups': seq<seq<Item>>, ghost done': nat)
      requires Advancing(r) && i < |items| && !Skipped(r, items[i])
      requires Progress(r, before, items, i, clean, groups, done)
      modifies this
      ensures Progress(r, before, items, i + 1, clean', groups', done')
      ensures Stacked(r, items, i + 1) == Stacked(r, old(items), i)
      ensures clean && GapFree(r, old(items), i) <==> clean' && GapFree(r, items, i + 1)
      ensures |items| <= |old(items)|
    {
      ghost var was := items;
      var stack, size := FindStack(r, i);
      StackFromIsStack(r, items, i, 0, 0);
      if |stack| > 1 {
        StackFits(r, items, i, stack);
        Fold(r, i, stack, size);
      }
      clean', groups', done' := EntryProgress(r, before, was, items, i, clean, groups, done);
    }
  }

  /** The listing once the stack that entry `i` starts, if there is one, is folded. */
  ghost predicate EntryDone(r: Rules, was: seq<Item>, now: seq<Item>, i: nat)
    requires Advancing(r) && i < |was|
  {
    var stack := StackFrom(r, was, i, 0, 0);
    if stack == [] then now == was
    else IsStack(r, was, i, stack) && i + |stack| <= |was| && now == Folded(r, was, i, stack)
  }

  /** What the turn for entry `i` makes of the progress, and of what is still to come. */
  lemma {:induction false} EntryProgress(r: Rules, before: seq<Item>, was: seq<Item>, now: seq<Item>, i: nat,
                                         clean: bool, groups: seq<seq<Item>>, done: nat)
    returns (clean': bool, groups': seq<seq<Item>>, done': nat)
    requires Advancing(r) && i < |was| && !Skipped(r, was[i]) && EntryDone(r, was, now, i)
    requires Progress(r, before, was, i, clean, groups, done)
    ensures Progress(r, before, now, i + 1, clean', groups', done') && |now| <= |was|
    ensures Stacked(r, now, i + 1) == Stacked(r, was, i)
    ensures clean && GapFree(r, was, i) <==> clean' && GapFree(r, now, i + 1)
  {
    var stack := StackFrom(r, was, i, 0, 0);
    clean', groups', done' := clean, groups + [[was[i]]], done + 1;
    if stack == [] {
      PassOver(r, before, was, i, clean, groups, done);
    } else {
      FoldProgress(r, before, was, now, i, clean, groups, done, stack);
      if Contiguous(i, stack) {
        groups', done' := groups + [was[i..i + |stack|]], done + |stack|;
      } else {
        clean' := false;
      }
    }
  }

  /** How far the listing has come: folded faithfully so far, or already standing for something else. */
  ghost predicate Progress(r: Rules, before: seq<Item>, now: seq<Item>, i: nat, clean: bool,
                           groups: seq<seq<Item>>, done: nat)
  {
    && i <= |now|
    && (clean ==> Folding(r, before, now, i, groups, done))
    && (!clean && StacksReadBack(r) && Readable(r, before) && DistinctPaths(before) ==> Lost(r, before, now[..i]))
    && (Tidy(r, before) ==> clean)
  }

  lemma PassOver(r: Rules, before: seq<Item>, now: seq<Item>, i: nat, clean: bool, groups: seq<seq<Item>>, done: nat)
    requires Progress(r, before, now, i, clean, groups, done) && i < |now|
    ensures Progress(r, before, now, i + 1, clean, groups + [[now[i]]], done + 1)
  {
    if clean {
      KeepOne(r, before, now, i, groups, done);
    } else {
      LostStays(r, before, now[..i], now[..i + 1]);
    }
  }

  lemma FoldProgress(r: Rules, before: seq<Item>, was: seq<Item>, now: seq<Item>, i: nat, clean: bool,
                     groups: seq<seq<Item>>, done: nat, stack: seq<nat>)
    requires Progress(r, before, was, i, clean, groups, done)
    requires IsStack(r, was, i, stack) && i + |stack| <= |was| && now == Folded(r, was, i, stack)
    ensures Contiguous(i, stack) ==>
      Progress(r, before, now, i + 1, clean, groups + [was[i..i + |stack|]], done + |stack|)
    ensures !Contiguous(i, stack) ==> Progress(r, before, now, i + 1, false, groups + [[was[i]]], done + 1)
  {
    if clean {
      if Contiguous(i, stack) {
        FoldRun(r, before, was, now, i, groups, done, stack);
      } else {
        TidySuffix(r, before, was, i, groups, done, stack);
        FoldLoses(r, before, was, now, i, groups, done, stack);
      }
    } else {
      assert was[..i] <= now[..i + 1];
      LostStays(r, before, was[..i], now[..i + 1]);
    }
  }

  lemma AllDone(r: Rules, before: seq<Item>, now: seq<Item>, i: nat, clean: bool, groups: seq<seq<Item>>, done: nat)
    requires Progress(r, before, now, i, clean, groups, done) && i == |now|
    ensures clean ==> IsFolding(r, before, now, groups)
    ensures StacksReadBack(r) && Readable(r, before) && DistinctPaths(before) ==>
      (clean <==> Expanded(r, now) == Paths(before))
  {
    assert now[..i] == now;
    if clean {
      AllFolded(r, before, now, groups, done);
    }
  }

  ghost predicate DistinctPaths(items: seq<Item>) {
    forall i, j :: 0 <= i < j < |items| ==> items[i].path != items[j].path
  }

  /** The first `i` entries fold the first `done` original ones, and the rest are untouched. */
  ghost predicate Folding(r: Rules, before: seq<Item>, now: seq<Item>, i: nat, groups: seq<seq<Item>>, done: nat) {
    && i <= |now| && done <= |before| && now[i..] == before[done..]
    && IsFolding(r, before[..done], now[..i], groups)
  }

  /** What has been stacked so far already stands for other entries than the original ones. */
  ghost predicate Lost(r: Rules, before: seq<Item>, now: seq<Item>) {
    exists b :: 0 <= b < |Expanded(r, now)| && b < |before| && Expanded(r, now)[b] != before[b].path
  }

  lemma {:induction false} ExpandedPrefix(r: Rules, a: seq<Item>, b: seq<Item>)
    requires a <= b
    ensures Expanded(r, a) <= Expanded(r, b)
    decreases |b|
  {
    if |a| == |b| {
      assert a == b;
    } else {
      ExpandedPrefix(r, a, b[..|b| - 1]);
    }
  }

  lemma LostStays(r: Rules, before: seq<Item>, a: seq<Item>, b: seq<Item>)
    requires a <= b
    ensures Lost(r, before, a) ==> Lost(r, before, b)
  {
    ExpandedPrefix(r, a, b);
  }

  lemma StackFits(r: Rules, items: seq<Item>, i: nat, stack: seq<nat>)
    requires IsStack(r, items, i, stack)
    ensures i + |stack| <= |items|
  {
    Increasing(stack, 0, |stack| - 1);
  }

  /** An entry that is not stacked is a run of its own. */
  lemma KeepOne(r: Rules, before: seq<Item>, now: seq<Item>, i: nat, groups: seq<seq<Item>>, done: nat)
    requires Folding(r, before, now, i, groups, done) && i < |now|
    ensures Folding(r, before, now, i + 1, groups + [[now[i]]], done + 1)
  {
    assert now[i] == now[i..][0] == before[done..][0];
    assert now[i + 1..] == now[i..][1..] && before[done + 1..] == before[done..][1..];
    Extend(r, before, now, i, groups, done, [now[i]], now);
  }

  /** One more run has been folded into entry `i`. */
  lemma Extend(r: Rules, before: seq<Item>, now: seq<Item>, i: nat, groups: seq<seq<Item>>, done: nat,
               group: seq<Item>, now': seq<Item>)
    requires Folding(r, before, now, i, groups, done) && i < |now'| && now'[..i] == now[..i]
    requires done + |group| <= |before| && group == before[done..done + |group|] && StandsFor(r, now'[i], group)
    requires now'[i + 1..] == before[done + |group|..]
    ensures Folding(r, before, now', i + 1, groups + [group], done + |group|)
  {
    var groups' := groups + [group];
    assert groups'[..|groups|] == groups;
    assert before[..done + |group|] == before[..done] + group;
    forall k | 0 <= k < i + 1 ensures StandsFor(r, now'[..i + 1][k], groups'[k]) {
      if k < i {
        assert now'[..i + 1][k] == now'[..i][k] == now[..i][k];
        assert StandsFor(r, now[..i][k], groups[k]);
      }
    }
  }

  lemma FoldSteps(items: seq<Item>, i: nat, n: nat, path: string, size: nat)
    requires 0 < n && i + n <= |items|
    ensures var named := items[i := items[i].(path := path)];
      var cut := named[..i + 1] + named[i + n..];
      cut[i := cut[i].(size := size)] == items[..i] + [items[i].(path := path, size := size)] + items[i + n..]
  {}

  lemma Associate(a: seq<nat>, j: nat, b: seq<nat>)
    ensures a + ([j] + b) == a + [j] + b
  {}

  lemma PickedNext(items: seq<Item>, stack: seq<nat>, j: nat)
    requires InList(items, stack) && j < |items|
    ensures InList(items, stack + [j])
    ensures TotalSize(Picked(items, stack + [j])) == TotalSize(Picked(items, stack)) + items[j].size
  {
    assert Picked(items, stack + [j])[..|stack|] == Picked(items, stack);
  }

  /** Folding a contiguous stack folds a run. */
  lemma FoldRun(r: Rules, before: seq<Item>, was: seq<Item>, now: seq<Item>, i: nat, groups: seq<seq<Item>>, done: nat,
                stack: seq<nat>)
    requires Folding(r, before, was, i, groups, done) && IsStack(r, was, i, stack) && Contiguous(i, stack)
    requires i + |stack| <= |was| && now == Folded(r, was, i, stack)
    ensures Folding(r, before, now, i + 1, groups + [was[i..i + |stack|]], done + |stack|)
  {
    var group := was[i..i + |stack|];
    RunStandsFor(r, was, i, stack);
    SuffixRun(before, was, i, done, |stack|);
    assert now[..i] == was[..i] && now[i + 1..] == was[i + |stack|..];
    Extend(r, before, was, i, groups, done, group, now);
  }

  lemma RunStandsFor(r: Rules, was: seq<Item>, i: nat, stack: seq<nat>)
    requires IsStack(r, was, i, stack) && Contiguous(i, stack) && i + |stack| <= |was|
    ensures StandsFor(r, Folded(r, was, i, stack)[i], was[i..i + |stack|])
  {
    var group := was[i..i + |stack|];
    assert Picked(was, stack) == group;
    forall k | 0 <= k < |group| ensures !Skipped(r, group[k]) {
      assert group[k] == was[stack[k]];
    }
  }

  lemma SuffixRun(before: seq<Item>, was: seq<Item>, i: nat, done: nat, n: nat)
    requires i + n <= |was| && done <= |before| && was[i..] == before[done..]
    ensures done + n <= |before|
    ensures was[i..i + n] == before[done..done + n] && was[i + n..] == before[done + n..]
  {
    assert was[i..i + n] == was[i..][..n] && before[done..done + n] == before[done..][..n];
    assert was[i + n..] == was[i..][n..] && before[done + n..] == before[done..][n..];
  }

  /** A tidy listing is tidy from any point on, so no stack in it has a gap. */
  lemma TidySuffix(r: Rules, before: seq<Item>, was: seq<Item>, i: nat, groups: seq<seq<Item>>, done: nat,
                   stack: seq<nat>)
    requires Folding(r, before, was, i, groups, done) && IsStack(r, was, i, stack) && !Contiguous(i, stack)
    ensures !Tidy(r, before)
  {
    assert forall k :: i <= k < |was| ==> was[k] == was[i..][k - i] == before[done..][k - i] == before[k - i + done];
    if Tidy(r, before) {
      forall n | 0 <= n < |stack| ensures stack[n] == i + n { TidyIsContiguous(r, was, i, stack, n); }
    }
  }

  /** The first position at which a stack skips an entry. */
  lemma FirstGap(stack: seq<nat>, i: nat) returns (n: nat)
    requires |stack| > 0 && stack[0] == i && !Contiguous(i, stack)
    requires Ascending(stack)
    ensures 0 < n < |stack| && stack[n] > i + n
  {
    n :| 0 <= n < |stack| && stack[n] != i + n;
    Increasing(stack, 0, n);
  }

  /** The stack path names the part beyond the gap where the original listing has the skipped entry. */
  lemma FoldLoses(r: Rules, before: seq<Item>, was: seq<Item>, now: seq<Item>, i: nat, groups: seq<seq<Item>>,
                  done: nat,
                  stack: seq<nat>)
    requires Folding(r, before, was, i, groups, done) && IsStack(r, was, i, stack) && !Contiguous(i, stack)
    requires i + |stack| <= |was| && now == Folded(r, was, i, stack)
    ensures StacksReadBack(r) && Readable(r, before) && DistinctPaths(before) ==> Lost(r, before, now[..i + 1])
  {
    if StacksReadBack(r) && Readable(r, before) && DistinctPaths(before) {
      ExpandedStack(r, before, was, i, groups, done, stack);
      LostAtGap(r, before, was, i, done, stack, Expanded(r, now[..i + 1]));
    }
  }

  lemma LostAtGap(r: Rules, before: seq<Item>, was: seq<Item>, i: nat, done: nat, stack: seq<nat>,
                  expanded: seq<string>)
    requires DistinctPaths(before) && IsStack(r, was, i, stack) && !Contiguous(i, stack)
    requires i < |was| && done <= |before| && was[i..] == before[done..]
    requires expanded == Paths(before[..done]) + Paths(Picked(was, stack))
    ensures exists b :: 0 <= b < |expanded| && b < |before| && expanded[b] != before[b].path
  {
    var n := FirstGap(stack, i);
    SuffixShift(before, was, i, done, stack[n]);
    GapShows(before, Paths(Picked(was, stack)), done, n, stack[n] - i + done, expanded);
  }

  lemma ExpandedStack(r: Rules, before: seq<Item>, was: seq<Item>, i: nat, groups: seq<seq<Item>>, done: nat,
                      stack: seq<nat>)
    requires Folding(r, before, was, i, groups, done) && IsStack(r, was, i, stack) && i + |stack| <= |was|
    requires StacksReadBack(r) && Readable(r, before)
    ensures Expanded(r, Folded(r, was, i, stack)[..i + 1]) == Paths(before[..done]) + Paths(Picked(was, stack))
  {
    var now := Folded(r, was, i, stack);
    assert now[..i] == was[..i];
    SuffixShift(before, was, i, done, i);
    PartsOfPicked(r, was, stack);
    ExpandedFold(r, was, now, i, FoldedPath(r, Picked(was, stack)));
    ExpandedDone(r, before, was, i, groups, done);
  }

  lemma PartsOfPicked(r: Rules, items: seq<Item>, stack: seq<nat>)
    requires StacksReadBack(r) && |stack| >= 2 && InList(items, stack) && !r.isRar(items[stack[0]].path)
    ensures r.parts(FoldedPath(r, Picked(items, stack))) == Paths(Picked(items, stack))
  {
    assert Picked(items, stack)[0] == items[stack[0]];
  }

  lemma GapShows(before: seq<Item>, paths: seq<string>, done: nat, n: nat, other: nat, expanded: seq<string>)
    requires DistinctPaths(before) && done <= |before| && expanded == Paths(before[..done]) + paths
    requires n < |paths| && done + n < other < |before| && paths[n] == before[other].path
    ensures done + n < |expanded| && done + n < |before| && expanded[done + n] != before[done + n].path
  {
    assert expanded[done + n] == paths[n];
  }

  lemma SuffixShift(before: seq<Item>, was: seq<Item>, i: nat, done: nat, k: nat)
    requires i <= k < |was| && done <= |before| && was[i..] == before[done..]
    ensures k - i + done < |before| && was[k] == before[k - i + done]
  {
    assert was[k] == was[i..][k - i] == before[done..][k - i];
  }

  lemma ExpandedFold(r: Rules, was: seq<Item>, now: seq<Item>, i: nat, path: string)
    requires i < |now| && i <= |was| && now[..i] == was[..i] && now[i].path == path
    ensures Expanded(r, now[..i + 1]) == Expanded(r, was[..i]) + r.parts(path)
  {
    assert now[..i + 1][..i] == was[..i];
  }

  lemma ExpandedDone(r: Rules, before: seq<Item>, now: seq<Item>, i: nat, groups: seq<seq<Item>>, done: nat)
    requires Folding(r, before, now, i, groups, done) && StacksReadBack(r) && Readable(r, before)
    ensures Expanded(r, now[..i]) == Paths(before[..done])
  {
    assert before == before[..done] + before[done..];
    ReadableParts(r, before[..done], before[done..]);
    FoldingKeepsPaths(r, before[..done], now[..i], groups);
  }

  lemma AllFolded(r: Rules, before: seq<Item>, now: seq<Item>, groups: seq<seq<Item>>, done: nat)
    requires Folding(r, before, now, |now|, groups, done)
    ensures IsFolding(r, before, now, groups)
    ensures StacksReadBack(r) && Readable(r, before) ==> Expanded(r, now) == Paths(before)
  {
    assert before[done..] == [] && before[..done] == before && now[..|now|] == now;
    if StacksReadBack(r) && Readable(r, before) {
      FoldingKeepsPaths(r, before, now, groups);
    }
  }

  predicate InList(items: seq<Item>, stack: seq<nat>) {
    forall k :: 0 <= k < |stack| ==> stack[k] < |items|
  }

  /** The entries at the given positions. */
  function Picked(items: seq<Item>, stack: seq<nat>): (picked: seq<Item>)
    requires forall k :: 0 <= k < |stack| ==> stack[k] < |items|
    ensures |picked| == |stack|
    ensures forall k :: 0 <= k < |stack| ==> picked[k] == items[stack[k]]
  {
    seq(|stack|, k requires 0 <= k < |stack| => items[stack[k]])
  }

  /** The length of the longest file name in the listing. */
  ghost function Longest(r: Rules, items: seq<Item>): nat {
    if items == [] then 0
    else
      var rest, last := Longest(r, items[..|items| - 1]), |r.fileName(items[|items| - 1].path)|;
      if last > rest then last else rest
  }

  lemma {:induction false} NoLonger(r: Rules, items: seq<Item>, j: nat)
    requires j < |items|
    ensures |r.fileName(items[j].path)| <= Longest(r, items)
  {
    if j < |items| - 1 { NoLonger(r, items[..|items| - 1], j); }
  }
}
