/** `CFileItemList`: a list of items, the path index kept beside it, and its archive. */
module FileLists {
  import opened FileItems
  import opened FileListIndex
  import opened ListArchive
  import opened RandR

  lemma AppendOne(items: seq<Contents>, more: seq<Contents>, item: Contents)
    ensures items + more + [item] == items + (more + [item])
  {
  }

  /** What is to be read are the items from the `k`-th on. */
  ghost predicate ItemsAhead(ar: Archive, items: seq<Contents>, k: nat, rest: seq<Cell>)
    requires k <= |items|
    reads ar
  {
    ar.pos <= |ar.cells| && ar.Rest() == ItemsCells(items[k..]) + rest
  }

  /** The items of a list and its two flags, which decide what the index is to be. */
  datatype Shape = Shape(items: seq<Item>, fastLookup: bool, ignoreURLOptions: bool)

  datatype Edit =
    | AddLast(item: Item)
    | AddAt(item: Item, position: int)
    | AddAll(items: seq<Item>)
    | RemoveAt(at: int)
    | SwapItems(first: nat, second: nat)
    | LookFast(on: bool)
    | IgnoreOptions(on: bool)

  /** The position that an edit adds at, counted from the end if it is negative. */
  function Place(s: Shape, position: int): int {
    if position >= 0 then position else |s.items| + position
  }

  predicate Fits(s: Shape, e: Edit) {
    e.AddAt? ==> 0 <= Place(s, e.position) <= |s.items|
  }

  function Edited(s: Shape, e: Edit): Shape
    requires Fits(s, e)
  {
    match e
    case AddLast(item) => s.(items := s.items + [item])
    case AddAt(item, position) => s.(items := s.items[..Place(s, position)] + [item] + s.items[Place(s, position)..])
    case AddAll(items) => s.(items := s.items + items)
    case RemoveAt(i) => if 0 <= i < |s.items| then s.(items := s.items[..i] + s.items[i + 1..]) else s
    case SwapItems(i, j) =>
      if i != j && i < |s.items| && j < |s.items| then s.(items := s.items[i := s.items[j]][j := s.items[i]]) else s
    case LookFast(on) => s.(fastLookup := on)
    case IgnoreOptions(on) => s.(ignoreURLOptions := on)
  }

  function KeyUnder(strip: string -> string, ignoring: bool): string -> string {
    if ignoring then strip else (path: string) => path
  }

  /** No two items have the same key, at any time. */
  ghost predicate DistinctThroughout(s: Shape, edits: seq<Edit>, strip: string -> string)
    decreases |edits|
  {
    && DistinctKeys(s.items, KeyUnder(strip, s.ignoreURLOptions))
    && (edits != [] ==> Fits(s, edits[0]) && DistinctThroughout(Edited(s, edits[0]), edits[1..], strip))
  }

  ghost function AllEdited(s: Shape, edits: seq<Edit>, strip: string -> string): Shape
    requires DistinctThroughout(s, edits, strip)
    decreases |edits|
  {
    if edits == [] then s else AllEdited(Edited(s, edits[0]), edits[1..], strip)
  }

  /** With distinct keys, the key of one item is not found among the others. */
  lemma NotAmongOthers(a: seq<Item>, b: seq<Item>, item: Item, key: string -> string)
    requires DistinctKeys(a + [item] + b, key)
    ensures Scan(a, key, key(item.Path())) == None == Scan(b, key, key(item.Path()))
    ensures Scan(a + b, key, key(item.Path())) == None
  {
    var all, k := a + [item] + b, key(item.Path());
    assert all[|a|] == item;
    forall i | 0 <= i < |a| ensures key(a[i].Path()) != k { assert all[i] == a[i]; }
    forall i | 0 <= i < |b| ensures key(b[i].Path()) != k { assert all[|a| + 1 + i] == b[i]; }
    ScanFinds(a, key, k);
    ScanFinds(b, key, k);
    ScanConcat(a, b, key, k);
  }

  class FileItemList {
    /** A path without the options of its URL. */
    const strip: string -> string
    /** What the list holds as an item of its own. */
    var own: Contents
    var items: seq<Item>
    var index: map<string, Item>
    var fastLookup: bool
    var ignoreURLOptions: bool
    var sort: Sort
    var sortIgnoreFolders: bool
    var cacheToDisc: int
    var details: seq<Details>
    var content: string

    constructor (strip: string -> string)
      ensures this.strip == strip && Valid() && items == []
      ensures All() == Saved(NEW_CONTENTS, [], false, false, UNSORTED, false, CACHE_IF_SLOW, [], "")
    {
      this.strip, own, items, index, fastLookup, ignoreURLOptions := strip, NEW_CONTENTS, [], map[], false, false;
      sort, sortIgnoreFolders, cacheToDisc, details, content := UNSORTED, false, CACHE_IF_SLOW, [], "";
    }

    /** The key of a path under the current flag. */
    function Key(): string -> string
      reads this`ignoreURLOptions
    {
      KeyUnder(strip, ignoreURLOptions)
    }

    /** The map is the index of the items, or empty while fast lookup is off. */
    ghost predicate Valid()
      reads this
    {
      if fastLookup then IsIndex(index, items, Key()) else index == map[]
    }

    ghost predicate Distinct()
      reads this
    {
      DistinctKeys(items, Key())
    }

    /** Generates the map when fast lookup is switched on, and clears it when it is switched off. */
    method SetFastLookup(fast: bool)
      requires Valid()
      modifies this`index, this`fastLookup
      ensures Valid() && fastLookup == fast
    {
      if fast && !fastLookup {
        index := map[];
        var i := 0;
        while i < |items|
          invariant 0 <= i <= |items| && IsIndex(index, items[..i], Key())
        {
          IndexAppend(index, items[..i], Key(), items[i]);
          assert items[..i + 1] == items[..i] + [items[i]];
          index := Insert(index, Key()(items[i].Path()), items[i]);
          i := i + 1;
        }
        assert items[..i] == items;
      }
      if !fast && fastLookup {
        index := map[];
      }
      fastLookup := fast;
    }

    /** Changes what counts as a key; the map is cleared and regenerated. */
    method SetIgnoreURLOptions(ignore: bool)
      requires Valid()
      modifies this`index, this`fastLookup, this`ignoreURLOptions
      ensures Valid() && fastLookup == old(fastLookup) && ignoreURLOptions == ignore
    {
      ignoreURLOptions := ignore;
      if fastLookup {
        fastLookup := false;
        index := map[];
        SetFastLookup(true);
      }
    }

    method Add(item: Item)
      requires Valid()
      modifies this`items, this`index
      ensures Valid() && items == old(items) + [item]
    {
      if fastLookup {
        IndexAppend(index, items, Key(), item);
        index := Insert(index, Key()(item.Path()), item);
      }
      items := items + [item];
    }

    method Append(list: seq<Item>)
      requires Valid()
      modifies this`items, this`index
      ensures Valid() && items == old(items) + list
    {
      var i := 0;
      while i < |list|
        invariant 0 <= i <= |list| && Valid() && items == old(items) + list[..i]
      {
        Add(list[i]);
        i := i + 1;
      }
    }

    /** Inserts at a position, counted from the end when it is negative. */
    method AddFront(item: Item, itemPosition: int)
      requires Valid() && -|items| <= itemPosition <= |items|
      modifies this`items, this`index
      ensures var at := if itemPosition >= 0 then itemPosition else |old(items)| + itemPosition;
        && items == old(items)[..at] + [item] + old(items)[at..]
        && (Valid() <==>
              !fastLookup || Scan(old(items)[..at], Key(), Key()(item.Path())).Some?
              || Scan(old(items)[at..], Key(), Key()(item.Path())) in {None, Some(item)})
    {
      var at := if itemPosition >= 0 then itemPosition else |items| + itemPosition;
      assert items == items[..at] + items[at..];
      if fastLookup {
        IndexInsert(index, items[..at], items[at..], Key(), item);
      }
      items := items[..at] + [item] + items[at..];
      if fastLookup {
        index := Insert(index, Key()(item.Path()), item);
      }
    }

    /** Removes by position; positions outside the list are ignored. */
    method Remove(i: int)
      requires Valid()
      modifies this`items, this`index
      ensures !(0 <= i < |old(items)|) ==> items == old(items) && Valid()
      ensures 0 <= i < |old(items)| ==>
        && items == old(items)[..i] + old(items)[i + 1..]
        && (Valid() <==> !fastLookup || Scan(items, Key(), Key()(old(items)[i].Path())).None?)
    {
      if 0 <= i < |items| {
        var item := items[i];
        assert items == items[..i] + [item] + items[i + 1..];
        if fastLookup {
          IndexErase(index, items[..i], items[i + 1..], Key(), item);
          index := index - {Key()(item.Path())};
        }
        items := items[..i] + items[i + 1..];
      }
    }

    /** Swaps two items if both positions exist. */
    method Swap(i: nat, j: nat)
      requires Valid()
      modifies this`items
      ensures items == if i != j && i < |old(items)| && j < |old(items)|
                       then old(items)[i := old(items)[j]][j := old(items)[i]] else old(items)
      ensures old(Distinct()) ==> Valid() && Distinct()
    {
      if i != j && i < |items| && j < |items| {
        ghost var before := items;
        items := items[i := items[j]][j := items[i]];
        if DistinctKeys(before, Key()) {
          forall a, b | 0 <= a < b < |items| ensures Key()(items[a].Path()) != Key()(items[b].Path()) {
            var a' := if a == i then j else if a == j then i else a;
            var b' := if b == i then j else if b == j then i else b;
            assert items[a] == before[a'] && items[b] == before[b'];
          }
          forall item ensures item in before <==> item in items {
            assert before[i] == items[j] && before[j] == items[i];
            if k :| 0 <= k < |before| && before[k] == item {
              assert item == items[if k == i then j else if k == j then i else k];
            }
            if k :| 0 <= k < |items| && items[k] == item {
              assert item == before[if k == i then j else if k == j then i else k];
            }
          }
          if fastLookup {
            IndexReorder(index, before, items, Key());
          }
        }
      }
    }

    /** Looks a path up: in the map, or by comparing the items' own paths with its key. */
    method Get(path: string) returns (r: Option<Item>)
      requires Valid()
      ensures fastLookup ==> r == Scan(items, Key(), Key()(path))
      ensures !fastLookup ==> r == Scan(items, Self, Key()(path))
      ensures fastLookup ==>
        (r.Some? <==>
           exists i :: (0 <= i < |items|
                        && if ignoreURLOptions then strip(items[i].Path()) == strip(path) else items[i].Path() == path))
      ensures !fastLookup ==>
        (r.Some? <==>
           exists i :: (0 <= i < |items| && items[i].Path() == if ignoreURLOptions then strip(path) else path))
      ensures r.Some? ==> r.value in items
    {
      ScanFinds(items, Key(), Key()(path));
      ScanFinds(items, Self, Key()(path));
      var k := Key()(path);
      if fastLookup {
        r := if k in index then Some(index[k]) else None;
        return;
      }
      var i := 0;
      while i < |items|
        invariant 0 <= i <= |items| && Scan(items, Self, k) == Scan(items[i..], Self, k)
      {
        if items[i].Path() == k {
          return Some(items[i]);
        }
        i := i + 1;
      }
      r := None;
    }

    function Now(): Shape
      reads this`items, this`fastLookup, this`ignoreURLOptions
    {
      Shape(items, fastLookup, ignoreURLOptions)
    }

    /** One edit, with distinct keys before and after it. */
    method Apply(e: Edit)
      requires Valid() && Distinct() && Fits(Now(), e)
      requires var s := Edited(Now(), e); DistinctKeys(s.items, KeyUnder(strip, s.ignoreURLOptions))
      modifies this`items, this`index, this`fastLookup, this`ignoreURLOptions
      ensures Valid() && Now() == Edited(old(Now()), e)
    {
      match e {
        case AddLast(item) => Add(item);
        case AddAt(item, position) =>
          var at := Place(Now(), position);
          NotAmongOthers(items[..at], items[at..], item, Key());
          AddFront(item, position);
        case AddAll(list) => Append(list);
        case RemoveAt(i) =>
          if 0 <= i < |items| {
            assert items == items[..i] + [items[i]] + items[i + 1..];
            NotAmongOthers(items[..i], items[i + 1..], items[i], Key());
          }
          Remove(i);
        case SwapItems(i, j) => Swap(i, j);
        case LookFast(on) => SetFastLookup(on);
        case IgnoreOptions(on) => SetIgnoreURLOptions(on);
      }
    }

    /** After any edits that keep the keys distinct, the map is exactly the index of the items. */
    method ApplyAll(edits: seq<Edit>)
      requires Valid() && DistinctThroughout(Now(), edits, strip)
      modifies this`items, this`index, this`fastLookup, this`ignoreURLOptions
      ensures Valid() && Distinct() && Now() == AllEdited(old(Now()), edits, strip)
    {
      var i := 0;
      assert edits[0..] == edits;
      while i < |edits|
        invariant 0 <= i <= |edits| && Valid() && DistinctThroughout(Now(), edits[i..], strip)
        invariant AllEdited(Now(), edits[i..], strip) == AllEdited(old(Now()), edits, strip)
      {
        assert edits[i..][0] == edits[i] && edits[i..][1..] == edits[i + 1..];
        Apply(edits[i]);
        i := i + 1;
      }
    }

    /** All that the list holds. */
    function All(): Saved
      reads this
    {
      Saved(own, AllContents(items), ignoreURLOptions, fastLookup, sort, sortIgnoreFolders, cacheToDisc,
            details, content)
    }

    /** What storing keeps: all but a parent item in the lead. */
    function Kept(): Saved
      reads this
    {
      All().(items := WithoutParent(AllContents(items)))
    }

    method Store(ar: Archive)
      modifies ar`cells
      ensures ar.cells == old(ar.cells) + SavedCells(Kept())
    {
      ghost var start, saved := ar.cells, Kept();
      var i := if items != [] && items[0].IsParent() then 1 else 0;
      StoreItem(ar, own);
      ar.Put([Int(|items| - i)]);
      StoreFlags(ar);
      StoreDetails(ar);
      ar.Put([Str(content)]);
      assert AllContents(items)[i..] == saved.items;
      StoreItems(ar, i);
      JoinedUp(start, saved);
    }

    /** The flags and sort values, and the number of details to come. */
    method StoreFlags(ar: Archive)
      modifies ar`cells
      ensures ar.cells == old(ar.cells) + FlagCells(Kept())
    {
      ar.Put([Bool(ignoreURLOptions), Bool(fastLookup), SortCell(sort), Bool(sortIgnoreFolders), Int(cacheToDisc),
              Int(|details|)]);
    }

    method StoreDetails(ar: Archive)
      modifies ar`cells
      ensures ar.cells == old(ar.cells) + DetailsCells(details)
    {
      ghost var head := ar.cells;
      var j := 0;
      while j < |details|
        invariant 0 <= j <= |details| && ar.cells == head + DetailsCells(details[..j])
      {
        assert DetailsCells(details[..j + 1]) == DetailsCells(details[..j]) + [DetailsCell(details[j])];
        ar.Put([DetailsCell(details[j])]);
        j := j + 1;
      }
      assert details[..j] == details;
    }

    /** Stores the `k`-th of these items. */
    method StoreNext(ar: Archive, item: Contents, ghost all: seq<Contents>, ghost k: nat)
      requires k < |all| && item == all[k]
      modifies ar`cells
      ensures ar.cells + ItemsCells(all[k + 1..]) == old(ar.cells) + ItemsCells(all[k..])
    {
      ItemsCellsFrom(ar.cells, all, k);
      StoreItem(ar, item);
    }

    /** Stores the items from the `i`-th on. */
    method StoreItems(ar: Archive, i: nat)
      requires i <= |items|
      modifies ar`cells
      ensures ar.cells == old(ar.cells) + ItemsCells(AllContents(items)[i..])
    {
      ghost var head, all := ar.cells, AllContents(items);
      var k := i;
      while k < |items|
        invariant i <= k <= |items| && head + ItemsCells(all[i..]) == ar.cells + ItemsCells(all[k..])
      {
        StoreNext(ar, items[k].contents, all, k);
        k := k + 1;
      }
      assert all[k..] == [];
    }

    method Clear()
      modifies this`items, this`index, this`sort, this`sortIgnoreFolders, this`cacheToDisc, this`details, this`content
      ensures items == [] && index == map[] && sort == UNSORTED && !sortIgnoreFolders
      ensures cacheToDisc == CACHE_IF_SLOW && details == [] && content == ""
    {
      items, index := [], map[];
      sort, sortIgnoreFolders, cacheToDisc, details, content := UNSORTED, false, CACHE_IF_SLOW, [], "";
    }

    /** The flags and sort values, and the number of details to come. */
    method LoadFlags(ar: Archive, ghost saved: Saved, ghost rest: seq<Cell>)
      returns (ignoring: bool, looking: bool, size: int)
      requires ar.pos <= |ar.cells| && ar.Rest() == FlagCells(saved) + rest
      modifies this`sort, this`sortIgnoreFolders, this`cacheToDisc, ar`pos
      ensures ignoring == saved.ignoreURLOptions && looking == saved.fastLookup && size == |saved.details|
      ensures sort == saved.sort && sortIgnoreFolders == saved.sortIgnoreFolders && cacheToDisc == saved.cacheToDisc
      ensures ar.pos <= |ar.cells| && ar.Rest() == rest
    {
      ghost var flags := FlagCells(saved);
      Ahead(ar, flags, rest);
      assert forall k {:trigger flags[k]} :: 0 <= k < 6 ==> ar.cells[ar.pos + k] == flags[k];
      assert flags[0].Bool? && flags[1].Bool? && flags[2].SortCell? && flags[3].Bool? && flags[4].Int? && flags[5].Int?;
      ignoring := ar.GetBool();
      looking := ar.GetBool();
      sort := ar.GetSort();
      sortIgnoreFolders := ar.GetBool();
      cacheToDisc := ar.GetInt();
      size := ar.GetInt();
    }

    /** What comes between the number of items and the items. */
    method LoadHead(ar: Archive, ghost saved: Saved, ghost rest: seq<Cell>) returns (ignoring: bool, looking: bool)
      requires ar.pos <= |ar.cells| && ar.Rest() == BodyCells(saved) + rest && details == []
      modifies this`sort, this`sortIgnoreFolders, this`cacheToDisc, this`details, this`content, ar`pos
      ensures ignoring == saved.ignoreURLOptions && looking == saved.fastLookup && sort == saved.sort
      ensures sortIgnoreFolders == saved.sortIgnoreFolders && cacheToDisc == saved.cacheToDisc
      ensures details == saved.details && content == saved.content
      ensures ar.pos <= |ar.cells| && ar.Rest() == ItemsCells(saved.items) + rest
    {
      ghost var tail := ItemsCells(saved.items) + rest;
      ghost var last := [Str(saved.content)] + tail;
      BodyIs(saved, rest);
      var size;
      ignoring, looking, size := LoadFlags(ar, saved, DetailsCells(saved.details) + last);
      LoadDetails(ar, size, saved.details, last);
      Ahead(ar, [Str(saved.content)], tail);
      assert ar.cells[ar.pos] == [Str(saved.content)][0];
      content := ar.GetString();
    }

    method LoadDetails(ar: Archive, size: int, ghost stored: seq<Details>, ghost rest: seq<Cell>)
      requires ar.pos <= |ar.cells| && ar.Rest() == DetailsCells(stored) + rest && size == |stored| && details == []
      modifies this`details, ar`pos
      ensures details == stored && ar.pos <= |ar.cells| && ar.Rest() == rest
    {
      ghost var labels, start := DetailsCells(stored), ar.pos;
      Ahead(ar, labels, rest);
      var j := 0;
      while j < size
        invariant 0 <= j <= size && details == stored[..j] && ar.pos == start + j
      {
        assert ar.cells[start + j] == labels[j];
        var d := ar.GetDetails();
        details := details + [d];
        j := j + 1;
      }
    }

    /** Adds the next of the items ahead, as a new object. */
    method AddNext(ar: Archive, ghost stored: seq<Contents>, ghost k: nat, ghost rest: seq<Cell>) returns (ok: bool)
      requires Valid() && k < |stored| && ItemsAhead(ar, stored, k, rest)
      modifies this`items, this`index, ar`pos
      ensures Valid() && (ok <==> stored[k].tags.radio.None?)
      ensures ok ==> AllContents(items) == old(AllContents(items)) + [stored[k]] && ItemsAhead(ar, stored, k + 1, rest)
    {
      ItemsCellsFrom([], stored, k);
      Associate(ItemCells(stored[k]), ItemsCells(stored[k + 1..]), rest);
      assert [] + ItemsCells(stored[k..]) == ItemsCells(stored[k..]);
      assert [] + ItemCells(stored[k]) == ItemCells(stored[k]);
      var contents;
      ok, contents := LoadItem(ar, NEW_CONTENTS, stored[k], ItemsCells(stored[k + 1..]) + rest);
      if ok {
        var id: nat := *;
        Add(Item(contents, id));
      }
    }

    method LoadItems(ar: Archive, size: nat, ghost stored: seq<Contents>, ghost rest: seq<Cell>) returns (ok: bool)
      requires Valid() && ar.pos <= |ar.cells| && ar.Rest() == ItemsCells(stored) + rest && size == |stored|
      modifies this`items, this`index, ar`pos
      ensures Valid() && (ok <==> NoRadio(stored))
      ensures ok ==> AllContents(items) == old(AllContents(items)) + stored && ar.pos <= |ar.cells| && ar.Rest() == rest
    {
      ghost var before := AllContents(items);
      var i := 0;
      assert stored[0..] == stored && before + stored[..0] == before;
      while i < size
        invariant 0 <= i <= size && Valid() && AllContents(items) == before + stored[..i]
        invariant ItemsAhead(ar, stored, i, rest) && NoRadio(stored[..i])
      {
        ok := AddNext(ar, stored, i, rest);
        if !ok {
          assert stored[i].tags.radio.Some?;
          return;
        }
        assert stored[..i + 1] == stored[..i] + [stored[i]];
        AppendOne(before, stored[..i], stored[i]);
        i := i + 1;
      }
      assert stored[..i] == stored && stored[i..] == [];
      assert [] + rest == rest;
      ok := true;
    }

    /** The list's own fields, and the number of items. */
    method LoadOwn(ar: Archive, ghost saved: Saved, ghost rest: seq<Cell>) returns (ok: bool, size: int)
      requires ar.pos <= |ar.cells| && ar.Rest() == ItemCells(saved.own) + ([Int(|saved.items|)] + rest)
      modifies this`own, ar`pos
      ensures ok <==> Loadable(saved.own, old(own))
      ensures ok ==> own == Merged(saved.own, old(own)) && size == |saved.items|
      ensures ok ==> ar.pos <= |ar.cells| && ar.Rest() == rest
    {
      size := 0;
      var self;
      ok, self := LoadItem(ar, own, saved.own, [Int(|saved.items|)] + rest);
      if ok {
        own := self;
        Ahead(ar, [Int(|saved.items|)], rest);
        assert ar.cells[ar.pos] == [Int(|saved.items|)][0];
        size := ar.GetInt();
      }
    }

    /**
     Loads what was stored; a parent item that leads this list stays. The items are new objects, and
     the index is built anew. A stored list without items leaves this one empty, and the rest of what
     was stored unread.
     */
    method Load(ar: Archive, ghost saved: Saved, ghost rest: seq<Cell>) returns (ok: bool)
      requires Valid() && ar.pos <= |ar.cells| && ar.Rest() == SavedCells(saved) + rest
      modifies this, ar`pos
      ensures Valid() && (ok <==> Loadable(saved.own, old(own)) && NoRadio(saved.items))
      ensures ok && saved.items != [] ==>
        && All() == saved.(own := Merged(saved.own, old(own)),
                            items := LeadingParent(old(AllContents(items))) + saved.items)
        && ar.Rest() == rest
      ensures ok && saved.items == [] ==>
        && All() == Saved(Merged(saved.own, old(own)), [], false, false, UNSORTED, false, CACHE_IF_SLOW, [], "")
        && ar.Rest() == BodyCells(saved) + rest
    {
      var parent := CopyOfParent();
      SetIgnoreURLOptions(false);
      SetFastLookup(false);
      Clear();
      SavedIs(saved, rest);
      var size;
      ok, size := LoadOwn(ar, saved, BodyCells(saved) + rest);
      if !ok { return; }
      if size <= 0 { return; }
      ok := LoadBody(ar, size, parent, saved, rest);
    }

    /** What comes after the number of items, if there are any; `parent` goes before them. */
    method LoadBody(ar: Archive, size: nat, parent: seq<Item>, ghost saved: Saved, ghost rest: seq<Cell>)
      returns (ok: bool)
      requires Valid() && !fastLookup && items == [] && details == [] && size == |saved.items|
      requires ar.pos <= |ar.cells| && ar.Rest() == BodyCells(saved) + rest
      modifies this`items, this`index, this`fastLookup, this`ignoreURLOptions
      modifies this`sort, this`sortIgnoreFolders, this`cacheToDisc, this`details, this`content, ar`pos
      ensures Valid() && (ok <==> NoRadio(saved.items))
      ensures ok ==> All() == saved.(own := own, items := AllContents(parent) + saved.items) && ar.Rest() == rest
    {
      items := parent;
      var ignoring, looking := LoadHead(ar, saved, rest);
      ok := LoadItems(ar, size, saved.items, rest);
      SetIgnoreURLOptions(ignoring);
      SetFastLookup(looking);
    }

    /** A new object that holds what a parent item in the lead does, if there is one. */
    method CopyOfParent() returns (parent: seq<Item>)
      ensures AllContents(parent) == LeadingParent(AllContents(items))
    {
      parent := [];
      if items != [] && items[0].IsParent() {
        var id: nat := *;
        parent := [Item(items[0].contents, id)];
      }
    }

    /**
     Storing this list and loading it into another one without tags of its own. It works exactly
     if nothing has a radio tag, and brings all of the list over exactly if it has an item to keep
     or is bare.
     */
    method CopyThroughArchive(other: FileItemList) returns (ok: bool)
      requires other != this && other.Valid() && other.own.tags == NO_TAGS
      modifies other
      ensures other.Valid() && (ok <==> own.tags.radio.None? && NoRadio(Kept().items))
      ensures ok && Kept().items != [] ==>
        other.All() == Kept().(items := LeadingParent(old(AllContents(other.items))) + Kept().items)
      ensures ok ==> (other.Kept().(items := Kept().items) == Kept() <==> Kept().items != [] || Bare(Kept()))
      ensures ok && Kept().items == [] ==> other.items == []
    {
      var ar := new Archive([]);
      Store(ar);
      ghost var saved := Kept();
      assert ar.cells == SavedCells(saved) && ar.Rest() == SavedCells(saved) + [];
      ok := other.Load(ar, saved, []);
    }
  }
}
