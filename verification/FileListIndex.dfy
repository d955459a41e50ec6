/** The path index of `CFileItemList`: a map kept beside the vector of items for fast lookup. */
module FileListIndex {
  import opened FileItems
  import opened RandR

  /** The first item whose key under `key` is `k`. */
  function Scan(items: seq<Item>, key: string -> string, k: string): Option<Item> {
    if items == [] then None
    else if key(items[0].Path()) == k then Some(items[0])
    else Scan(items[1..], key, k)
  }

  ghost predicate DistinctKeys(items: seq<Item>, key: string -> string) {
    forall i, j :: 0 <= i < j < |items| ==> key(items[i].Path()) != key(items[j].Path())
  }

  /** The map finds under every key exactly what a scan of the items for that key finds. */
  ghost predicate IsIndex(index: map<string, Item>, items: seq<Item>, key: string -> string) {
    forall k :: (if k in index then Some(index[k]) else None) == Scan(items, key, k)
  }

  /** `std::map::insert`: an existing entry is kept. */
  function Insert(index: map<string, Item>, k: string, item: Item): map<string, Item> {
    if k in index then index else index[k := item]
  }

  lemma {:induction false} ScanConcat(a: seq<Item>, b: seq<Item>, key: string -> string, k: string)
    ensures Scan(a + b, key, k) == if Scan(a, key, k).Some? then Scan(a, key, k) else Scan(b, key, k)
  {
    if a == [] {
      assert a + b == b;
    } else {
      ScanConcat(a[1..], b, key, k);
      assert (a + b)[0] == a[0] && (a + b)[1..] == a[1..] + b;
    }
  }

  lemma {:induction false} ScanFinds(items: seq<Item>, key: string -> string, k: string)
    ensures Scan(items, key, k).Some? <==> exists i :: 0 <= i < |items| && key(items[i].Path()) == k
    ensures Scan(items, key, k).Some? ==>
      Scan(items, key, k).value in items && key(Scan(items, key, k).value.Path()) == k
  {
    if items != [] {
      ScanFinds(items[1..], key, k);
      if i :| 0 <= i < |items| && key(items[i].Path()) == k {
        if i > 0 { assert items[1..][i - 1] == items[i]; }
      }
    }
  }

  /** With distinct keys the scan finds the one item that has the key. */
  /** It is the first item with the key that is found. */
  lemma {:induction false} ScanIsFirst(items: seq<Item>, key: string -> string, k: string, i: nat)
    requires i < |items| && key(items[i].Path()) == k && forall j :: 0 <= j < i ==> key(items[j].Path()) != k
    ensures Scan(items, key, k) == Some(items[i])
  {
    if i > 0 { ScanIsFirst(items[1..], key, k, i - 1); }
  }

  lemma ScanFindsOnly(items: seq<Item>, key: string -> string, i: nat)
    requires DistinctKeys(items, key) && i < |items|
    ensures Scan(items, key, key(items[i].Path())) == Some(items[i])
  {
    var k := key(items[i].Path());
    ScanFinds(items, key, k);
    var j :| 0 <= j < |items| && items[j] == Scan(items, key, k).value;
  }

  /** Adding at the end keeps the index right whatever the keys are. */
  lemma IndexAppend(index: map<string, Item>, items: seq<Item>, key: string -> string, item: Item)
    requires IsIndex(index, items, key)
    ensures IsIndex(Insert(index, key(item.Path()), item), items + [item], key)
  {
    forall k
      ensures (if k in Insert(index, key(item.Path()), item)
               then Some(Insert(index, key(item.Path()), item)[k]) else None)
              == Scan(items + [item], key, k)
    {
      ScanConcat(items, [item], key, k);
    }
  }

  /** Inserting before others keeps the index right exactly if the first item of that key stays the first. */
  lemma IndexInsert(index: map<string, Item>, a: seq<Item>, b: seq<Item>, key: string -> string, item: Item)
    requires IsIndex(index, a + b, key)
    ensures IsIndex(Insert(index, key(item.Path()), item), a + [item] + b, key) <==>
      (Scan(a, key, key(item.Path())).Some? || Scan(b, key, key(item.Path())) in {None, Some(item)})
  {
    var k0, after := key(item.Path()), Insert(index, key(item.Path()), item);
    forall k
      ensures Scan(a + b, key, k) == if Scan(a, key, k).Some? then Scan(a, key, k) else Scan(b, key, k)
      ensures Scan(a + [item] + b, key, k) ==
        if Scan(a, key, k).Some? then Scan(a, key, k) else if k == k0 then Some(item) else Scan(b, key, k)
    {
      ScanConcat(a, b, key, k);
      ScanConcat(a + [item], b, key, k);
      ScanConcat(a, [item], key, k);
    }
    if Scan(a, key, k0).Some? || Scan(b, key, k0) in {None, Some(item)} {
      assert IsIndex(after, a + [item] + b, key);
    } else {
      assert (if k0 in after then Some(after[k0]) else None) != Scan(a + [item] + b, key, k0);
    }
  }

  /** Erasing an item and its key keeps the index right exactly if no other item has that key. */
  lemma IndexErase(index: map<string, Item>, a: seq<Item>, b: seq<Item>, key: string -> string, item: Item)
    requires IsIndex(index, a + [item] + b, key)
    ensures IsIndex(index - {key(item.Path())}, a + b, key) <==> Scan(a + b, key, key(item.Path())).None?
  {
    var k0 := key(item.Path());
    forall k | k != k0
      ensures Scan(a + [item] + b, key, k) == Scan(a + b, key, k)
    {
      ScanConcat(a, b, key, k);
      ScanConcat(a + [item], b, key, k);
      ScanConcat(a, [item], key, k);
    }
    if Scan(a + b, key, k0).None? {
      assert IsIndex(index - {k0}, a + b, key);
    } else {
      assert k0 !in index - {k0};
    }
  }

  /** With distinct keys, the order of the items does not matter to the index. */
  lemma IndexReorder(index: map<string, Item>, items: seq<Item>, sorted: seq<Item>, key: string -> string)
    requires IsIndex(index, items, key) && DistinctKeys(items, key) && DistinctKeys(sorted, key)
    requires forall item :: item in items <==> item in sorted
    ensures IsIndex(index, sorted, key)
  {
    forall k ensures Scan(items, key, k) == Scan(sorted, key, k) {
      ScanFinds(items, key, k);
      ScanFinds(sorted, key, k);
      if Scan(items, key, k).Some? {
        var i :| 0 <= i < |sorted| && sorted[i] == Scan(items, key, k).value;
        ScanFindsOnly(sorted, key, i);
      }
    }
  }

  function Self(path: string): string { path }

  /**
   With distinct keys, the slow lookup finds what the fast one finds for every path exactly if the
   items' own paths are their keys: with options ignored, it misses every item that has some.
   */
  lemma LookupsAgree(items: seq<Item>, key: string -> string)
    requires DistinctKeys(items, key) && forall path :: key(key(path)) == key(path)
    ensures (forall path :: Scan(items, key, key(path)) == Scan(items, Self, key(path))) <==>
      (forall i :: 0 <= i < |items| ==> key(items[i].Path()) == items[i].Path())
  {
    if forall i :: 0 <= i < |items| ==> key(items[i].Path()) == items[i].Path() {
      forall path ensures Scan(items, key, key(path)) == Scan(items, Self, key(path)) {
        SameScan(items, key, key(path));
      }
    } else {
      var i :| 0 <= i < |items| && key(items[i].Path()) != items[i].Path();
      var k := key(items[i].Path());
      ScanFindsOnly(items, key, i);
      ScanFinds(items, Self, k);
      assert forall j :: 0 <= j < |items| && items[j].Path() == k ==> key(items[j].Path()) == key(items[i].Path());
      assert Scan(items, key, key(items[i].Path())) != Scan(items, Self, key(items[i].Path()));
    }
  }

  lemma {:induction false} SameScan(items: seq<Item>, key: string -> string, k: string)
    requires forall i :: 0 <= i < |items| ==> key(items[i].Path()) == items[i].Path()
    ensures Scan(items, key, k) == Scan(items, Self, k)
  {
    if items != [] { SameScan(items[1..], key, k); }
  }

  /**
   An item that is renamed while the map has it is still found under its old key, and not under its
   new one: with distinct keys, old and new, the map is no index any more.
   */
  lemma RenamingBreaksIndex(index: map<string, Item>, items: seq<Item>, key: string -> string, i: nat, renamed: Item)
    requires IsIndex(index, items, key) && DistinctKeys(items, key) && i < |items|
    requires forall j :: 0 <= j < |items| ==> key(items[j].Path()) != key(renamed.Path())
    ensures !IsIndex(index[key(items[i].Path()) := renamed], items[i := renamed], key)
    ensures key(items[i].Path()) in index && key(renamed.Path()) !in index
  {
    var k0, now := key(items[i].Path()), items[i := renamed];
    ScanFindsOnly(items, key, i);
    ScanFinds(items, key, key(renamed.Path()));
    ScanFinds(now, key, k0);
    forall j | 0 <= j < |now| ensures key(now[j].Path()) != k0 {
      if j != i { assert now[j] == items[j]; }
    }
    assert Scan(now, key, k0) == None;
    assert k0 in index[k0 := renamed];
  }
}
