/**
 Storing a file list in an archive and loading it back. An archive is a row of cells, written and
 read in order. Fields that are written and read one after the other in any case share a cell.
 */
module ListArchive {
  import opened FileItems
  import opened RandR

  datatype Cell =
    | Int(i: int)
    | Bool(b: bool)
    | Str(s: string)
    | FieldsCell(fields: Fields)
    | SortCell(sort: Sort)
    | DetailsCell(details: Details)

  datatype Sort = Sort(key: int, order: int, attributes: int)
  const UNSORTED := Sort(0, 0, 0)
  const CACHE_IF_SLOW := 1
  datatype Details = Details(sort: Sort, buttonLabel: string, labelMasks: seq<string>)

  /** All that an archive keeps of a list. */
  datatype Saved = Saved(
    own: Contents, items: seq<Contents>, ignoreURLOptions: bool, fastLookup: bool, sort: Sort, sortIgnoreFolders: bool,
    cacheToDisc: int, details: seq<Details>, content: string)

  function TagCells(tag: Option<string>): seq<Cell> {
    match tag
    case Some(text) => [Int(1), Str(text)]
    case None => [Int(0)]
  }

  function TagsCells(t: Tags): seq<Cell> {
    TagCells(t.music) + (TagCells(t.video) + (TagCells(t.radio) + (TagCells(t.picture) + TagCells(t.game))))
  }

  function ItemCells(i: Contents): seq<Cell> { [FieldsCell(i.fields)] + TagsCells(i.tags) }

  function ItemsCells(items: seq<Contents>): seq<Cell> {
    if items == [] then [] else ItemCells(items[0]) + ItemsCells(items[1..])
  }

  function DetailsCells(details: seq<Details>): (cells: seq<Cell>)
    ensures |cells| == |details| && forall j :: 0 <= j < |details| ==> cells[j] == DetailsCell(details[j])
  {
    seq(|details|, j requires 0 <= j < |details| => DetailsCell(details[j]))
  }

  function FlagCells(s: Saved): seq<Cell> {
    [Bool(s.ignoreURLOptions), Bool(s.fastLookup), SortCell(s.sort), Bool(s.sortIgnoreFolders), Int(s.cacheToDisc),
     Int(|s.details|)]
  }

  /** What follows the number of items. */
  function BodyCells(s: Saved): seq<Cell> {
    FlagCells(s) + (DetailsCells(s.details) + ([Str(s.content)] + ItemsCells(s.items)))
  }

  function SavedCells(s: Saved): seq<Cell> { ItemCells(s.own) + ([Int(|s.items|)] + BodyCells(s)) }

  function WithoutParent(items: seq<Contents>): seq<Contents> {
    if items != [] && items[0].fields.isParent then items[1..] else items
  }

  /** The leading parent and the rest make up the list. */
  lemma {:induction false} ParentAndRest(items: seq<Contents>)
    ensures LeadingParent(items) + WithoutParent(items) == items
    ensures LeadingParent(items) == [] <==> items == [] || !items[0].fields.isParent
    ensures |LeadingParent(items)| <= 1
  {}

  /** A tag is loaded over the one there is, which stays if none was stored. */
  function Over(stored: Option<string>, present: Option<string>): Option<string> {
    if stored.Some? then stored else present
  }

  function TagsOver(s: Tags, p: Tags): Tags {
    Tags(Over(s.music, p.music), Over(s.video, p.video), Over(s.radio, p.radio),
         Over(s.picture, p.picture), Over(s.game, p.game))
  }

  /** A radio tag can only be loaded into an item that has one already. */
  predicate Loadable(stored: Contents, into: Contents) {
    stored.tags.radio.Some? ==> into.tags.radio.Some?
  }

  class Archive {
    var cells: seq<Cell>
    var pos: nat

    constructor (cells: seq<Cell>)
      ensures this.cells == cells && pos == 0
    {
      this.cells, pos := cells, 0;
    }

    /** What has not been read. */
    function Rest(): seq<Cell>
      reads this
    {
      if pos <= |cells| then cells[pos..] else []
    }

    method Put(more: seq<Cell>)
      modifies this`cells
      ensures cells == old(cells) + more
    {
      cells := cells + more;
    }

    method GetInt() returns (i: int)
      requires pos < |cells| && cells[pos].Int?
      modifies this`pos
      ensures i == cells[old(pos)].i && pos == old(pos) + 1
    {
      i, pos := cells[pos].i, pos + 1;
    }

    method GetBool() returns (b: bool)
      requires pos < |cells| && cells[pos].Bool?
      modifies this`pos
      ensures b == cells[old(pos)].b && pos == old(pos) + 1
    {
      b, pos := cells[pos].b, pos + 1;
    }

    method GetString() returns (s: string)
      requires pos < |cells| && cells[pos].Str?
      modifies this`pos
      ensures s == cells[old(pos)].s && pos == old(pos) + 1
    {
      s, pos := cells[pos].s, pos + 1;
    }

    method GetFields() returns (fields: Fields)
      requires pos < |cells| && cells[pos].FieldsCell?
      modifies this`pos
      ensures fields == cells[old(pos)].fields && pos == old(pos) + 1
    {
      fields, pos := cells[pos].fields, pos + 1;
    }

    method GetSort() returns (sort: Sort)
      requires pos < |cells| && cells[pos].SortCell?
      modifies this`pos
      ensures sort == cells[old(pos)].sort && pos == old(pos) + 1
    {
      sort, pos := cells[pos].sort, pos + 1;
    }

    method GetDetails() returns (details: Details)
      requires pos < |cells| && cells[pos].DetailsCell?
      modifies this`pos
      ensures details == cells[old(pos)].details && pos == old(pos) + 1
    {
      details, pos := cells[pos].details, pos + 1;
    }
  }

  /** The cells ahead are those of the first part, cell by cell; past them comes the second part. */
  lemma Ahead(ar: Archive, first: seq<Cell>, second: seq<Cell>)
    requires ar.pos <= |ar.cells| && ar.Rest() == first + second
    ensures ar.pos + |first| <= |ar.cells| && ar.cells[ar.pos + |first|..] == second
    ensures forall k {:trigger first[k]} :: 0 <= k < |first| ==> ar.cells[ar.pos + k] == first[k]
  {
    assert forall k {:trigger first[k]} :: 0 <= k < |first| ==> ar.Rest()[k] == first[k];
    assert ar.Rest()[|first|..] == second;
  }

  lemma Associate(a: seq<Cell>, b: seq<Cell>, c: seq<Cell>)
    ensures a + (b + c) == a + b + c
  {
  }

  lemma ItemsCellsFrom(head: seq<Cell>, items: seq<Contents>, k: nat)
    requires k < |items|
    ensures head + ItemsCells(items[k..]) == head + ItemCells(items[k]) + ItemsCells(items[k + 1..])
  {
    assert items[k..][0] == items[k] && items[k..][1..] == items[k + 1..];
    Associate(head, ItemCells(items[k]), ItemsCells(items[k + 1..]));
  }

  /** The parts of a stored list, one after the other. */
  lemma JoinedUp(start: seq<Cell>, s: Saved)
    ensures start + ItemCells(s.own) + [Int(|s.items|)] + FlagCells(s) + DetailsCells(s.details) + [Str(s.content)]
              + ItemsCells(s.items)
         == start + SavedCells(s)
  {
    var own, count, flags, details, content, items :=
      ItemCells(s.own), [Int(|s.items|)], FlagCells(s), DetailsCells(s.details), [Str(s.content)], ItemsCells(s.items);
    Associate(start + own + count + flags + details, content, items);
    Associate(start + own + count + flags, details, content + items);
    Associate(start + own + count, flags, details + (content + items));
    Associate(start + own, count, BodyCells(s));
    Associate(start, own, count + BodyCells(s));
  }

  lemma BodyIs(s: Saved, rest: seq<Cell>)
    ensures BodyCells(s) + rest
         == FlagCells(s) + (DetailsCells(s.details) + ([Str(s.content)] + (ItemsCells(s.items) + rest)))
  {
    Associate([Str(s.content)], ItemsCells(s.items), rest);
    Associate(DetailsCells(s.details), [Str(s.content)] + ItemsCells(s.items), rest);
    Associate(FlagCells(s), DetailsCells(s.details) + ([Str(s.content)] + ItemsCells(s.items)), rest);
  }

  lemma SavedIs(s: Saved, rest: seq<Cell>)
    ensures SavedCells(s) + rest == ItemCells(s.own) + ([Int(|s.items|)] + (BodyCells(s) + rest))
  {
    Associate([Int(|s.items|)], BodyCells(s), rest);
    Associate(ItemCells(s.own), [Int(|s.items|)] + BodyCells(s), rest);
  }

  method LoadTag(ar: Archive, present: Option<string>, ghost stored: Option<string>, ghost rest: seq<Cell>)
    returns (tag: Option<string>)
    requires ar.pos <= |ar.cells| && ar.Rest() == TagCells(stored) + rest
    modifies ar`pos
    ensures tag == Over(stored, present) && ar.pos <= |ar.cells| && ar.Rest() == rest
  {
    Ahead(ar, TagCells(stored), rest);
    assert ar.cells[ar.pos] == TagCells(stored)[0];
    assert stored.Some? ==> ar.cells[ar.pos + 1] == TagCells(stored)[1];
    var kind := ar.GetInt();
    tag := present;
    if kind == 1 {
      var text := ar.GetString();
      tag := Some(text);
    }
  }

  /** Fails where the program would follow a null pointer. */
  method LoadTags(ar: Archive, present: Tags, ghost stored: Tags, ghost rest: seq<Cell>) returns (ok: bool, tags: Tags)
    requires ar.pos <= |ar.cells| && ar.Rest() == TagsCells(stored) + rest
    modifies ar`pos
    ensures ok <==> (stored.radio.Some? ==> present.radio.Some?)
    ensures ok ==> tags == TagsOver(stored, present) && ar.pos <= |ar.cells| && ar.Rest() == rest
    ensures ok ==> tags.music == if stored.music.Some? then stored.music else present.music
    ensures ok ==> tags.video == if stored.video.Some? then stored.video else present.video
    ensures ok ==> tags.radio == if stored.radio.Some? then stored.radio else present.radio
    ensures ok ==> tags.picture == if stored.picture.Some? then stored.picture else present.picture
    ensures ok ==> tags.game == if stored.game.Some? then stored.game else present.game
  {
    ghost var fourth := TagCells(stored.picture) + (TagCells(stored.game) + rest);
    ghost var third := TagCells(stored.radio) + fourth;
    ghost var second := TagCells(stored.video) + third;
    assert TagsCells(stored) + rest == TagCells(stored.music) + second;
    tags := present;
    var music := LoadTag(ar, present.music, stored.music, second);
    var video := LoadTag(ar, present.video, stored.video, third);
    Ahead(ar, TagCells(stored.radio), fourth);
    assert ar.cells[ar.pos] == TagCells(stored.radio)[0];
    if ar.cells[ar.pos].i == 1 && present.radio.None? { return false, tags; }
    var radio := LoadTag(ar, present.radio, stored.radio, fourth);
    var picture := LoadTag(ar, present.picture, stored.picture, TagCells(stored.game) + rest);
    var game := LoadTag(ar, present.game, stored.game, rest);
    return true, Tags(music, video, radio, picture, game);
  }

  method StoreItem(ar: Archive, item: Contents)
    modifies ar`cells
    ensures ar.cells == old(ar.cells) + ItemCells(item)
  {
    ar.Put([FieldsCell(item.fields)]);
    ar.Put(TagCells(item.tags.music));
    ar.Put(TagCells(item.tags.video));
    ar.Put(TagCells(item.tags.radio));
    ar.Put(TagCells(item.tags.picture));
    ar.Put(TagCells(item.tags.game));
  }

  method LoadItem(ar: Archive, into: Contents, ghost stored: Contents, ghost rest: seq<Cell>)
    returns (ok: bool, item: Contents)
    requires ar.pos <= |ar.cells| && ar.Rest() == ItemCells(stored) + rest
    modifies ar`pos
    ensures ok <==> Loadable(stored, into)
    ensures ok ==> item == Merged(stored, into) && ar.pos <= |ar.cells| && ar.Rest() == rest
  {
    ghost var tail := TagsCells(stored.tags) + rest;
    assert ItemCells(stored) + rest == [FieldsCell(stored.fields)] + tail;
    Ahead(ar, [FieldsCell(stored.fields)], tail);
    assert ar.cells[ar.pos] == [FieldsCell(stored.fields)][0];
    var fields := ar.GetFields();
    var tags;
    ok, tags := LoadTags(ar, into.tags, stored.tags, rest);
    item := Contents(fields, tags);
  }

  function Merged(stored: Contents, present: Contents): Contents {
    stored.(tags := TagsOver(stored.tags, present.tags))
  }

  function LeadingParent(items: seq<Contents>): seq<Contents> {
    if items != [] && items[0].fields.isParent then [items[0]] else []
  }

  predicate NoRadio(items: seq<Contents>) {
    forall k :: 0 <= k < |items| ==> items[k].tags.radio.None?
  }

  /** Nothing is set that an empty list would lose. */
  predicate Bare(s: Saved) {
    s == Saved(s.own, s.items, false, false, UNSORTED, false, CACHE_IF_SLOW, [], "")
  }
}
