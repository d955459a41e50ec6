/** Items of file lists: what one holds, and the object that holds it. */
module FileItems {
  import opened RandR

  datatype Tags = Tags(
    music: Option<string>, video: Option<string>, radio: Option<string>, picture: Option<string>, game: Option<string>)

  const NO_TAGS := Tags(None, None, None, None, None)

  /** The fields of an item that are no tags; `other` is all but the first and the third. */
  datatype Fields = Fields(isParent: bool, path: string, other: string)
  datatype Contents = Contents(fields: Fields, tags: Tags)

  const NEW_CONTENTS := Contents(Fields(false, "", ""), NO_TAGS)

  /** An item; `id` tells apart objects that hold the same. */
  datatype Item = Item(contents: Contents, id: nat) {
    function Path(): string { contents.fields.path }
    predicate IsParent() { contents.fields.isParent }
  }

  /** What the items hold, in order. */
  function AllContents(items: seq<Item>): (all: seq<Contents>)
    ensures |all| == |items|
    ensures forall k :: 0 <= k < |items| ==> all[k] == items[k].contents
  {
    seq(|items|, k requires 0 <= k < |items| => items[k].contents)
  }
}
