/** The records the screens receive from the API (app/collections.tsx, app/tags.tsx,
    components/BookmarksList.tsx) and the grouped records they build from them. */
module Records {
  import opened Wrappers

  /** A tag as the server lists it. */
  datatype Tag = Tag(id: int, name: string)

  /** A collection as the server lists it. */
  datatype Collection = Collection(id: int, name: string)

  /** A bookmark. `tags` may be missing (it is declared optional in BookmarksList.tsx
      and read with `?.` in tags.tsx), so it is an Option here. */
  datatype Bookmark = Bookmark(
    id: int,
    text: string,
    title: Option<string>,
    collectionId: Option<int>,
    collectionName: Option<string>,
    createdAt: string,
    tags: Option<seq<Tag>>)

  /** `{ ...collection, bookmarks }`: a collection together with the bookmarks shown under it. */
  datatype CollectionGroup = CollectionGroup(id: int, name: string, bookmarks: seq<Bookmark>)

  /** `TagWithBookmarks`: a tag together with the bookmarks shown under it. */
  datatype TagGroup = TagGroup(id: int, name: string, bookmarks: seq<Bookmark>)

  /** `collectionsData.find(c => c.id === id)`: the first collection with that id. */
  function FindCollection(cs: seq<Collection>, id: int): (r: Option<Collection>)
    ensures r.None? <==> forall i :: 0 <= i < |cs| ==> cs[i].id != id
    ensures r.Some? ==> exists i :: 0 <= i < |cs| && cs[i] == r.value && r.value.id == id &&
                                    forall j :: 0 <= j < i ==> cs[j].id != id
  {
    if cs == [] then None
    else if cs[0].id == id then Some(cs[0])
    else
      var r := FindCollection(cs[1..], id);
      assert r.Some? ==> exists i :: 0 <= i < |cs| - 1 && cs[1..][i] == r.value && r.value.id == id &&
                                      forall j :: 0 <= j < i ==> cs[1..][j].id != id;
      r
  }

  /** `tagsData.find(t => t.id === id)`: the first tag with that id. */
  function FindTag(ts: seq<Tag>, id: int): (r: Option<Tag>)
    ensures r.None? <==> forall i :: 0 <= i < |ts| ==> ts[i].id != id
    ensures r.Some? ==> exists i :: 0 <= i < |ts| && ts[i] == r.value && r.value.id == id &&
                                    forall j :: 0 <= j < i ==> ts[j].id != id
  {
    if ts == [] then None
    else if ts[0].id == id then Some(ts[0])
    else
      var r := FindTag(ts[1..], id);
      assert r.Some? ==> exists i :: 0 <= i < |ts| - 1 && ts[1..][i] == r.value && r.value.id == id &&
                                      forall j :: 0 <= j < i ==> ts[1..][j].id != id;
      r
  }
}
