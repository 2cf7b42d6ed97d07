/** app/collections.tsx: grouping the fetched bookmarks under the fetched collections,
    and the narrowed view of one collection chosen by a route parameter. */
module CollectionsView {
  import opened Wrappers
  import opened Records

  /** `if (bookmark.collection_id)` with key `k`: the id is present, truthy (not 0) and equal to `k`. */
  predicate FiledUnder(b: Bookmark, k: int) {
    b.collectionId == Some(k) && k != 0
  }

  /** The bookmarks filed under `k`, in fetch order: what the grouping loop collects for key `k`. */
  function MembersOf(bs: seq<Bookmark>, k: int): seq<Bookmark> {
    if bs == [] then []
    else (if FiledUnder(bs[0], k) then [bs[0]] else []) + MembersOf(bs[1..], k)
  }

  /** `bookmarksByCollection.get(k) || []`. */
  function Lookup(index: map<int, seq<Bookmark>>, k: int): seq<Bookmark> {
    if k in index then index[k] else []
  }

  /** Grouping keeps fetch order: the group of a concatenation is the concatenation of the groups. */
  lemma {:induction false} MembersOfConcat(a: seq<Bookmark>, b: seq<Bookmark>, k: int)
    ensures MembersOf(a + b, k) == MembersOf(a, k) + MembersOf(b, k)
  {
    if a == [] {
      assert a + b == b;
    } else {
      assert (a + b)[0] == a[0];
      assert (a + b)[1..] == a[1..] + b;
      MembersOfConcat(a[1..], b, k);
      var head := if FiledUnder(a[0], k) then [a[0]] else [];
      assert MembersOf(a + b, k) == head + (MembersOf(a[1..], k) + MembersOf(b, k));
      assert MembersOf(a, k) == head + MembersOf(a[1..], k);
    }
  }

  /** Appending one bookmark appends it to the group of `k` exactly when it is filed under `k`. */
  lemma MembersOfSnoc(bs: seq<Bookmark>, x: Bookmark, k: int)
    ensures MembersOf(bs + [x], k) == MembersOf(bs, k) + if FiledUnder(x, k) then [x] else []
  {
    MembersOfConcat(bs, [x], k);
    assert [x][1..] == [];
  }

  /** How many times `x` is in the group of `k`: all its copies if it is filed under `k`, else none. */
  lemma {:induction false} MembersOfCount(bs: seq<Bookmark>, k: int, x: Bookmark)
    ensures multiset(MembersOf(bs, k))[x] == if FiledUnder(x, k) then multiset(bs)[x] else 0
  {
    if bs != [] {
      assert bs == [bs[0]] + bs[1..];
      MembersOfCount(bs[1..], k, x);
    }
  }

  /** A group holds only fetched bookmarks filed under its key. */
  lemma {:induction false} MembersOfSound(bs: seq<Bookmark>)
    ensures forall k, x :: x in MembersOf(bs, k) ==> x in bs && FiledUnder(x, k)
  {
    if bs != [] {
      MembersOfSound(bs[1..]);
      assert bs == [bs[0]] + bs[1..];
    }
  }

  /** The group of `k` is non-empty exactly when some fetched bookmark is filed under `k`. */
  lemma MembersOfNonEmpty(bs: seq<Bookmark>, k: int)
    ensures MembersOf(bs, k) != [] <==> exists i :: 0 <= i < |bs| && FiledUnder(bs[i], k)
  {
  }

  /** One turn of the grouping loop: appending `x` under its key, when it has a truthy one,
      turns the index of `bs` into the index of `bs + [x]`. */
  lemma GroupStep(before: map<int, seq<Bookmark>>, after: map<int, seq<Bookmark>>, bs: seq<Bookmark>, x: Bookmark)
    requires forall k :: Lookup(before, k) == MembersOf(bs, k)
    requires after == if x.collectionId.Some? && x.collectionId.value != 0
                      then before[x.collectionId.value := Lookup(before, x.collectionId.value) + [x]]
                      else before
    ensures forall k :: Lookup(after, k) == MembersOf(bs + [x], k)
  {
    forall k ensures Lookup(after, k) == MembersOf(bs + [x], k) {
      MembersOfSnoc(bs, x, k);
    }
  }

  /** Lines 53-60: the `forEach` that fills a `Map` from collection id to its bookmarks.
      A key is present exactly when some bookmark is filed under it, and holds those bookmarks in fetch order. */
  method GroupByCollection(bookmarks: seq<Bookmark>) returns (index: map<int, seq<Bookmark>>)
    ensures forall k :: k in index <==> MembersOf(bookmarks, k) != []
    ensures forall k :: k in index ==> index[k] == MembersOf(bookmarks, k)
  {
    index := map[];
    var i := 0;
    while i < |bookmarks|
      invariant 0 <= i <= |bookmarks|
      invariant forall k :: Lookup(index, k) == MembersOf(bookmarks[..i], k)
      invariant forall k :: k in index ==> index[k] != []
    {
      var bookmark := bookmarks[i];
      ghost var before := index;
      if bookmark.collectionId.Some? && bookmark.collectionId.value != 0 {
        var key := bookmark.collectionId.value;
        var collectionBookmarks := Lookup(index, key);
        collectionBookmarks := collectionBookmarks + [bookmark];
        index := index[key := collectionBookmarks];
      }
      assert bookmarks[..i + 1] == bookmarks[..i] + [bookmark];
      GroupStep(before, index, bookmarks[..i], bookmark);
      i := i + 1;
    }
    assert bookmarks[..i] == bookmarks;
    forall k ensures k in index <==> MembersOf(bookmarks, k) != [] {
      assert Lookup(index, k) == MembersOf(bookmarks, k);
    }
  }

  /** Lines 63-66: one group per collection, in the same order, with id and name copied and
      the bookmarks the index holds for that id, or none. */
  function AttachBookmarks(cs: seq<Collection>, index: map<int, seq<Bookmark>>): (groups: seq<CollectionGroup>)
    ensures |groups| == |cs|
    ensures forall i :: 0 <= i < |cs| ==>
      groups[i].id == cs[i].id && groups[i].name == cs[i].name && groups[i].bookmarks == Lookup(index, cs[i].id)
  {
    if cs == [] then []
    else [CollectionGroup(cs[0].id, cs[0].name, Lookup(index, cs[0].id))] + AttachBookmarks(cs[1..], index)
  }

  /** The collections screen when no collection is chosen: every collection with the bookmarks filed under it. */
  function CollectionGroups(cs: seq<Collection>, bs: seq<Bookmark>): (groups: seq<CollectionGroup>)
    ensures |groups| == |cs|
    ensures forall i :: 0 <= i < |cs| ==> groups[i].id == cs[i].id && groups[i].name == cs[i].name
    ensures forall i, x :: 0 <= i < |cs| && x in groups[i].bookmarks ==> x in bs && FiledUnder(x, cs[i].id)
  {
    MembersOfSound(bs);
    seq(|cs|, i requires 0 <= i < |cs| => CollectionGroup(cs[i].id, cs[i].name, MembersOf(bs, cs[i].id)))
  }

  /** Attaching the index that GroupByCollection builds yields CollectionGroups. */
  lemma AttachIndexIsGroups(cs: seq<Collection>, bs: seq<Bookmark>, index: map<int, seq<Bookmark>>)
    requires forall k :: k in index <==> MembersOf(bs, k) != []
    requires forall k :: k in index ==> index[k] == MembersOf(bs, k)
    ensures AttachBookmarks(cs, index) == CollectionGroups(cs, bs)
  {
  }

  /** A bookmark is in a collection's group as often as it was fetched when it is filed under
      that collection, and never otherwise. */
  lemma GroupCount(cs: seq<Collection>, bs: seq<Bookmark>, i: int, x: Bookmark)
    requires 0 <= i < |cs|
    ensures var g := CollectionGroups(cs, bs)[i];
      multiset(g.bookmarks)[x] == if FiledUnder(x, cs[i].id) then multiset(bs)[x] else 0
  {
    MembersOfCount(bs, cs[i].id, x);
  }

  /** A bookmark fetched once and filed under collection `c` is in `c`'s group exactly once,
      and in no group of another collection. */
  lemma FiledBookmarkOnceInItsGroup(cs: seq<Collection>, bs: seq<Bookmark>, x: Bookmark, c: int)
    requires multiset(bs)[x] == 1 && FiledUnder(x, c)
    ensures forall i :: 0 <= i < |cs| && cs[i].id == c ==> multiset(CollectionGroups(cs, bs)[i].bookmarks)[x] == 1
    ensures forall i :: 0 <= i < |cs| && cs[i].id != c ==> x !in CollectionGroups(cs, bs)[i].bookmarks
  {
    forall i | 0 <= i < |cs| ensures multiset(CollectionGroups(cs, bs)[i].bookmarks)[x] == if cs[i].id == c then 1 else 0 {
      GroupCount(cs, bs, i, x);
    }
  }

  /** A bookmark without a collection id, or with the falsy id 0, is in no group. */
  lemma UnfiledBookmarkInNoGroup(cs: seq<Collection>, bs: seq<Bookmark>, x: Bookmark)
    requires x.collectionId == None || x.collectionId == Some(0)
    ensures forall i :: 0 <= i < |cs| ==> x !in CollectionGroups(cs, bs)[i].bookmarks
  {
    forall i | 0 <= i < |cs| ensures multiset(CollectionGroups(cs, bs)[i].bookmarks)[x] == 0 {
      GroupCount(cs, bs, i, x);
    }
  }

  /** A collection that no fetched bookmark is filed under gets an empty group. */
  lemma UnreferencedCollectionEmpty(cs: seq<Collection>, bs: seq<Bookmark>, i: int)
    requires 0 <= i < |cs|
    requires forall j :: 0 <= j < |bs| ==> !FiledUnder(bs[j], cs[i].id)
    ensures CollectionGroups(cs, bs)[i].bookmarks == []
  {
    MembersOfNonEmpty(bs, cs[i].id);
  }

  /** A bookmark whose collection id names no listed collection appears nowhere in the output. */
  lemma OrphanBookmarkDropped(cs: seq<Collection>, bs: seq<Bookmark>, x: Bookmark)
    requires forall i :: 0 <= i < |cs| ==> x.collectionId != Some(cs[i].id)
    ensures forall i :: 0 <= i < |cs| ==> x !in CollectionGroups(cs, bs)[i].bookmarks
  {
    forall i | 0 <= i < |cs| ensures multiset(CollectionGroups(cs, bs)[i].bookmarks)[x] == 0 {
      GroupCount(cs, bs, i, x);
    }
  }

  /** The collections screen's state cells `collections` and `loading`. */
  class CollectionsPage {
    /** The `collectionId` route parameter, already parsed. */
    const collectionId: Option<int>
    var collections: seq<CollectionGroup>
    var loading: bool

    /** Lines 29-31: no groups, still loading. */
    constructor (collectionId: Option<int>)
      ensures this.collectionId == collectionId && collections == [] && loading
    {
      this.collectionId := collectionId;
      collections := [];
      loading := true;
    }

    /** Lines 34-75: `loadCollections`, with the two awaited responses as inputs
        (`getBookmarksByCollection` in the narrowed view, `getAllBookmarks` otherwise).
        `loading` ends false on every path; a failed request leaves `collections` as it was;
        the narrowed view shows one group with the server's bookmarks when the collection is listed
        and changes nothing when it is not; otherwise every collection gets its filed bookmarks. */
    method LoadCollections(collectionsData: Fetch<seq<Collection>>, bookmarksData: Fetch<seq<Bookmark>>)
      modifies this`collections, this`loading
      ensures !loading
      ensures collectionsData.Failed? || bookmarksData.Failed? ==> collections == old(collections)
      ensures collectionsData.Ok? && bookmarksData.Ok? && collectionId.None? ==>
        collections == CollectionGroups(collectionsData.value, bookmarksData.value)
      ensures collectionsData.Ok? && bookmarksData.Ok? && collectionId.Some? ==>
        match FindCollection(collectionsData.value, collectionId.value)
        case Some(c) => collections == [CollectionGroup(c.id, c.name, bookmarksData.value)]
        case None => collections == old(collections)
    {
      if collectionsData.Ok? && bookmarksData.Ok? {
        if collectionId.Some? {
          var collection := FindCollection(collectionsData.value, collectionId.value);
          if collection.Some? {
            collections := [CollectionGroup(collection.value.id, collection.value.name, bookmarksData.value)];
          }
        } else {
          var index := GroupByCollection(bookmarksData.value);
          collections := AttachBookmarks(collectionsData.value, index);
          AttachIndexIsGroups(collectionsData.value, bookmarksData.value, index);
        }
      }
      loading := false;
    }
  }
}
