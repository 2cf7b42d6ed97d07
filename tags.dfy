/** app/tags.tsx: grouping the fetched bookmarks under every tag they carry (a many-to-many
    fan-out), and the narrowed view of one tag chosen by a route parameter. */
module TagsView {
  import opened Wrappers
  import opened Records

  /** How many entries of `ts` have id `k`. */
  function TagCount(ts: seq<Tag>, k: int): nat {
    if ts == [] then 0 else (if ts[0].id == k then 1 else 0) + TagCount(ts[1..], k)
  }

  /** How many times bookmark `b` carries tag id `k`; a missing tag list carries none. */
  function TagOccurrences(b: Bookmark, k: int): nat {
    match b.tags
    case None => 0
    case Some(ts) => TagCount(ts, k)
  }

  /** `n` copies of `x`. */
  function Repeat(x: Bookmark, n: nat): seq<Bookmark> {
    if n == 0 then [] else [x] + Repeat(x, n - 1)
  }

  /** What the grouping loops collect for tag id `k`: each fetched bookmark, in fetch order,
      once for every time it carries `k`. */
  function TagMembers(bs: seq<Bookmark>, k: int): seq<Bookmark> {
    if bs == [] then [] else Repeat(bs[0], TagOccurrences(bs[0], k)) + TagMembers(bs[1..], k)
  }

  /** `bookmarksByTag.get(k) || []`. */
  function Lookup(index: map<int, seq<Bookmark>>, k: int): seq<Bookmark> {
    if k in index then index[k] else []
  }

  lemma {:induction false} TagCountConcat(a: seq<Tag>, b: seq<Tag>, k: int)
    ensures TagCount(a + b, k) == TagCount(a, k) + TagCount(b, k)
  {
    if a == [] {
      assert a + b == b;
    } else {
      assert (a + b)[0] == a[0];
      assert (a + b)[1..] == a[1..] + b;
      TagCountConcat(a[1..], b, k);
    }
  }

  /** Counting over all but the last tag, then the last. */
  lemma TagCountSnoc(ts: seq<Tag>, k: int)
    requires ts != []
    ensures TagCount(ts, k) == TagCount(ts[..|ts| - 1], k) + if ts[|ts| - 1].id == k then 1 else 0
  {
    var init, t := ts[..|ts| - 1], ts[|ts| - 1];
    assert ts == init + [t];
    TagCountConcat(init, [t], k);
    assert [t][1..] == [];
  }

  lemma {:induction false} RepeatCount(x: Bookmark, n: nat, y: Bookmark)
    ensures multiset(Repeat(x, n))[y] == if x == y then n else 0
  {
    if n > 0 {
      RepeatCount(x, n - 1, y);
    }
  }

  lemma {:induction false} RepeatSnoc(x: Bookmark, n: nat)
    ensures Repeat(x, n) + [x] == Repeat(x, n + 1)
  {
    if n > 0 {
      RepeatSnoc(x, n - 1);
      assert Repeat(x, n) + [x] == [x] + (Repeat(x, n - 1) + [x]);
    }
  }

  /** Grouping keeps fetch order: the group of a concatenation is the concatenation of the groups. */
  lemma {:induction false} TagMembersConcat(a: seq<Bookmark>, b: seq<Bookmark>, k: int)
    ensures TagMembers(a + b, k) == TagMembers(a, k) + TagMembers(b, k)
  {
    if a == [] {
      assert a + b == b;
    } else {
      assert (a + b)[0] == a[0];
      assert (a + b)[1..] == a[1..] + b;
      TagMembersConcat(a[1..], b, k);
      var head := Repeat(a[0], TagOccurrences(a[0], k));
      assert TagMembers(a + b, k) == head + (TagMembers(a[1..], k) + TagMembers(b, k));
    }
  }

  /** Appending one bookmark appends one copy of it for each time it carries `k`. */
  lemma TagMembersSnoc(bs: seq<Bookmark>, x: Bookmark, k: int)
    ensures TagMembers(bs + [x], k) == TagMembers(bs, k) + Repeat(x, TagOccurrences(x, k))
  {
    TagMembersConcat(bs, [x], k);
    assert [x][1..] == [];
    assert TagMembers([x], k) == Repeat(x, TagOccurrences(x, k)) + [];
  }

  /** Peeling the first fetched bookmark off both sides of the count. */
  lemma CountStep(bs: seq<Bookmark>, k: int, x: Bookmark)
    requires bs != []
    ensures multiset(bs)[x] == (if bs[0] == x then 1 else 0) + multiset(bs[1..])[x]
    ensures multiset(TagMembers(bs, k))[x] ==
            (if bs[0] == x then TagOccurrences(x, k) else 0) + multiset(TagMembers(bs[1..], k))[x]
  {
    assert bs == [bs[0]] + bs[1..];
    RepeatCount(bs[0], TagOccurrences(bs[0], k), x);
  }

  lemma MulStep(head: bool, rest: nat, n: nat, count: nat, copies: nat)
    requires copies == (if head then 1 else 0) + rest
    requires count == (if head then n else 0) + rest * n
    ensures count == copies * n
  {
  }

  /** How many times `x` is in the group of `k`: its fetched copies times the times it carries `k`. */
  lemma {:induction false} TagMembersCount(bs: seq<Bookmark>, k: int, x: Bookmark)
    ensures multiset(TagMembers(bs, k))[x] == multiset(bs)[x] * TagOccurrences(x, k)
  {
    if bs != [] {
      TagMembersCount(bs[1..], k, x);
      CountStep(bs, k, x);
      MulStep(bs[0] == x, multiset(bs[1..])[x], TagOccurrences(x, k),
              multiset(TagMembers(bs, k))[x], multiset(bs)[x]);
    }
  }

  /** A tag id that no fetched bookmark carries gathers nothing. */
  lemma {:induction false} TagMembersEmpty(bs: seq<Bookmark>, k: int)
    requires forall j :: 0 <= j < |bs| ==> TagOccurrences(bs[j], k) == 0
    ensures TagMembers(bs, k) == []
  {
    if bs != [] {
      assert TagOccurrences(bs[0], k) == 0;
      TagMembersEmpty(bs[1..], k);
    }
  }

  /** Tag ids that are pairwise distinct, as a bookmark's tag set is expected to be. */
  predicate UniqueIds(ts: seq<Tag>) {
    forall a, b :: 0 <= a < b < |ts| ==> ts[a].id != ts[b].id
  }

  /** With distinct ids, a tag list carries `k` once when some entry has id `k`, and otherwise not at all. */
  lemma {:induction false} TagCountUnique(ts: seq<Tag>, k: int)
    requires UniqueIds(ts)
    ensures TagCount(ts, k) == if exists j :: 0 <= j < |ts| && ts[j].id == k then 1 else 0
  {
    if ts != [] {
      assert UniqueIds(ts[1..]) by {
        forall a, b | 0 <= a < b < |ts| - 1 ensures ts[1..][a].id != ts[1..][b].id {
          assert ts[a + 1].id != ts[b + 1].id;
        }
      }
      TagCountUnique(ts[1..], k);
      if ts[0].id == k {
        forall j | 0 <= j < |ts| - 1 ensures ts[1..][j].id != k {
          assert ts[0].id != ts[j + 1].id;
        }
      } else {
        if exists j :: 0 <= j < |ts| && ts[j].id == k {
          var j :| 0 <= j < |ts| && ts[j].id == k;
          assert ts[1..][j - 1].id == k;
        }
      }
    }
  }

  /** The index after pushing `x` under each tag of `ts` in turn, starting from `index`. */
  function PushAll(index: map<int, seq<Bookmark>>, x: Bookmark, ts: seq<Tag>): map<int, seq<Bookmark>>
    decreases |ts|
  {
    if ts == [] then index
    else
      var prev := PushAll(index, x, ts[..|ts| - 1]);
      var id := ts[|ts| - 1].id;
      prev[id := Lookup(prev, id) + [x]]
  }

  /** The index after the outer loop has handled every bookmark of `bs`. */
  function TagIndex(bs: seq<Bookmark>): map<int, seq<Bookmark>>
    decreases |bs|
  {
    if bs == [] then map[]
    else
      var prev := TagIndex(bs[..|bs| - 1]);
      var x := bs[|bs| - 1];
      if x.tags.Some? then PushAll(prev, x, x.tags.value) else prev
  }

  /** Pushing `x` under the tags `ts` adds one copy of `x` to key `k` per time `ts` carries `k`. */
  lemma {:induction false} PushAllAt(index: map<int, seq<Bookmark>>, x: Bookmark, ts: seq<Tag>, k: int)
    ensures Lookup(PushAll(index, x, ts), k) == Lookup(index, k) + Repeat(x, TagCount(ts, k))
    decreases |ts|
  {
    if ts != [] {
      var init, t := ts[..|ts| - 1], ts[|ts| - 1];
      var prev := PushAll(index, x, init);
      assert PushAll(index, x, ts) == prev[t.id := Lookup(prev, t.id) + [x]];
      PushAllAt(index, x, init, k);
      TagCountSnoc(ts, k);
      if t.id == k {
        RepeatSnoc(x, TagCount(init, k));
      }
    }
  }

  /** A key that pushing adds, the tags carry; so no pushed key holds an empty list. */
  lemma {:induction false} PushAllKeys(index: map<int, seq<Bookmark>>, x: Bookmark, ts: seq<Tag>, k: int)
    ensures k in PushAll(index, x, ts) ==> k in index || TagCount(ts, k) > 0
    decreases |ts|
  {
    if ts != [] {
      var init, t := ts[..|ts| - 1], ts[|ts| - 1];
      PushAllKeys(index, x, init, k);
      assert ts == init + [t];
      TagCountConcat(init, [t], k);
      assert [t][1..] == [];
    }
  }

  /** The index after `bs` holds, under each key, exactly TagMembers, and never an empty list. */
  lemma {:induction false} TagIndexAt(bs: seq<Bookmark>, k: int)
    ensures Lookup(TagIndex(bs), k) == TagMembers(bs, k)
    ensures k in TagIndex(bs) ==> TagIndex(bs)[k] != []
    decreases |bs|
  {
    if bs != [] {
      var init, x := bs[..|bs| - 1], bs[|bs| - 1];
      var prev := TagIndex(init);
      TagIndexAt(init, k);
      assert bs == init + [x];
      TagMembersSnoc(init, x, k);
      if x.tags.Some? {
        PushAllAt(prev, x, x.tags.value, k);
        PushAllKeys(prev, x, x.tags.value, k);
        if k in TagIndex(bs) && k !in prev {
          assert TagIndex(bs)[k] == Repeat(x, TagCount(x.tags.value, k));
        }
      }
    }
  }

  /** Lines 53-57: the inner `forEach` over one bookmark's tags, pushing the bookmark under each
      tag id in turn: every key's list grows by one copy of the bookmark per time the tags carry that id. */
  method PushUnderTags(start: map<int, seq<Bookmark>>, bookmark: Bookmark, tags: seq<Tag>)
    returns (index: map<int, seq<Bookmark>>)
    ensures index == PushAll(start, bookmark, tags)
    ensures forall k :: Lookup(index, k) == Lookup(start, k) + Repeat(bookmark, TagCount(tags, k))
  {
    index := start;
    var j := 0;
    while j < |tags|
      invariant 0 <= j <= |tags|
      invariant index == PushAll(start, bookmark, tags[..j])
    {
      var tag := tags[j];
      var tagBookmarks := Lookup(index, tag.id);
      tagBookmarks := tagBookmarks + [bookmark];
      index := index[tag.id := tagBookmarks];
      assert tags[..j + 1][..j] == tags[..j];
      j := j + 1;
    }
    assert tags[..j] == tags;
    forall k ensures Lookup(index, k) == Lookup(start, k) + Repeat(bookmark, TagCount(tags, k)) {
      PushAllAt(start, bookmark, tags, k);
    }
  }

  /** Lines 51-58: the outer `forEach` over the fetched bookmarks (`bookmark.tags?.forEach` does
      nothing when the tag list is missing). A key is present exactly when some bookmark carries it,
      and holds what TagMembers gathers. */
  method GroupByTag(bookmarks: seq<Bookmark>) returns (index: map<int, seq<Bookmark>>)
    ensures forall k :: k in index <==> TagMembers(bookmarks, k) != []
    ensures forall k :: k in index ==> index[k] == TagMembers(bookmarks, k)
  {
    index := map[];
    var i := 0;
    while i < |bookmarks|
      invariant 0 <= i <= |bookmarks|
      invariant index == TagIndex(bookmarks[..i])
    {
      var bookmark := bookmarks[i];
      if bookmark.tags.Some? {
        index := PushUnderTags(index, bookmark, bookmark.tags.value);
      }
      assert bookmarks[..i + 1][..i] == bookmarks[..i];
      i := i + 1;
    }
    assert bookmarks[..i] == bookmarks;
    forall k ensures (k in index <==> TagMembers(bookmarks, k) != []) && (k in index ==> index[k] == TagMembers(bookmarks, k)) {
      TagIndexAt(bookmarks, k);
    }
  }

  /** Lines 61-64: one group per tag, in the same order, with id and name copied and
      the bookmarks the index holds for that id, or none. */
  function AttachTags(ts: seq<Tag>, index: map<int, seq<Bookmark>>): (groups: seq<TagGroup>)
    ensures |groups| == |ts|
    ensures forall i :: 0 <= i < |ts| ==>
      groups[i].id == ts[i].id && groups[i].name == ts[i].name && groups[i].bookmarks == Lookup(index, ts[i].id)
  {
    if ts == [] then []
    else [TagGroup(ts[0].id, ts[0].name, Lookup(index, ts[0].id))] + AttachTags(ts[1..], index)
  }

  /** The tags screen when no tag is chosen: every tag with the bookmarks that carry it. */
  function TagGroups(ts: seq<Tag>, bs: seq<Bookmark>): (groups: seq<TagGroup>)
    ensures |groups| == |ts|
    ensures forall i :: 0 <= i < |ts| ==> groups[i].id == ts[i].id && groups[i].name == ts[i].name
  {
    seq(|ts|, i requires 0 <= i < |ts| => TagGroup(ts[i].id, ts[i].name, TagMembers(bs, ts[i].id)))
  }

  /** Attaching the index that GroupByTag builds yields TagGroups. */
  lemma AttachIndexIsGroups(ts: seq<Tag>, bs: seq<Bookmark>, index: map<int, seq<Bookmark>>)
    requires forall k :: k in index <==> TagMembers(bs, k) != []
    requires forall k :: k in index ==> index[k] == TagMembers(bs, k)
    ensures AttachTags(ts, index) == TagGroups(ts, bs)
  {
  }

  /** A bookmark is in a tag's group once for each fetched copy and each time it carries that tag's id. */
  lemma GroupCount(ts: seq<Tag>, bs: seq<Bookmark>, i: int, x: Bookmark)
    requires 0 <= i < |ts|
    ensures multiset(TagGroups(ts, bs)[i].bookmarks)[x] == multiset(bs)[x] * TagOccurrences(x, ts[i].id)
  {
    TagMembersCount(bs, ts[i].id, x);
  }

  /** A bookmark fetched once whose tag ids are distinct is exactly once under each listed tag it
      carries, and under no other. */
  lemma UniqueTagsOnceUnderEach(ts: seq<Tag>, bs: seq<Bookmark>, x: Bookmark, i: int)
    requires 0 <= i < |ts|
    requires multiset(bs)[x] == 1 && x.tags.Some? && UniqueIds(x.tags.value)
    ensures var carried := exists j :: 0 <= j < |x.tags.value| && x.tags.value[j].id == ts[i].id;
      multiset(TagGroups(ts, bs)[i].bookmarks)[x] == if carried then 1 else 0
  {
    GroupCount(ts, bs, i, x);
    TagCountUnique(x.tags.value, ts[i].id);
  }

  /** A bookmark whose tag list is missing or empty is in no group. */
  lemma UntaggedBookmarkInNoGroup(ts: seq<Tag>, bs: seq<Bookmark>, x: Bookmark)
    requires x.tags == None || x.tags == Some([])
    ensures forall i :: 0 <= i < |ts| ==> x !in TagGroups(ts, bs)[i].bookmarks
  {
    forall i | 0 <= i < |ts| ensures multiset(TagGroups(ts, bs)[i].bookmarks)[x] == 0 {
      GroupCount(ts, bs, i, x);
    }
  }

  /** A tag that no fetched bookmark carries gets an empty group. */
  lemma UncarriedTagEmpty(ts: seq<Tag>, bs: seq<Bookmark>, i: int)
    requires 0 <= i < |ts|
    requires forall j :: 0 <= j < |bs| ==> TagOccurrences(bs[j], ts[i].id) == 0
    ensures TagGroups(ts, bs)[i].bookmarks == []
  {
    TagMembersEmpty(bs, ts[i].id);
  }

  /** Every bookmark shown under a group was fetched and carries that listed tag's id, so tag ids
      missing from the tag list place a bookmark nowhere. */
  lemma ShownBookmarkCarriesGroupTag(ts: seq<Tag>, bs: seq<Bookmark>, i: int, x: Bookmark)
    requires 0 <= i < |ts| && x in TagGroups(ts, bs)[i].bookmarks
    ensures x in bs && TagOccurrences(x, ts[i].id) > 0
  {
    GroupCount(ts, bs, i, x);
    assert x in multiset(TagGroups(ts, bs)[i].bookmarks);
    assert multiset(bs)[x] > 0;
  }

  /** The tags screen's state cells `tags` and `loading`. */
  class TagsPage {
    /** The `tagId` route parameter, already parsed. */
    const tagId: Option<int>
    var tags: seq<TagGroup>
    var loading: bool

    /** Lines 27-29: no groups, still loading. */
    constructor (tagId: Option<int>)
      ensures this.tagId == tagId && tags == [] && loading
    {
      this.tagId := tagId;
      tags := [];
      loading := true;
    }

    /** Lines 32-73: `loadTags`, with the two awaited responses as inputs (`getBookmarksByTag`
        in the narrowed view, `getAllBookmarks` otherwise). `loading` ends false on every path;
        a failed request leaves `tags` as it was; the narrowed view shows one group with the
        server's bookmarks when the tag is listed and changes nothing when it is not; otherwise
        every tag gets the bookmarks that carry it. */
    method LoadTags(tagsData: Fetch<seq<Tag>>, bookmarksData: Fetch<seq<Bookmark>>)
      modifies this`tags, this`loading
      ensures !loading
      ensures tagsData.Failed? || bookmarksData.Failed? ==> tags == old(tags)
      ensures tagsData.Ok? && bookmarksData.Ok? && tagId.None? ==>
        tags == TagGroups(tagsData.value, bookmarksData.value)
      ensures tagsData.Ok? && bookmarksData.Ok? && tagId.Some? ==>
        match FindTag(tagsData.value, tagId.value)
        case Some(t) => tags == [TagGroup(t.id, t.name, bookmarksData.value)]
        case None => tags == old(tags)
    {
      if tagsData.Ok? && bookmarksData.Ok? {
        if tagId.Some? {
          var tag := FindTag(tagsData.value, tagId.value);
          if tag.Some? {
            tags := [TagGroup(tag.value.id, tag.value.name, bookmarksData.value)];
          }
        } else {
          var index := GroupByTag(bookmarksData.value);
          tags := AttachTags(tagsData.value, index);
          AttachIndexIsGroups(tagsData.value, bookmarksData.value, index);
        }
      }
      loading := false;
    }
  }
}
