/** components/BookmarksList.tsx: the list of all bookmarks with an on-demand summary per bookmark.
    The summary request is an input (`Fetch<string>`): the response text, or a thrown error. */
module BookmarksList {
  import opened Wrappers
  import opened Records
  import Text

  /** `BookmarkWithSummary`: a fetched bookmark plus the two fields the screen attaches to it. */
  datatype Entry = Entry(bookmark: Bookmark, summary: Option<string>, isLoadingSummary: Option<bool>)

  /** A bookmark as `setBookmarks(data)` stores it: no summary and no loading flag yet. */
  function Fresh(b: Bookmark): Entry {
    Entry(b, None, None)
  }

  /** The entries `setBookmarks(data)` stores for the fetched list. */
  function FreshEntries(data: seq<Bookmark>): (r: seq<Entry>)
    ensures |r| == |data|
    ensures forall i :: 0 <= i < |data| ==> r[i] == Fresh(data[i])
  {
    if data == [] then [] else [Fresh(data[0])] + FreshEntries(data[1..])
  }

  /** `prev.map(b => b.id === id ? f(b) : b)`: same length and order, `f` applied exactly to the
      entries of bookmark `id`, the rest unchanged. */
  function UpdateById(prev: seq<Entry>, id: int, f: Entry -> Entry): (r: seq<Entry>)
    ensures |r| == |prev|
    ensures forall i :: 0 <= i < |prev| ==> r[i] == if prev[i].bookmark.id == id then f(prev[i]) else prev[i]
  {
    if prev == [] then []
    else [if prev[0].bookmark.id == id then f(prev[0]) else prev[0]] + UpdateById(prev[1..], id, f)
  }

  /** The bookmarks the entries show, in list order. */
  function Bookmarks(entries: seq<Entry>): (r: seq<Bookmark>)
    ensures |r| == |entries|
    ensures forall i :: 0 <= i < |entries| ==> r[i] == entries[i].bookmark
  {
    if entries == [] then [] else [entries[0].bookmark] + Bookmarks(entries[1..])
  }

  /** Lines 58-62: the entries of the clicked bookmark get `isLoadingSummary: true`; their bookmark
      and any earlier summary stay as they were. */
  function MarkLoading(prev: seq<Entry>, id: int): (r: seq<Entry>)
    ensures |r| == |prev|
    ensures forall i :: 0 <= i < |prev| && prev[i].bookmark.id != id ==> r[i] == prev[i]
    ensures forall i :: 0 <= i < |prev| && prev[i].bookmark.id == id ==>
      r[i].bookmark == prev[i].bookmark && r[i].summary == prev[i].summary && r[i].isLoadingSummary == Some(true)
    ensures Bookmarks(r) == Bookmarks(prev)
  {
    UpdateById(prev, id, (e: Entry) => e.(isLoadingSummary := Some(true)))
  }

  /** Lines 66-70: the entries of the clicked bookmark get the response text as summary and
      `isLoadingSummary: false`; their bookmark stays as it was. */
  function ApplySummary(prev: seq<Entry>, id: int, text: string): (r: seq<Entry>)
    ensures |r| == |prev|
    ensures forall i :: 0 <= i < |prev| && prev[i].bookmark.id != id ==> r[i] == prev[i]
    ensures forall i :: 0 <= i < |prev| && prev[i].bookmark.id == id ==>
      r[i].bookmark == prev[i].bookmark && r[i].summary == Some(text) && r[i].isLoadingSummary == Some(false)
    ensures Bookmarks(r) == Bookmarks(prev)
  {
    UpdateById(prev, id, (e: Entry) => e.(summary := Some(text), isLoadingSummary := Some(false)))
  }

  /** Lines 77-81: the entries of the clicked bookmark get `isLoadingSummary: false`; their bookmark
      and summary stay as they were. */
  function ClearLoading(prev: seq<Entry>, id: int): (r: seq<Entry>)
    ensures |r| == |prev|
    ensures forall i :: 0 <= i < |prev| && prev[i].bookmark.id != id ==> r[i] == prev[i]
    ensures forall i :: 0 <= i < |prev| && prev[i].bookmark.id == id ==>
      r[i].bookmark == prev[i].bookmark && r[i].summary == prev[i].summary && r[i].isLoadingSummary == Some(false)
    ensures Bookmarks(r) == Bookmarks(prev)
  {
    UpdateById(prev, id, (e: Entry) => e.(isLoadingSummary := Some(false)))
  }

  /** Marking twice is marking once. */
  lemma MarkLoadingIdempotent(prev: seq<Entry>, id: int)
    ensures MarkLoading(MarkLoading(prev, id), id) == MarkLoading(prev, id)
  {
  }

  /** A click whose request succeeds: afterwards the clicked bookmark's entries show the response text
      and are not loading, whatever they showed before; every other entry is as it was. */
  lemma SuccessfulClick(prev: seq<Entry>, id: int, text: string)
    ensures var r := ApplySummary(MarkLoading(prev, id), id, text);
      |r| == |prev| &&
      forall i :: 0 <= i < |prev| ==>
        r[i] == if prev[i].bookmark.id == id then Entry(prev[i].bookmark, Some(text), Some(false)) else prev[i]
  {
  }

  /** A click whose request fails: afterwards the clicked bookmark's entries are as they were except
      that they are not loading, so a summary shown before stays shown; every other entry is as it was. */
  lemma FailedClick(prev: seq<Entry>, id: int)
    ensures var r := ClearLoading(MarkLoading(prev, id), id);
      |r| == |prev| &&
      forall i :: 0 <= i < |prev| ==>
        r[i] == if prev[i].bookmark.id == id then prev[i].(isLoadingSummary := Some(false)) else prev[i]
  {
  }

  /** Clicking a bookmark that already has a summary: until the new response arrives, its entries
      hold the earlier summary and `isLoadingSummary: true` together. */
  lemma ReclickKeepsSummaryWhileLoading(prev: seq<Entry>, id: int, text: string, i: int)
    requires 0 <= i < |prev| && prev[i].bookmark.id == id
    ensures var r := MarkLoading(ApplySummary(MarkLoading(prev, id), id, text), id);
      r[i].summary == Some(text) && r[i].isLoadingSummary == Some(true)
  {
  }

  /** Line 104: the title shown on a card, `bookmark.title ? bookmark.title : `Bookmark #${bookmark.id}``
      (collections.tsx line 98 and tags.tsx line 96 write the same with `||`). A missing or empty title
      falls back to `Bookmark #` followed by text that reads back as the id. */
  function DisplayTitle(b: Bookmark): (t: string)
    ensures b.title.Some? && b.title.value != [] ==> t == b.title.value
    ensures b.title.None? || b.title.value == [] ==>
      |t| > |"Bookmark #"| && t[..|"Bookmark #"|] == "Bookmark #" && Text.IntValue(t[|"Bookmark #"|..]) == b.id
  {
    if b.title.Some? && b.title.value != [] then b.title.value
    else
      var s := "Bookmark #" + Text.IntText(b.id);
      assert s[|"Bookmark #"|..] == Text.IntText(b.id);
      Text.IntTextRoundTrip(b.id);
      s
  }

  /** The shown title is never empty. */
  lemma DisplayTitleNonEmpty(b: Bookmark)
    ensures DisplayTitle(b) != []
  {
  }

  /** Two untitled bookmarks show the same title only when they have the same id. */
  lemma UntitledTitlesDistinct(b1: Bookmark, b2: Bookmark)
    requires b1.title.None? || b1.title.value == []
    requires b2.title.None? || b2.title.value == []
    requires DisplayTitle(b1) == DisplayTitle(b2)
    ensures b1.id == b2.id
  {
  }

  /** The screen's state cells `bookmarks` and `loading`. */
  class BookmarksScreen {
    var bookmarks: seq<Entry>
    var loading: bool

    /** Lines 40-41: no entries, still loading. */
    constructor ()
      ensures bookmarks == [] && loading
    {
      bookmarks := [];
      loading := true;
    }

    /** Lines 44-53: `loadBookmarks`. `loading` ends false; the entries become the fetched
        bookmarks on success and stay as they were on failure. */
    method LoadBookmarks(data: Fetch<seq<Bookmark>>)
      modifies this
      ensures !loading
      ensures data.Ok? ==> bookmarks == FreshEntries(data.value)
      ensures data.Failed? ==> bookmarks == old(bookmarks)
    {
      if data.Ok? {
        bookmarks := FreshEntries(data.value);
      }
      loading := false;
    }

    /** Lines 57-83: `handleBookmarkClick` as one uninterrupted sequence of its two state updates,
        with the summary request's outcome as input. The list keeps its length and order; entries of
        other bookmarks are unchanged; the clicked bookmark's entries end not loading, with the
        response text as summary on success and their earlier summary on failure. */
    method HandleBookmarkClick(id: int, response: Fetch<string>)
      modifies this`bookmarks
      ensures |bookmarks| == |old(bookmarks)|
      ensures forall i :: 0 <= i < |bookmarks| && old(bookmarks)[i].bookmark.id != id ==> bookmarks[i] == old(bookmarks)[i]
      ensures forall i :: 0 <= i < |bookmarks| && old(bookmarks)[i].bookmark.id == id ==>
        bookmarks[i].bookmark == old(bookmarks)[i].bookmark &&
        bookmarks[i].isLoadingSummary == Some(false) &&
        bookmarks[i].summary == (if response.Ok? then Some(response.value) else old(bookmarks)[i].summary)
    {
      bookmarks := MarkLoading(bookmarks, id);
      match response {
        case Ok(text) => bookmarks := ApplySummary(bookmarks, id, text);
        case Failed => bookmarks := ClearLoading(bookmarks, id);
      }
    }
  }
}
