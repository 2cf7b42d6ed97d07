# ScrollWise client view state, modelled in Dafny

ScrollWise is a React Native client for saving bookmarks, filing them under collections and tags,
and asking a server for summaries. Almost all of it is rendering and HTTP calls. This project models
the four pieces of client-side state logic that can be stated precisely, and proves what they promise:

- **Collections screen** (`app/collections.tsx`): the fetched bookmarks are grouped by `collection_id`
  with a mutable `Map` loop. Then one group is emitted per fetched collection, or a single group in the
  narrowed view chosen by the `collectionId` route parameter.
- **Tags screen** (`app/tags.tsx`): the same, except that each bookmark is pushed once for every tag
  it carries (a nested loop).
- **Bookmark list** (`components/BookmarksList.tsx`): the initial load, and the per-bookmark summary
  lifecycle. A click marks the bookmark's entries as loading, then either sets the summary and clears
  loading, or only clears loading. The card title falls back to `Bookmark #<id>`.
- **Home form** (`app/index.tsx`): the three state cells `text`, `file` and `isFormValid`.

Each awaited API call is an input of type `Fetch<T>`, which is either `Ok(value)` or `Failed` (the
call threw). The route parameters are inputs of type `Option<int>`.

Files and modules:

| file | module | models |
|---|---|---|
| wrappers.dfy | Wrappers | `Option`, and `Fetch` for the outcome of an API call |
| records.dfy | Records | the `Tag`, `Collection` and `Bookmark` records, the grouped records, and `Array.prototype.find` by id |
| text.dfy | Text | `String.prototype.trim`, and the decimal text of an id in a template literal |
| collections.dfy | CollectionsView | app/collections.tsx |
| tags.dfy | TagsView | app/tags.tsx |
| bookmarks_list.dfy | BookmarksList | components/BookmarksList.tsx |
| home_form.dfy | HomeForm | app/index.tsx |

`Records.FindCollection` and `Records.FindTag` are two functions because the code makes two separate
`find` calls, one over collections (app/collections.tsx:41) and one over tags (app/tags.tsx:39).

The model has the same form as the code. The grouping loops are methods with `while` loops over a
`map`. Each is proved against a reference function: `MembersOf` for collections, and `TagMembers` and
`TagIndex` for tags. Building the output list is a pure function. Each screen's `useState` cells are
the fields of a class, and its `useEffect` loader or event handlers are methods of that class.

Behaviour of the code worth knowing:

- A re-click keeps an earlier summary while loading again (`BookmarksList.ReclickKeepsSummaryWhileLoading`).
- A failed request only clears the loading flag, and an earlier summary stays (`BookmarksList.FailedClick`).
- The list calls `api.getSummary(bookmark.text)` on each click and keeps the summary only in the screen's state. Its outcome is an input here.
- These screens have no free-text search.
- Picking a file does not recompute validity, so on a fresh form it leaves submit disabled (`HomeForm.PickFileOnFreshForm`).

## Model

| member | source | states |
|---|---|---|
| Records.FindCollection | app/collections.tsx:41 | `find` by id: none exactly when no listed collection has the id; otherwise a listed collection with that id, and none before it has the id |
| Records.FindTag | app/tags.tsx:39 | `find` by id: none exactly when no listed tag has the id; otherwise the first listed tag with that id |
| Text.SkipLeading | app/index.tsx:16 | the first position from `i` on that holds no ECMAScript white space or line terminator, with only white space skipped |
| Text.SkipTrailing | app/index.tsx:16 | the least position down to a bound such that everything from it to the end point is white space |
| Text.Trim | app/index.tsx:16 | `trim()` is a slice `s[a..b]` with only white space outside it; it is empty exactly when every character is ECMAScript white space or a line terminator; otherwise it starts and ends with a character that is neither |
| Text.DecimalRoundTrip | components/BookmarksList.tsx:104 | reading the decimal digits of a natural number back gives the number |
| Text.IntText | components/BookmarksList.tsx:104 | `${id}`: a minus sign exactly for negative ids, then decimal digits without a leading zero |
| Text.IntTextRoundTrip | components/BookmarksList.tsx:104 | the text of an integer id (sign and digits) reads back as the id, so distinct ids give distinct texts |
| CollectionsView.FiledUnder | app/collections.tsx:55 | a bookmark counts as filed under `k` when its collection id is present, truthy and equal to `k` |
| CollectionsView.Lookup | app/collections.tsx:56 | `bookmarksByCollection.get(k)`, or `[]` when `k` has no list: the list stored under `k`, or none |
| CollectionsView.MembersOfSound | app/collections.tsx:54-58 | every bookmark in key k's group was fetched and is filed under k |
| CollectionsView.MembersOfConcat | app/collections.tsx:54-58 | the group of a key keeps fetch order: grouping a concatenation gives the concatenation of the groups |
| CollectionsView.MembersOfCount | app/collections.tsx:54-60 | a bookmark is in key k's group as many times as it was fetched if its collection id is truthy and equals k, and never otherwise |
| CollectionsView.MembersOfNonEmpty | app/collections.tsx:53-60 | key k's group is non-empty exactly when some fetched bookmark is filed under k |
| CollectionsView.GroupByCollection | app/collections.tsx:53-60 | the `forEach` loop builds a map that has key k exactly when some bookmark is filed under k, and holds under k those bookmarks in fetch order |
| CollectionsView.AttachBookmarks | app/collections.tsx:63-66 | one group per collection in list order, with id and name copied, holding the map's list for that id or `[]` |
| CollectionsView.CollectionGroups | app/collections.tsx:53-66 | the full view: one group per listed collection in order, id and name copied, holding only fetched bookmarks filed under that id |
| CollectionsView.AttachIndexIsGroups | app/collections.tsx:53-66 | the loop followed by the `map` gives every collection exactly the bookmarks filed under it |
| CollectionsView.GroupCount | app/collections.tsx:54-66 | in the output, a bookmark is in collection C's group as often as it was fetched if it is filed under C's id, and otherwise not at all |
| CollectionsView.FiledBookmarkOnceInItsGroup | app/collections.tsx:54-66 | a bookmark fetched once and filed under C is exactly once in each group with C's id, and in no group with another id |
| CollectionsView.UnfiledBookmarkInNoGroup | app/collections.tsx:55 | a bookmark with no collection id, or with the falsy id 0, is in no group |
| CollectionsView.UnreferencedCollectionEmpty | app/collections.tsx:63-66 | a collection that no bookmark is filed under gets an empty list |
| CollectionsView.OrphanBookmarkDropped | app/collections.tsx:63-66 | a bookmark whose collection id matches no listed collection is in no group |
| CollectionsView.CollectionsPage.constructor | app/collections.tsx:29-31 | initial state: no groups, loading |
| CollectionsView.CollectionsPage.LoadCollections | app/collections.tsx:34-75 | `loading` ends false; a failed request leaves the groups unchanged; the narrowed view shows one group with the server's bookmarks if the id is listed, and otherwise leaves the groups unchanged; the full view shows every collection with its filed bookmarks |
| TagsView.Lookup | app/tags.tsx:54 | `bookmarksByTag.get(k)`, or `[]` when `k` has no list: the list stored under `k`, or none |
| TagsView.TagMembersConcat | app/tags.tsx:52-56 | a tag's group keeps fetch order: grouping a concatenation gives the concatenation of the groups |
| TagsView.TagMembersCount | app/tags.tsx:52-57 | a bookmark is in tag k's group (copies fetched) × (times its tags carry k) times |
| TagsView.TagMembersEmpty | app/tags.tsx:52-57 | a tag id that no bookmark carries gathers nothing |
| TagsView.TagCountUnique | app/tags.tsx:53 | in a tag list with distinct ids, an id occurs once if it is present and zero times otherwise |
| TagsView.PushAllAt | app/tags.tsx:53-57 | pushing a bookmark under each tag of a list adds one copy of it to key k per occurrence of k in the list |
| TagsView.TagIndexAt | app/tags.tsx:51-58 | after all bookmarks, key k holds exactly TagMembers for k, and no key holds an empty list |
| TagsView.PushUnderTags | app/tags.tsx:53-57 | the inner `forEach` builds the reference index `PushAll`, so every key grows by one copy of the bookmark per occurrence of its id |
| TagsView.GroupByTag | app/tags.tsx:51-58 | the nested loops build a map that has key k exactly when some bookmark carries k, and holds TagMembers for k |
| TagsView.AttachTags | app/tags.tsx:61-64 | one group per tag in list order, with id and name copied, holding the map's list for that id or `[]` |
| TagsView.TagGroups | app/tags.tsx:51-64 | the full view: one group per listed tag in order, with id and name copied |
| TagsView.AttachIndexIsGroups | app/tags.tsx:51-64 | the loops followed by the `map` give every tag exactly TagMembers for its id |
| TagsView.GroupCount | app/tags.tsx:52-64 | in the output, a bookmark is in tag t's group (copies fetched) × (occurrences of t's id in its tags) times |
| TagsView.UniqueTagsOnceUnderEach | app/tags.tsx:52-64 | a bookmark fetched once with distinct tag ids is exactly once under each listed tag it carries, and under no other tag |
| TagsView.UntaggedBookmarkInNoGroup | app/tags.tsx:53 | a bookmark whose tags are missing or empty is in no group |
| TagsView.UncarriedTagEmpty | app/tags.tsx:61-64 | a tag that no bookmark carries gets an empty list |
| TagsView.ShownBookmarkCarriesGroupTag | app/tags.tsx:61-64 | every bookmark shown under a tag was fetched and carries that listed tag's id, so unlisted tag ids place it nowhere |
| TagsView.TagsPage.constructor | app/tags.tsx:27-29 | initial state: no groups, loading |
| TagsView.TagsPage.LoadTags | app/tags.tsx:32-73 | `loading` ends false; a failed request leaves the groups unchanged; the narrowed view shows one group with the server's bookmarks if the id is listed, and otherwise leaves the groups unchanged; the full view shows every tag with TagMembers |
| BookmarksList.FreshEntries | components/BookmarksList.tsx:47 | the stored list has the fetched bookmarks in order, with no summary and no loading flag |
| BookmarksList.UpdateById | components/BookmarksList.tsx:59-61 | `prev.map` by id keeps length and order, applies the update to exactly the entries with the clicked id, and leaves the rest unchanged |
| BookmarksList.MarkLoading | components/BookmarksList.tsx:58-62 | matching entries get `isLoadingSummary` true and keep their bookmark and earlier summary; other entries and the listed bookmarks are unchanged |
| BookmarksList.ApplySummary | components/BookmarksList.tsx:66-70 | matching entries get the response text as summary and `isLoadingSummary` false; other entries and the listed bookmarks are unchanged |
| BookmarksList.ClearLoading | components/BookmarksList.tsx:77-81 | matching entries get `isLoadingSummary` false and keep their summary; other entries and the listed bookmarks are unchanged |
| BookmarksList.MarkLoadingIdempotent | components/BookmarksList.tsx:58-62 | marking the same bookmark as loading twice is the same as marking it once |
| BookmarksList.SuccessfulClick | components/BookmarksList.tsx:57-70 | after a successful click, clicked entries show the response text and are not loading, whatever they held before; other entries are unchanged |
| BookmarksList.FailedClick | components/BookmarksList.tsx:57-81 | after a failed click, clicked entries are as before except that they are not loading; other entries are unchanged |
| BookmarksList.ReclickKeepsSummaryWhileLoading | components/BookmarksList.tsx:58-62 | after a re-click, an already summarised entry holds its earlier summary and `isLoadingSummary: true` together |
| BookmarksList.DisplayTitle | components/BookmarksList.tsx:104 | a present, non-empty title is shown as is; otherwise the title is `Bookmark #` followed by a non-empty text that reads back as the id |
| BookmarksList.DisplayTitleNonEmpty | components/BookmarksList.tsx:104 | the shown title is never empty |
| BookmarksList.UntitledTitlesDistinct | components/BookmarksList.tsx:104 | two untitled bookmarks show the same title only if they have the same id |
| BookmarksList.BookmarksScreen.constructor | components/BookmarksList.tsx:40-41 | initial state: empty list, loading |
| BookmarksList.BookmarksScreen.LoadBookmarks | components/BookmarksList.tsx:44-53 | `loading` ends false; the list becomes the fetched bookmarks on success and is unchanged on failure |
| BookmarksList.BookmarksScreen.HandleBookmarkClick | components/BookmarksList.tsx:57-83 | length and order kept; other ids unchanged; clicked entries keep their bookmark and end not loading, with the response text on success and their earlier summary on failure |
| HomeForm.Valid | app/index.tsx:16 | the validity test holds exactly when the input has a character that is not white space, or a file is held |
| HomeForm.Form.SubmitDisabled | app/index.tsx:31 | the button's `disabled` prop: the negation of the stored validity flag, not of the current text and file |
| HomeForm.Form.constructor | app/index.tsx:9-11 | initial state: empty text, no file, form invalid |
| HomeForm.Form.HandleUrlInput | app/index.tsx:13-18 | stores the raw untrimmed input, keeps the file, and recomputes validity from that input and the file held now |
| HomeForm.Form.SelectFile | app/index.tsx:30 | only `file` changes; validity is not recomputed |
| HomeForm.Form.HandleSubmit | app/index.tsx:20-23 | changes no state |
| HomeForm.PickFileOnFreshForm | app/index.tsx:30-31 | picking a file on a fresh form leaves submit disabled |
| HomeForm.TypeAfterPickingFile | app/index.tsx:16-17 | once a file is held, any text change, even to blank text, enables submit |
| HomeForm.TypeOnFreshForm | app/index.tsx:13-18 | with no file, a text change disables submit exactly when every character of the input is white space |

## Left out

- `services/api.ts`: every call is an HTTP round trip. Each awaited result is an input (`Fetch<T>`) of the method that uses it.
- `api.getSummary` (components/BookmarksList.tsx:65) is not defined in `services/api.ts`. Its outcome is an input: the response's `summary` text, or a failure. As written, calling the missing function throws a TypeError inside the `try` (components/BookmarksList.tsx:64-65), so every click ends on the failure path (`BookmarksList.FailedClick`). Taking the outcome as an input covers both paths.
- Rendering and navigation: JSX, `StyleSheet`, `router.push`, `stopPropagation`, `Alert.alert` and `console` logging have no state effect that is modelled.
- Date formatting with `toLocaleString` / `toLocaleDateString` depends on the locale and the runtime library.
- `Number(collectionId)` / `Number(tagId)`: the route parameter is taken as an optional integer that is already parsed. The view is narrowed whenever the integer is present. In JavaScript the string `"0"` is truthy, so id 0 also narrows.
- Async interleaving: overlapping clicks, responses that arrive late, and updates after unmount are not modelled. Each click runs its updates as one uninterrupted sequence. The server calls of a load are awaited one after another, and the model only sees their outcomes.
- `components/SubmissionsList.tsx`, `components/FileUploader.tsx`, `components/TextInputBox.tsx`, `components/SubmitButton.tsx`, `app/submissions.tsx` and `app/bookmarks.tsx` are UI wrappers, network loads, or calls into `expo-document-picker`. The picked asset is an input of `SelectFile`.
- The `Map` grouping is modelled as a Dafny `map` from id to list. The JavaScript code pushes onto the array it gets from the `Map` and stores it back. Each array belongs to one key only, so the value update gives the same contents. The `Map`'s insertion order is never read, because the output follows the fetched list.
- Ids are unbounded integers. `Text.IntText` writes an id in plain decimal. JavaScript switches to exponent notation from 1e21 upward, and the model does not capture that.
- Ids above 2^53 do not survive JSON parsing exactly in JavaScript, so the `b.id === bookmark.id` test (components/BookmarksList.tsx:60, 68, 79) can treat distinct server ids as equal. The model compares exact integers and cannot show that.
- Strings are sequences of Unicode scalar values. JavaScript strings are UTF-16 code units, and `trim` is modelled over each character's scalar value.
- The server's JSON is taken to have the declared record shape. `tags` may be missing, as `BookmarksList.tsx` declares and `tags.tsx` handles with `?.`. Fetched bookmarks enter the list with no `summary` and no `isLoadingSummary`.
