# Feed state of a desktop RSS reader, modelled in Dafny

The reader keeps one process-wide state, `data`. It holds the item list of each
configured feed, keyed by the feed's URL, and a list of removed-item identities
(tombstones, `removedGUIDs`). Four things touch that state:

- a fetch merges a parsed batch of entries into one feed's list;
- a click on "Read More" or "Remove" tombstones one identity and deletes it from every feed;
- "Remove all" tombstones every stored identity and empties every feed;
- the display computes a capped, date-sorted view of all feeds.

This project models all four, plus the field defaults applied to each parsed entry.

Files and modules:

- `feed.dfy`, module `Feed`: the item and configuration records. An entry as extracted
  from the feed document is a `RawItem`. `Normalise` applies the field defaults to it.
- `ingest.dfy`, module `Ingest`: the state as a value (`Snapshot`). `Merge`,
  `RemoveItem` and `RemoveAll` are specification functions on it. Lemmas about single
  operations and about any sequence of operations (`Run`) live here too.
- `view.dfy`, module `View`: the config lookup, JavaScript's `slice` with a negative
  start, the per-feed cap, and the stable insertion sort by date behind the displayed list.
- `store.dfy`, module `Store`: class `FeedStore`. Its fields `itemsByFeed`, `keys` and
  `removedGUIDs` are updated in place, with loops where the handlers loop. Each method
  is proved to leave exactly the state that its `Ingest` function prescribes.

Representation choices:

- `pubDate` is an `int` timestamp.
- A JavaScript object iterates its keys in insertion order, and that order decides how
  same-date items tie in the view. So the state keeps the key order as a separate
  `keys: seq<string>` next to the map. `WellFormed` says it lists each key of the map once.
- `removedGUIDs` is a `seq<string>` because the single-removal handlers push without
  checking, so duplicates occur.
- `maxItems` is `Option<int>`. It is truthy when present and non-zero. A negative value is
  truthy too, and then `slice(-n)` hides the first `|n|` items; the model keeps that.

Two behaviours of the code are kept as written:

- The merge filter checks a fresh batch against the stored list and the tombstones, but
  not against itself (renderer.ts:143-147). A batch with a repeated identity stores both copies.
  `DuplicateBatchIsStoredTwice` shows this with two entries that have neither guid nor
  link. So per-feed identities stay distinct only for batches whose own identities are
  distinct (`MergeKeepsGuidsUnique`).
- Single removal pushes the identity even if it is already tombstoned (renderer.ts:88,
  renderer.ts:96), so `removedGUIDs` may repeat an identity. Only remove-all checks first.

Every render registers one more click handler on the "Remove all" button
(renderer.ts:78, renderer.ts:101-103), and the button outlives the re-render. So one click
runs the handler body once per earlier render. `RemoveAllIdempotent` and
`RemoveAllRepeated` show that any number of runs leaves the state of a single run, which is
why `FeedStore.RemoveAll` models one run.

## Model

| member | source | states |
|---|---|---|
| Feed.FeedTitle | renderer.ts:126-127 | the channel title when present and non-empty, otherwise "Unknown Feed"; never empty |
| Feed.Normalise | renderer.ts:131-142 | title defaults to "No Title", link to "#"; the identity is the guid text, else the raw link text, else "No GUID" (a missing link gives "No GUID", not "#"); an empty text counts as missing; no field is empty |
| Feed.NormaliseAll | renderer.ts:130-142 | one item per parsed entry, in document order, each normalised with the fetch's feed title |
| Ingest.Admitted | renderer.ts:143-147 | an item survives the filter iff it is in the batch and its identity is neither in the stored list nor tombstoned; never longer than the batch |
| Ingest.AdmittedAppend | renderer.ts:143-147 | the filter distributes over concatenation, so it keeps batch order |
| Ingest.Merge | renderer.ts:129-149 | only the fetched feed's entry changes; its new list is the old list followed by the admitted batch items in batch order (repeats included), which are exactly the batch items with an identity neither stored in that feed nor tombstoned; tombstones unchanged; an existing url keeps the key order and a new url is appended at the end; key bookkeeping stays well formed |
| Ingest.AdmittedCovers | renderer.ts:143-149 | after a merge every batch item's identity is stored in the feed or tombstoned |
| Ingest.AdmittedNothingNew | renderer.ts:143-147 | a batch whose identities are all stored or tombstoned admits nothing |
| Ingest.MergeIdempotent | renderer.ts:129-149 | merging the same batch twice gives the same state as merging it once, even when the batch repeats an identity |
| Ingest.MergeNeverAddsTombstoned | renderer.ts:143-147 | every stored item whose identity is tombstoned was already stored in that feed before the merge |
| Ingest.AdmittedUnique | renderer.ts:143-147 | a batch with distinct identities yields admitted items with distinct identities |
| Ingest.MergeKeepsGuidsUnique | renderer.ts:143-149 | if the feed's list and the batch each have distinct identities, so does the merged list |
| Ingest.DuplicateBatchIsStoredTwice | renderer.ts:143-149 | two entries without guid and link merged into an empty feed are both stored, so the list has a repeated identity |
| Ingest.WithoutGuidMembers | renderer.ts:155-157 | the per-feed filter keeps exactly the items with another identity |
| Ingest.WithoutGuidAppend | renderer.ts:155-157 | the filter distributes over concatenation, so the kept items keep their relative order |
| Ingest.WithoutAbsentGuid | renderer.ts:155-157 | a list without the identity is left unchanged |
| Ingest.FilterEachAt | renderer.ts:154-158 | filtering feed by feed in key order filters each listed feed exactly once and leaves the others alone |
| Ingest.FilterEachShrinks | renderer.ts:154-158 | filtering feed by feed never adds an item to any feed |
| Ingest.RemoveItem | renderer.ts:152-158 | the identity is appended to the tombstones unconditionally; keys and key order unchanged; no feed key added or dropped; key bookkeeping stays well formed |
| Ingest.RemoveItemKeeps | renderer.ts:152-158 | after removal each feed is its old list without the identity, a feed holds an item iff it held it before and the item has another identity, and no feed holds the identity |
| Ingest.TombstoneAppendsAbsent | renderer.ts:104-110 | the old tombstones stay a prefix; afterwards an identity is tombstoned iff it was before or some given item has it; appended identities were absent and are pairwise distinct |
| Ingest.ClearEachAt | renderer.ts:112-114 | emptying feed by feed in key order empties each listed feed and leaves the others alone |
| Ingest.RemoveAll | renderer.ts:104-114 | keys and key order unchanged, no feed key added or dropped, tombstones extended from all stored items in key order; key bookkeeping stays well formed |
| Ingest.RemoveAllTombstonesEverything | renderer.ts:104-114 | every identity stored before remove-all is tombstoned after it; old tombstones are a prefix; only stored identities are added, each absent before and each once; every feed's list is empty, so no feed holds anything |
| Ingest.RemoveAllIdempotent | renderer.ts:101-117 | a second remove-all leaves the state unchanged |
| Ingest.RemoveAllRepeated | renderer.ts:101-117 | n >= 1 runs of the remove-all body, one per registered handler, give the state of a single run |
| Ingest.RemovedOnlyGrows | renderer.ts:83-114 | over any sequence of merges, removals and remove-alls the old tombstone list is a prefix of the new one |
| Ingest.StepKeepsClean | renderer.ts:83-158 | each operation keeps the keys well formed and keeps tombstoned identities out of every feed |
| Ingest.RunKeepsClean | renderer.ts:83-158 | from a state where no stored item is tombstoned (such as the initial empty state), no sequence of operations stores a tombstoned item |
| Ingest.TombstoneSuppression | renderer.ts:143-147 | once an identity is tombstoned and held by no feed, no later sequence of operations stores it again |
| View.FindConfig | renderer.ts:62 | a config is found iff some config has the url; the one found has that url |
| View.FindConfigFirst | renderer.ts:62 | the config found is the first one with the url |
| View.Cap | renderer.ts:63 | the shown items are a suffix of the list; with no config, no cap or a cap of 0, the whole list; with cap n > 0, the last min(n, length) items; with n < 0, all but the first min(-n, length) |
| View.ContributionsWithinStored | renderer.ts:60-64 | the flatMap of capped feeds (Contributions) only hides items: every item it yields is stored, with no extra copies |
| View.UncappedContributions | renderer.ts:60-64 | when no configured cap is truthy, the concatenated contributions are exactly all stored items in key order |
| View.InsertPermutes | renderer.ts:65 | one insertion step of the sort adds exactly one copy of the item and loses nothing |
| View.InsertSorted | renderer.ts:65 | inserting into a date-sorted list keeps it sorted |
| View.InsertOnDate | renderer.ts:65 | an inserted item lands before the items of the same date already present |
| View.SortByDate | renderer.ts:65 | the result is sorted ascending by date and is a permutation of the input |
| View.SortByDateStable | renderer.ts:65 | items of one date keep their relative order (a stable sort, like Array.prototype.sort) |
| View.ViewOf | renderer.ts:60-65 | the displayed list is date-sorted, is a permutation of the capped concatenation in key order (Contributions, the flatMap), and keeps key order then stored order among items of one date |
| View.CapTwoOfThree | renderer.ts:63 | a feed capped at 2 holding [a, b, c] shows [b, c] |
| View.CrossFeedOrder | renderer.ts:60-65 | an item of date 10 in the first feed is shown after an item of date 5 in the second feed |
| Store.FeedStore.constructor | renderer.ts:29 | the store starts with no feeds and no tombstones |
| Store.FeedStore.Merge | renderer.ts:129-149 | the state after a fetch is Ingest.Merge of the state before, applied to the normalised batch |
| Store.FeedStore.RemoveItem | renderer.ts:83-98 | the state after a click on "Remove" or "Read More" is Ingest.RemoveItem of the state before |
| Store.FeedStore.FilterFeeds | renderer.ts:152-158 | the loop over the keys leaves the feeds as Ingest.FilterEach of the old feeds |
| Store.FeedStore.RemoveAll | renderer.ts:103-114 | one run of the "Remove all" handler body leaves Ingest.RemoveAll of the state before (further runs from repeated handlers change nothing, by RemoveAllRepeated) |
| Store.FeedStore.TombstoneStored | renderer.ts:104-110 | the tombstones become Ingest.Tombstone of the old ones over all stored items in key order |
| Store.FeedStore.TombstoneItems | renderer.ts:105-109 | the inner loop over one feed extends the tombstones as Ingest.Tombstone does over that feed's items |
| Store.FeedStore.ClearFeeds | renderer.ts:112-114 | the loop over the keys leaves the feeds as Ingest.ClearEach of the old feeds, so every listed feed is empty and no key is added |

## Left out

- Loading and saving the state file (`loadPersistedData`, `savePersistedData`, renderer.ts:32-54): file I/O and JSON with date revival, which are library calls. The model starts from the empty state, and the save after each mutation is not modelled.
- Network fetch and XML parsing (renderer.ts:123-125, renderer.ts:130): foreign calls. The model starts from entries already extracted as optional strings (`RawItem`).
- Date parsing and the current-time fallback (renderer.ts:139-141): clock and date semantics. `pubDate` is a given integer. Invalid dates (NaN in the sort comparator) are not modelled.
- DOM rendering, event wiring and `shell.openExternal` (renderer.ts:57-58, renderer.ts:66-86, renderer.ts:93-95, renderer.ts:101-103): user-interface glue. Only the state changes inside the handlers are modelled, and the re-render after each change is not.
- Scheduling (`setInterval`, `updateFeeds`, renderer.ts:164-175): asynchronous timing, overlapping cycles, and a throwing fetch aborting the rest of a cycle are not modelled. Any interleaving of completed operations is covered by the `Run` lemmas.
- JavaScript orders integer-like object keys numerically ahead of the other keys. The model keeps plain insertion order, which is what URL keys get.
- `maxItems` values that are fractional or NaN are not modelled; the cap is an integer.
- `removedGUIDs.includes` and `some` are linear searches in the code. The model uses membership, which gives the same answers.
- `updateItemStorage` with `remove` false only re-renders; both callers pass true (renderer.ts:89, renderer.ts:97), so only the filtering branch is modelled.
