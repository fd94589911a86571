# Music search and preview component — a Dafny model

`script.js` is a single Vue component. It searches a public media catalog,
shows the results as a filterable, sortable list, and plays 30-second
previews through one audio element. It also keeps a search history and a
favorites list in the browser's persistent store. This project models the
state logic of that component:

- the derived result view (`filteredResults`): a genre facet filter followed
  by one of three orderings;
- the edits of the genre selection, the search history and the favorites;
- the playback session: loading, pausing, repeating, skipping, shuffling, the
  progress timer and the end of a preview.

The modules follow the parts of the component:

| file | module | what it holds |
|---|---|---|
| `catalog.dfy` | `Catalog` | the result record `Item`, lookup by `trackId`, blank queries |
| `collation.dfy` | `Collation` | the text order that stands for `localeCompare` |
| `result_view.dfy` | `ResultView` | genre facet, genre toggling, the filter step, the comparators, a stable sort, `View` |
| `lists.dfy` | `Lists` | `splice`, history promotion, the top five, favorites toggling |
| `playback.dfy` | `Playback` | current-item test, the next index, the bounded skip, the source's own skip, the shuffle draws |
| `widget.dfy` | `Widget` | class `App`: the component's fields and its methods |

Modelling choices:

- A string field that a record leaves out is `""`, because the component only
  tests such fields for truthiness. A number field it leaves out is `None`.
  Strict equality on two absent ids holds, as `undefined === undefined` does.
- Prices are integer cents.
- Progress is a count of one-second ticks out of `Duration = 30`. The
  percentage shown is `progress * 100 / 30`.
- The outcome of the audio element's `play()` promise is the parameter `ok`.
  The element itself is four fields of `App`: source, volume (in percent),
  loop flag and paused flag.
- `Math.random` is a sequence `draws` of indices into the view.
- The progress interval is the flag `timerActive`. There is therefore at
  most one timer.
- The class invariant `Valid` includes that a loaded item always has a
  preview. Every caller of `playTrack` passes either an item whose preview it
  has just checked or the current track, so `PlayTrack` requires this of its
  argument.
- `Array.prototype.sort` is modelled by a stable insertion sort. A stable sort by a total
  preorder has exactly one result, so this sort computes what the engine
  computes.

Where the code does something a reader might not expect, the model follows
the code:

- When the device refuses to start, `playTrack` keeps the item as the
  current track. It leaves `isPlaying` as it was. The session does not go
  back to having no current item.
- A failed search empties the results but keeps the previous genre facet
  (`availableGenres` is only reset for a blank query).
- With an empty view the progress timer keeps running and counting past 30
  ticks, because `nextTrack` returns at once.
- `playTrack(null)` (reached from `prevTrack`, or from `nextTrack` with repeat
  on, when nothing is loaded) pauses the device, clears the timer and the
  current track, and then throws on `track.previewUrl`. The model stops at
  the throw.
- `nextTrack` looks the current track up with strict equality on
  `currentTrack?.trackId`. With no current track that id is absent, so it
  matches an item without a `trackId`. (`isCurrentTrack` does not: it is
  false without a current track and compares only truthy ids.)
- Items are identified by `trackId` or by a shared truthy `collectionId`.
  So `isCurrentTrack` treats any track of the loaded album as current, and
  clicking a sibling track pauses or resumes instead of playing it. Likewise
  `isFavorite` treats a sibling track as a favorite, and `toggleFavorite` on
  it removes the album's first favorite instead of adding the track.

## Model

| member | source | states |
|---|---|---|
| Catalog.IndexOfId | script.js:52-53 | `findIndex` by trackId: the first position with that id, and -1 exactly when none has it |
| Catalog.IsBlank | script.js:70 | `!query.trim()`: the query is blank exactly when every character is one `trim` removes |
| Catalog.IndexOfIdAt | script.js:50-54 | with distinct ids, an item's id is found at the item's own position |
| Collation.StrLeTotal | script.js:42 | any two collection names are ordered one way or the other |
| Collation.StrLeTransitive | script.js:42 | the text order is transitive |
| Collation.StrLeAntisymmetric | script.js:42 | two names ordered both ways are equal |
| ResultView.GenreFacet | script.js:139-147 | a genre is in the facet exactly when it is non-empty and some result carries it |
| ResultView.ToggledGenres | script.js:149-167 | the selection is never empty and holds the sentinel only alone; clicking `all` gives {all}; a concrete genre flips membership, other genres keep theirs, and the sentinel comes back exactly when the last concrete genre is removed |
| ResultView.KeepActive | script.js:32-34 | the filter keeps each result whose genre is present and selected, as often as it occurs, and nothing else |
| ResultView.FilterStep | script.js:31-35 | with `all` selected or no genre available every result is kept; otherwise exactly the results whose non-empty genre is selected; nothing is added |
| ResultView.ModeOf | script.js:37-55 | `collection` and `price` select their comparators; every other option falls to the original order |
| ResultView.KeyLeTotal | script.js:40-48 | any two sort keys are comparable |
| ResultView.KeyLeTransitive | script.js:40-48 | the order on sort keys is transitive |
| ResultView.ComparatorIsPreorder | script.js:39-54 | each of the three comparators is a total preorder |
| ResultView.Insert | script.js:39 | inserting adds exactly the one element |
| ResultView.Sort | script.js:39 | the sort returns a permutation of its input |
| ResultView.InsertSorted | script.js:39 | inserting into an ascending list keeps it ascending |
| ResultView.SortSorted | script.js:39 | the sort's output is ascending under the comparator |
| ResultView.InsertStable | script.js:39 | an inserted element goes ahead of the elements it ties with, which keep their order |
| ResultView.SortStable | script.js:39 | elements that tie keep their relative order |
| ResultView.SortOfSorted | script.js:51-54 | sorting an ascending list returns it unchanged |
| ResultView.View | script.js:28-56 | the view is a permutation of the shown results, ascending by the chosen comparator (position in the original results, collection name with its placeholder, or price with 0 for none) |
| ResultView.ViewStable | script.js:37-54 | the items tying with any key appear in the view exactly as the filter leaves the results' ties with that key: in search order |
| ResultView.TiesAppend | script.js:39 | picking the ties with a key distributes over concatenation |
| ResultView.KeepActiveAppend | script.js:32-34 | the genre filter distributes over concatenation |
| ResultView.TiesKeepActive | script.js:32-34 | the genre filter keeps search order: filtering then picking ties equals picking ties then filtering |
| ResultView.KeyOf | script.js:40-53 | the original order's key is the first position holding the item's id, and -1 exactly when no original result has it; the collection key is the name, or the placeholder for none, never empty; the price key is the truthy price, or 0 |
| Collation.StrLe | script.js:42 | a prefix sorts first, and a name sorts no later than another only if its first character does not exceed the other's |
| ResultView.ViewUnfiltered | script.js:31 | with `all` selected or no genre available the view holds every result |
| ResultView.KeptFromSuffix | script.js:32-34 | what the filter keeps from a suffix of the original results is found in that suffix |
| ResultView.KeepActiveInOriginalOrder | script.js:50-54 | the filtered results are ascending by original position |
| ResultView.ViewOriginalOrder | script.js:50-54 | with distinct ids and the original order, the view is the filter's output in search order |
| ResultView.ViewLength | script.js:28-56 | sorting keeps the number of filtered results |
| ResultView.PopRockFacet | script.js:139-147 | results with the genres Pop, Pop, Rock give the facet {Pop, Rock} |
| ResultView.PopRockView | script.js:149-167 | selecting Pop among them leaves a view of length 2 |
| ResultView.PopRockFilter | script.js:31-35 | selecting Pop keeps the two Pop results |
| Lists.SpliceStart | script.js:129 | the position `splice` starts from is within the list |
| Lists.Splice1 | script.js:129 | `splice(index, 1)` removes the element at an index in range, nothing for a large index, the element at length plus index for a negative index down to minus the length, and the first element below that |
| Lists.Splice1Shrinks | script.js:129 | deleting never adds an entry |
| Lists.IndexOf | script.js:111 | `indexOf`: the first position holding the query, -1 exactly when it is absent |
| Lists.Promoted | script.js:110-117 | the query ends up first; the length grows by one exactly when the query was absent |
| Lists.PromotedKeepsOrder | script.js:113-115 | the other entries keep their relative order |
| Lists.PromotedCount | script.js:110-117 | the query occurs exactly once afterwards when it occurred at most once before |
| Lists.PromotedKeepsDistinct | script.js:110-117 | a history without repetitions stays without repetitions |
| Lists.Splice1KeepsDistinct | script.js:128-131 | deleting keeps a history without repetitions |
| Lists.PromotedMovesToFront | script.js:110-117 | promoting "b" in ["a","b","c"] gives ["b","a","c"] |
| Lists.TopFive | script.js:57-59 | the first min(5, n) history entries |
| Lists.Matches | script.js:326-328 | an item matches itself, and an item with a different trackId and no truthy collectionId matches nothing |
| Lists.IsFavorite | script.js:339-344 | the item is a favorite exactly when `findIndex` with the same identity finds a match; a listed item always is |
| Lists.FavoriteAfterDrop | script.js:331-332 | after one favorite is taken out, the item is a favorite exactly when another favorite matches it |
| Lists.FindMatch | script.js:326-329 | the first favorite with the same trackId or the same truthy collectionId, -1 exactly when none matches |
| Lists.ToggledFavorites | script.js:325-337 | a match shortens the list by one; otherwise the item is appended |
| Lists.ToggleRemovesFirstMatch | script.js:331-332 | exactly the first match is taken out, the rest keep their order |
| Lists.IsFavoriteAfterToggle | script.js:325-344 | `isFavorite` holds afterwards exactly when the item was appended or another favorite still matches |
| Lists.ToggleTwiceRestores | script.js:325-337 | toggling a non-favorite twice restores the list |
| Lists.ToggleKeepsUnique | script.js:325-337 | toggling keeps the favorites free of matching pairs |
| Playback.IsCurrent | script.js:173-178 | true only with a current track; for the current track itself, exactly when it has a truthy id |
| Playback.CurrentIndex | script.js:249-251 | `findIndex` by `currentTrack?.trackId` (absent without a current track): a position found holds that id and no earlier item does, and -1 exactly when no item has it |
| Playback.NextIndex | script.js:252 | `(i + 1) % length` is in range, -1 and the last index map to 0, other indices to the next one |
| Playback.PlayableFrom | script.js:255-258 | a found position holds an item with a preview and is the first such offset from `k` after the current position; nothing found means no item at the remaining offsets has one |
| Playback.NextPlayable | script.js:249-258 | the corrected skip picks the first item with a preview at offsets 1 to n after the current position, wrapping round; none only when no offset has one |
| Playback.NextAsWritten | script.js:242-260 | the source's `nextTrack`: an empty view stays, repeat replays, and whenever it returns an item that item is the immediate next one and has a preview |
| Playback.NextPlayableNoneIffSilent | script.js:255-258 | the bounded skip finds nothing exactly when no item of the view has a preview |
| Playback.NextPlayableImmediate | script.js:253-256 | when the next item has a preview, the bounded skip picks it |
| Playback.ScanNext | script.js:249-259 | the skip loop stops within one lap and yields the bounded skip's item |
| Playback.NextAsWrittenNeverReturns | script.js:258 | once the next item lacks a preview, the recursion never returns |
| Playback.NextAsWrittenLoopsOnSilentItem | script.js:258 | a one-item view without a preview, nothing playing: no depth of recursion returns |
| Playback.NextPlayableAgreesWithSource | script.js:249-259 | wherever the source's recursion returns an item, the bounded skip returns the same one |
| Playback.FirstPlayableDraw | script.js:275-285 | the item shuffle plays is a drawn one with a preview; none exactly when no draw has one |
| Playback.FirstPlayableDrawSkips | script.js:275-281 | draws without a preview are passed over |
| Playback.PickShuffle | script.js:270-281 | at most 10 draws; it stops at the first draw with a preview, or after the tenth |
| Widget.App.constructor | script.js:4-25 | the initial state, with favorites and history from the store |
| Widget.App.SearchArtists | script.js:69-108 | a blank query clears results and facet only; otherwise the history is promoted, the genre selection and sort are reset, and the results and facet come from the response, or results are emptied on failure |
| Widget.App.UpdateSearchHistory | script.js:110-117 | the history becomes the promoted history |
| Widget.App.DeleteHistory | script.js:128-131 | the history loses the entry `splice` removes |
| Widget.App.ExtractGenres | script.js:139-147 | the loop collects exactly the facet of the results |
| Widget.App.ToggleGenre | script.js:149-167 | the selection becomes the toggled selection and stays well formed |
| Widget.App.SetSortOption | script.js:169-171 | the sort option is set |
| Widget.App.ToggleFavorite | script.js:325-337 | the favorites become the toggled favorites |
| Widget.App.RemoveFavorite | script.js:346-349 | the favorites lose the entry `splice` removes |
| Widget.App.PlayTrack | script.js:206-224 | the item is loaded with the current volume and repeat; on success it is playing with a fresh timer from 0, on refusal it stays loaded and paused; a null track clears the current track and timer |
| Widget.App.StartProgress | script.js:292-295 | one timer runs and the progress is 0 |
| Widget.App.TogglePlay | script.js:226-235 | no change without a current track; otherwise `isPlaying` flips, the device pauses or resumes, the timer is left alone |
| Widget.App.ToggleRepeat | script.js:237-240 | repeat flips and the device loops exactly when repeat is on |
| Widget.App.HandlePlayback | script.js:180-204 | an item without a preview changes nothing; the current item is toggled; any other item is played |
| Widget.App.NextTrack | script.js:242-261 | an empty view changes nothing; repeat replays the current track; otherwise the item `NextPlayable` picks (the first with a preview after the current one) plays; the loaded item always has a preview |
| Widget.App.AdvanceIn | script.js:245-260 | the non-empty case of the step above |
| Widget.App.PrevTrack | script.js:263-266 | the current track restarts from 0 |
| Widget.App.Shuffle | script.js:268-290 | an empty view changes nothing; otherwise the first drawn item with a preview plays, or nothing changes; only an item with a preview is ever loaded |
| Widget.App.ShuffleIn | script.js:270-288 | the non-empty case of the step above |
| Widget.App.Tick | script.js:299-310 | one tick of progress; at 30 ticks repeat restarts the preview, otherwise the player advances as `nextTrack` does |
| Widget.App.FilteredResults | script.js:28-56 | the view read from the fields is never longer than the results, and exactly as long when the genre filter is off; its content and order are those of `ResultView.View` |
| Widget.App.TopFiveHistory | script.js:57-59 | the first min(5, n) entries of the history |
| Widget.App.StopPlayback | script.js:313-319 | no current track, not playing, progress 0, no timer, device paused |
| Widget.App.Ended | script.js:374-379 | without repeat, playing stops and the timer is cleared; with repeat nothing changes |

## Left out

- The catalog request (URL building, `axios.get`, `encodeURIComponent`, the
  media filter), `isLoading`, `showSearchHistory`, `console` and `alert`: the
  response is the parameter `response` of `SearchArtists`, `None` on
  failure.
- The persistent store (`localStorage`, JSON encoding): favorites and history
  are given to the constructor and never written back.
- Asynchrony: the `play()` promise settles before the calling method
  returns, and `searchArtists` is one atomic step. Interleavings of a pending
  promise with other events are not modelled.
- `setInterval` timing: `Widget.App.Tick` is one firing of the interval.
- Widget.App.Tick: progress is a whole number of ticks and the end of a
  preview comes on tick 30. The source adds the double `100 / 30` per tick;
  thirty such additions sum to 99.99999999999997, so its test
  `progress >= 100` first holds on tick 31.
- Widget.App.Tick: with repeat on, the seek to `currentTime = 0` is not
  modelled; only the restart of `play()` is.
- Widget.App.PlayTrack: the device volume is kept in percent, not as the
  fraction `volume / 100`.
- Collation.StrLe: code-point order stands for `localeCompare`, whose
  locale collation is out of reach; only its being a total order is used.
- ResultView.KeyOf: prices are integer cents, not floats, and `NaN` prices
  are not modelled.
- Widget.App.Shuffle: `draws` stands for `Math.random`; its distribution is
  not modelled, only that each draw is an index into the view.
- Widget.App.FilteredResults: its own contract gives only lengths; what the
  view holds and in which order is the contract of `ResultView.View`, which
  it returns.
- Widget.App.NextTrack: follows the corrected, bounded skip (see Findings),
  not the source's unbounded recursion.
- `changeVolume`, `clickHistoryItem`, `onInputClick`, `handleClickOutside`,
  `handleImageError`, `formatDate`, the `mediaType` watcher, `mounted` and
  `beforeUnmount` listener wiring: DOM and UI glue outside the state logic.
- `searchQuery`, `mediaType` and `hovered`: the query is a parameter of
  `SearchArtists`; the others only feed the request or the page.

## Findings

| source | as written | input that shows it | evidently intended | confidence | as-written member | corrected member |
|---|---|---|---|---|---|---|
| script.js:258 | when the next item has no preview, `nextTrack` calls itself; nothing it reads has changed, so it recomputes the same next index and recurses forever | a view of one item without a preview and nothing playing (or any view whose next item lacks a preview, with repeat off) | skip forward over items without a preview, at most one lap, and play the first one found or nothing | not executed | Playback.NextAsWrittenNeverReturns | Playback.ScanNext |
