# PhotoCleaner review pipeline in Dafny

PhotoCleaner is an Android app. It shows the photos of the device one at a
time, in random order. The user swipes left to discard a photo or right to
keep it. Discarded photos are recorded in a local trash ledger kept in
shared preferences. The view model's `confirmDelete` moves the pending
photos to the system trash or deletes them permanently. On Android 11 and
later this goes through a request that the system's authorization dialog
must confirm. Below Android 11 the photos are deleted directly, with no
dialog. In this version of the app no screen calls `confirmDelete` yet: the
trash screen's confirm button has an empty handler
(`TrashReviewScreen.kt:47`), and the screen only calls `restorePhoto`.

This project models two parts of the app:
- the review pipeline of `CleanerViewModel`: the shuffled id pool, the
  lookahead buffer, the undo stack, the pending-delete list, the screen
  state and the outstanding request;
- the local trash ledger and the request guards of `PhotoRepository`.

It proves what these operations promise.

Layout, one module per file:

- `wrappers.dfy` (`Wrappers`): `Option`, which stands for Kotlin's nullable types.
- `decimal.dfy` (`Decimal`):
  - Kotlin's 64-bit `Long` as a subset type;
  - `Long.toString()` (`LongToString`) and `String.toLongOrNull()` (`ToLongOrNull`);
  - the round trip between the two.
- `photos.dfy` (`Photos`):
  - the content uri of an image id;
  - the `Photo(id, uri)` value;
  - the photos materialised for a sequence of ids.
- `repository.dfy` (`Repository`):
  - the persisted ledger, a `set<string>`, and its decode (`ParseIds`) and encode (`EncodeIds`);
  - the class `PhotoRepository`, whose three ledger updates are read-modify-write methods on that set;
  - the three MediaStore request functions with their empty-list and SDK-level guards.
- `pipeline.dfy` (`Pipeline`), value-level specifications the view model is proved against:
  - `Refilled`, one pass of the buffer refill loop;
  - `Available`, the catalog filter;
  - `RemoveFirst`, which is `MutableList.remove`;
  - `PhotoSet`, the photos rebuilt from the ledger.
- `view_model.dfy` (`ViewModel`): the class `CleanerViewModel`, with the fields of the source and one method per entry point.
  - Each method's `modifies` clause names exactly the fields it writes.
  - `Upcoming()` is the sequence of photos still to be shown: the buffer followed by the photos of the pool.
  - `Valid()` is the invariant `processedCount == |actionHistory|`.
  - `Ledger()` is the ledger as the repository reads it.
- `scenarios.dfy` (`Scenarios`): call sequences on one view model, such as a swipe then an undo, restore twice, refresh twice, and confirm then accept or cancel.

Behaviours of the code that the model keeps as they are:

- `swipeLeft` appends the photo to the pending list without checking
  for a duplicate (`CleanerViewModel.kt:183`). A photo discarded twice is
  therefore pending twice (`Scenarios.SwipeLeftPendingTwice`).
- A second `confirmDelete` while a request is outstanding replaces that
  request (`CleanerViewModel.kt:245-246`; `Scenarios.ConfirmDeleteTwice`).
- `undo` pushes the photo on screen back onto the buffer without regard to
  its capacity of 20 (`CleanerViewModel.kt:217`). So the buffer can hold 21
  photos (`Scenarios.UndoOverfillsBuffer`).
- `totalPhotosCount` is the number of catalog ids not in the ledger. It
  equals the catalog size minus the ledger size if two conditions hold: the
  catalog lists each id once, and the ledger holds only catalog ids
  (`Pipeline.AvailableCount`).
- `loadAndShufflePhotos` clears the undo stack and the buffer and resets
  `processedCount` before it checks whether any photo is left to review,
  that is, whether some catalog id is not in the ledger
  (`CleanerViewModel.kt:94`). So it clears them on the empty path too
  (`CleanerViewModel.kt:79-82`). A non-empty catalog whose ids are all in
  the ledger takes that path as well.
- `undo` and `restorePhoto` remove the first pending photo equal to the
  given one, by data-class equality of the whole `Photo`, not by id.
- The screen state `UiState` (`CleanerViewModel.kt:19-26`) is the datatype
  `ViewModel.UiState`: `Loading`, `Empty`, or `Ready` with an optional photo.

## Model

| member | source | states |
|---|---|---|
| Decimal.NatDigits | app/src/main/java/com/example/photocleaner/data/PhotoRepository.kt:34 | the numeral `toString` writes for a non-negative id is non-empty and all digits, and it starts with '0' exactly when the id is 0 |
| Decimal.LongToString | app/src/main/java/com/example/photocleaner/data/PhotoRepository.kt:34 | `toString` writes a numeral: a '-' exactly for negative ids, never a '+', and no leading zero |
| Decimal.ToLongOrNull | app/src/main/java/com/example/photocleaner/data/PhotoRepository.kt:25 | a string parses exactly when it is an optional sign followed by one or more digits whose signed value lies in the `Long` range; the result is that value; out-of-range numerals and everything else give null |
| Decimal.DigitsValueOfNatDigits | app/src/main/java/com/example/photocleaner/data/PhotoRepository.kt:25 | reading the decimal numeral of `n` gives back `n` |
| Decimal.ToLongOrNullOfLongToString | app/src/main/java/com/example/photocleaner/data/PhotoRepository.kt:34 | every `Long` written with `toString` is read back as itself by `toLongOrNull` |
| Decimal.LongToStringInjective | app/src/main/java/com/example/photocleaner/data/PhotoRepository.kt:34 | distinct ids are stored as distinct strings |
| Decimal.ToLongOrNullAcceptsPlusSign | app/src/main/java/com/example/photocleaner/data/PhotoRepository.kt:25 | a stored "+7" reads as id 7 although `toString` writes "7"; the two strings differ |
| Photos.UriForId | app/src/main/java/com/example/photocleaner/data/PhotoRepository.kt:87-89 | the uri of an image id, whose string form `withAppendedId` writes; no contract of its own, its injectivity is `Photos.UriForIdInjective` |
| Photos.PhotoFor | app/src/main/java/com/example/photocleaner/viewmodel/CleanerViewModel.kt:120-121 | the photo materialised for an id, `Photo(id, getUriForId(id))`; no contract of its own, used by `Photos.MaterialiseAt` and `Pipeline.PhotoSet` |
| Photos.Uri.ToString | app/src/main/java/com/example/photocleaner/data/PhotoRepository.kt:88 | the string `withAppendedId` writes: the external images uri, a '/', then the id's decimal `toString`; no contract of its own: `Photos.UriForIdInjective` |
| Photos.UriForIdInjective | app/src/main/java/com/example/photocleaner/data/PhotoRepository.kt:87-89 | `getUriForId` is injective: equal uri strings come from equal ids |
| Photos.Materialise | app/src/main/java/com/example/photocleaner/viewmodel/CleanerViewModel.kt:119-121 | materialising ids gives one photo per id |
| Photos.MaterialiseAt | app/src/main/java/com/example/photocleaner/viewmodel/CleanerViewModel.kt:119-121 | the photo at position `i` is `Photo(ids[i], getUriForId(ids[i]))` |
| Photos.MaterialiseAppend | app/src/main/java/com/example/photocleaner/viewmodel/CleanerViewModel.kt:118-122 | materialising a concatenation is the concatenation of the materialised parts |
| Photos.MaterialisePrefixStep | app/src/main/java/com/example/photocleaner/viewmodel/CleanerViewModel.kt:119-121 | moving one more id appends exactly that id's photo |
| Photos.IdsOf | app/src/main/java/com/example/photocleaner/viewmodel/CleanerViewModel.kt:296 | `map { it.id }`: same length, position by position the photo's id |
| Photos.UrisOf | app/src/main/java/com/example/photocleaner/data/PhotoRepository.kt:97 | `map { it.uri }`: same length, position by position the photo's uri |
| Repository.ParseIds | app/src/main/java/com/example/photocleaner/data/PhotoRepository.kt:25 | the ids a stored string set holds; no contract of its own: `Repository.ParsedIdsComeFromStore`, `Repository.ParseIdsKeepsParsable` and `Repository.ParseIdsDropsUnparsable` state its meaning |
| Repository.EncodeIds | app/src/main/java/com/example/photocleaner/data/PhotoRepository.kt:34 | the strings written for a set of ids; no contract of its own, its inverse is stated by `Repository.ParseEncodedIds` |
| Repository.AddedTo | app/src/main/java/com/example/photocleaner/data/PhotoRepository.kt:31-35 | the persisted set after `addToLocalTrash`; no contract of its own: `Repository.AddedToReadsBack` and `Repository.AddedToIdempotent` |
| Repository.RemovedFrom | app/src/main/java/com/example/photocleaner/data/PhotoRepository.kt:40-44 | the persisted set after `removeFromLocalTrash`; no contract of its own: `Repository.RemovedFromReadsBack` and `Repository.RemovedFromAbsent` |
| Repository.ClearedOf | app/src/main/java/com/example/photocleaner/data/PhotoRepository.kt:49-53 | the persisted set after `clearLocalTrash`; no contract of its own: `Repository.ClearedOfReadsBack` and `Repository.ClearedOfIgnoresAbsent` |
| Repository.ParseEncodedIds | app/src/main/java/com/example/photocleaner/data/PhotoRepository.kt:23-35 | writing a set of ids as strings and reading it back gives the same set |
| Repository.ParsedIdsComeFromStore | app/src/main/java/com/example/photocleaner/data/PhotoRepository.kt:23-26 | every id read comes from a stored string that parses to it |
| Repository.ParseIdsDropsUnparsable | app/src/main/java/com/example/photocleaner/data/PhotoRepository.kt:23-26 | a stored entry that does not parse as a `Long` is silently ignored |
| Repository.ParseIdsKeepsParsable | app/src/main/java/com/example/photocleaner/data/PhotoRepository.kt:23-26 | every stored entry that parses contributes its id |
| Repository.AddedToReadsBack | app/src/main/java/com/example/photocleaner/data/PhotoRepository.kt:31-35 | after `addToLocalTrash(id)` the ledger reads as the old ids plus `id` |
| Repository.RemovedFromReadsBack | app/src/main/java/com/example/photocleaner/data/PhotoRepository.kt:40-44 | after `removeFromLocalTrash(id)` the ledger reads as the old ids minus `id` |
| Repository.ClearedOfReadsBack | app/src/main/java/com/example/photocleaner/data/PhotoRepository.kt:49-53 | after `clearLocalTrash(ids)` the ledger reads as the old ids minus every id of the list |
| Repository.AddedToIdempotent | app/src/main/java/com/example/photocleaner/data/PhotoRepository.kt:31-35 | adding an id twice persists the same strings as adding it once |
| Repository.RemovedFromAbsent | app/src/main/java/com/example/photocleaner/data/PhotoRepository.kt:40-44 | removing an id that is not in the ledger leaves the ledger's ids unchanged |
| Repository.ClearedOfIgnoresAbsent | app/src/main/java/com/example/photocleaner/data/PhotoRepository.kt:49-53 | ids passed to `clearLocalTrash` that are not in the ledger make no difference to what is persisted |
| Repository.AddThenRemoveRestores | app/src/main/java/com/example/photocleaner/data/PhotoRepository.kt:31-44 | adding an absent id and removing it again restores the ledger's ids; the strings come back in canonical form |
| Repository.PhotoRepository.constructor | app/src/main/java/com/example/photocleaner/data/PhotoRepository.kt:15-18 | the repository starts from the string set already stored under the key |
| Repository.PhotoRepository.GetLocalTrashedIds | app/src/main/java/com/example/photocleaner/data/PhotoRepository.kt:23-26 | `getLocalTrashedIds` reads the stored set through `Repository.ParseIds`; the three update methods state what it returns after each of them |
| Repository.PhotoRepository.AddToLocalTrash | app/src/main/java/com/example/photocleaner/data/PhotoRepository.kt:31-35 | the stored set becomes the re-encoded old ids plus `id`, and the ledger reads as old plus `id` |
| Repository.PhotoRepository.RemoveFromLocalTrash | app/src/main/java/com/example/photocleaner/data/PhotoRepository.kt:40-44 | the stored set becomes the re-encoded old ids minus `id`, and the ledger reads as old minus `id` |
| Repository.PhotoRepository.ClearLocalTrash | app/src/main/java/com/example/photocleaner/data/PhotoRepository.kt:49-53 | the stored set becomes the re-encoded old ids minus the list's ids, and the ledger reads that way |
| Repository.TrashPhotos | app/src/main/java/com/example/photocleaner/data/PhotoRepository.kt:95-108 | a request exists exactly when the list is non-empty on Android 11+; it moves the photos' uris, in order, into the system trash |
| Repository.DeletePhotos | app/src/main/java/com/example/photocleaner/data/PhotoRepository.kt:113-125 | a request exists exactly when the list is non-empty on Android 11+; it deletes the photos' uris permanently |
| Repository.RestoreFromSystemTrash | app/src/main/java/com/example/photocleaner/data/PhotoRepository.kt:130-140 | a request exists exactly when the list is non-empty on Android 11+; it takes the photos' uris out of the system trash |
| Repository.EmptyListMakesNoRequest | app/src/main/java/com/example/photocleaner/data/PhotoRepository.kt:95-140 | none of the three requests is made for an empty list, on any SDK level |
| Pipeline.RefillCount | app/src/main/java/com/example/photocleaner/viewmodel/CleanerViewModel.kt:118 | a refill pass moves no more ids than the pool holds, none into a full buffer, never more than the buffer has room for, and otherwise fills the buffer or empties the pool |
| Pipeline.Refilled | app/src/main/java/com/example/photocleaner/viewmodel/CleanerViewModel.kt:118-122 | the buffer and pool after one pass; no contract of its own: `Pipeline.RefilledConserves` and `Pipeline.RefilledBounds` state its properties and `ViewModel.CleanerViewModel.FillPreloadBuffer` is proved against it |
| Pipeline.RefilledConserves | app/src/main/java/com/example/photocleaner/viewmodel/CleanerViewModel.kt:118-122 | a refill pass keeps the buffer followed by the pool's photos unchanged: nothing is lost, duplicated or reordered |
| Pipeline.RefilledBounds | app/src/main/java/com/example/photocleaner/viewmodel/CleanerViewModel.kt:118-122 | after a pass the buffer holds 20 photos or the pool is empty; a buffer within 20 stays within 20; a buffer with 20 or more is left as it was; the buffer never shrinks |
| Pipeline.Available | app/src/main/java/com/example/photocleaner/viewmodel/CleanerViewModel.kt:90 | an id is available exactly when it is in the catalog and not in the ledger |
| Pipeline.AvailableAppend | app/src/main/java/com/example/photocleaner/viewmodel/CleanerViewModel.kt:90 | the filter keeps catalog order: it distributes over concatenation |
| Pipeline.AvailableCount | app/src/main/java/com/example/photocleaner/viewmodel/CleanerViewModel.kt:90-92 | for a catalog without duplicates and a ledger within it, `totalPhotosCount` is the catalog size minus the ledger size |
| Pipeline.AvailableIgnores | app/src/main/java/com/example/photocleaner/viewmodel/CleanerViewModel.kt:90 | a ledger id absent from the catalog makes no difference to the filter |
| Pipeline.RemoveFirst | app/src/main/java/com/example/photocleaner/viewmodel/CleanerViewModel.kt:209 | `remove(x)` takes one occurrence of `x` out (as a multiset), shortens a list holding `x` by one, and leaves a list without `x` as it was |
| Pipeline.RemoveFirstRemovesFirst | app/src/main/java/com/example/photocleaner/viewmodel/CleanerViewModel.kt:209 | `remove(x)` on `prefix + [x] + suffix`, with no `x` in `prefix`, gives `prefix + suffix`: the first occurrence goes and the rest keep their order |
| Pipeline.FirstIndex | app/src/main/java/com/example/photocleaner/viewmodel/CleanerViewModel.kt:230 | the position `remove(x)` acts on in a list holding `x`: a position holding `x` with none before it |
| Pipeline.RemoveFirstAtFirstIndex | app/src/main/java/com/example/photocleaner/viewmodel/CleanerViewModel.kt:230 | `remove(x)` of a list holding `x` drops that first position holding `x` and keeps everything else in order |
| Pipeline.RemoveFirstOfAppended | app/src/main/java/com/example/photocleaner/viewmodel/CleanerViewModel.kt:183-209 | removing a photo just appended, which was not pending before, gives back the list |
| Pipeline.RemoveFirstIdempotent | app/src/main/java/com/example/photocleaner/viewmodel/CleanerViewModel.kt:228-231 | a second removal of a photo pending at most once changes nothing |
| Pipeline.PhotoSetAdd | app/src/main/java/com/example/photocleaner/viewmodel/CleanerViewModel.kt:140-143 | materialising one more ledger id adds exactly its photo |
| Pipeline.PhotoSet | app/src/main/java/com/example/photocleaner/viewmodel/CleanerViewModel.kt:140-143 | the photos `refreshTrashList` builds, one `Photo(id, getUriForId(id))` per ledger id; no contract of its own: `Pipeline.PhotoSetAdd`, `Pipeline.PhotoSetSize` and `Pipeline.PendingMatchesLedger` |
| Pipeline.PhotoSetSize | app/src/main/java/com/example/photocleaner/viewmodel/CleanerViewModel.kt:137-144 | the rebuilt pending list has one photo per ledger id |
| Pipeline.PendingMatchesLedger | app/src/main/java/com/example/photocleaner/viewmodel/CleanerViewModel.kt:137-144 | a list rebuilt from the ledger has one entry per ledger id and no duplicates; it holds the photo of every ledger id and nothing else |
| ViewModel.OnScreen | app/src/main/java/com/example/photocleaner/viewmodel/CleanerViewModel.kt:213-215 | at most one photo is on screen: the non-null photo of a `Ready` state |
| ViewModel.CleanerViewModel.Ledger | app/src/main/java/com/example/photocleaner/viewmodel/CleanerViewModel.kt:87 | the ids `getLocalTrashedIds()` returns, as read at lines 87 and 139; no contract of its own, the repository methods state how each update changes it |
| ViewModel.CleanerViewModel.Valid | app/src/main/java/com/example/photocleaner/viewmodel/CleanerViewModel.kt:203-204 | the counter of reviewed photos equals the depth of the undo stack; every method that touches either keeps it |
| ViewModel.CleanerViewModel.constructor | app/src/main/java/com/example/photocleaner/viewmodel/CleanerViewModel.kt:70-72 | construction runs `loadAndShufflePhotos`, with nothing pending and no request outstanding |
| ViewModel.CleanerViewModel.LoadAndShufflePhotos | app/src/main/java/com/example/photocleaner/viewmodel/CleanerViewModel.kt:77-111 | clears the undo stack and the counter; `totalPhotosCount` is the number of catalog ids not in the ledger; with none the state is `Empty` and the pool is not reseeded; otherwise the first shuffled id is shown and the rest follow in shuffled order, with the buffer within 20 |
| ViewModel.CleanerViewModel.FillPreloadBuffer | app/src/main/java/com/example/photocleaner/viewmodel/CleanerViewModel.kt:116-122 | the loop leaves the state `Refilled` describes, so the photos still to be shown are unchanged, a buffer within 20 stays within 20, and a buffer under 20 means the pool is empty |
| ViewModel.CleanerViewModel.LoadNextPhoto | app/src/main/java/com/example/photocleaner/viewmodel/CleanerViewModel.kt:149-171 | `Empty` exactly when no photo was left to show; otherwise the first photo still to be shown goes on screen and comes off the sequence; the buffer stays within 20 |
| ViewModel.CleanerViewModel.SwipeLeft | app/src/main/java/com/example/photocleaner/viewmodel/CleanerViewModel.kt:176-185 | pushes one discard record and counts it; the ledger gains the id; the photo is appended to the pending list unchecked; the next photo is shown |
| ViewModel.CleanerViewModel.RecordDiscard | app/src/main/java/com/example/photocleaner/viewmodel/CleanerViewModel.kt:181-183 | the ledger gains the id and the pending list gains the photo at its end |
| ViewModel.CleanerViewModel.SwipeRight | app/src/main/java/com/example/photocleaner/viewmodel/CleanerViewModel.kt:190-195 | pushes one keep record and counts it; the ledger and the pending list are not touched; the next photo is shown |
| ViewModel.CleanerViewModel.Undo | app/src/main/java/com/example/photocleaner/viewmodel/CleanerViewModel.kt:200-223 | with no history, nothing changes; otherwise the last record is popped and uncounted; a discard's id leaves the ledger and its photo leaves the pending list; the photo on screen goes back in front of those still to be shown; the popped photo is shown |
| ViewModel.CleanerViewModel.PushBackShown | app/src/main/java/com/example/photocleaner/viewmodel/CleanerViewModel.kt:213-219 | the photo on screen, if any, goes to the front of the buffer and of the photos still to be shown |
| ViewModel.CleanerViewModel.RestorePhoto | app/src/main/java/com/example/photocleaner/viewmodel/CleanerViewModel.kt:228-231 | the id leaves the ledger and the first equal photo leaves the pending list |
| ViewModel.CleanerViewModel.RefreshTrashList | app/src/main/java/com/example/photocleaner/viewmodel/CleanerViewModel.kt:137-144 | the pending list becomes the photos of the ledger ids, once each, in some order |
| ViewModel.CleanerViewModel.ConfirmDelete | app/src/main/java/com/example/photocleaner/viewmodel/CleanerViewModel.kt:237-251 | a returned request becomes the outstanding one, whatever was outstanding, and nothing else changes; no request means every pending id leaves the ledger and the pending list and the request are cleared |
| ViewModel.CleanerViewModel.OnDeleteSuccess | app/src/main/java/com/example/photocleaner/viewmodel/CleanerViewModel.kt:294-304 | every pending id leaves the ledger; the pending list and the request are cleared |
| ViewModel.CleanerViewModel.ResetDeleteState | app/src/main/java/com/example/photocleaner/viewmodel/CleanerViewModel.kt:309-311 | the request is cleared and nothing else changes |
| Scenarios.SwipeLeftThenUndo | app/src/main/java/com/example/photocleaner/viewmodel/CleanerViewModel.kt:176-223 | discarding the photo on screen and undoing restores the counter, the undo stack, the ledger, the pending list, the screen and the photos still to be shown |
| Scenarios.ShownThenPutBack | app/src/main/java/com/example/photocleaner/viewmodel/CleanerViewModel.kt:164-165 | putting the photo `loadNextPhoto` showed back in front of the remaining ones gives the sequence it was taken from |
| Scenarios.SwipeRightThenUndo | app/src/main/java/com/example/photocleaner/viewmodel/CleanerViewModel.kt:190-223 | keeping the photo on screen and undoing restores the whole review state, and the ledger is never touched |
| Scenarios.RestorePhotoTwice | app/src/main/java/com/example/photocleaner/viewmodel/CleanerViewModel.kt:228-231 | a second `restorePhoto` of a photo pending at most once changes nothing |
| Scenarios.RefreshTrashListTwice | app/src/main/java/com/example/photocleaner/viewmodel/CleanerViewModel.kt:137-144 | two refreshes in a row give the same photos: one per ledger id, each `Photo(id, getUriForId(id))` |
| Scenarios.TrashThenConfirm | app/src/main/java/com/example/photocleaner/viewmodel/CleanerViewModel.kt:237-304 | on Android 11+ `waiting` is the trash request for the pending photos and the pending list stays as it was while it waits; once confirmed, no pending id is left in the ledger and nothing is pending |
| Scenarios.TrashThenCancel | app/src/main/java/com/example/photocleaner/viewmodel/CleanerViewModel.kt:237-311 | a refused dialog leaves the ledger and the pending list as they were, with no request outstanding |
| Scenarios.LastPhoto | app/src/main/java/com/example/photocleaner/viewmodel/CleanerViewModel.kt:149-171 | `shown` is the photo of the last id of the pool, and the next advance gives `Empty` without looping |
| Scenarios.UndoOverfillsBuffer | app/src/main/java/com/example/photocleaner/viewmodel/CleanerViewModel.kt:213-219 | `undo` with a full buffer and a photo on screen leaves 21 photos in the buffer |
| Scenarios.ConfirmDeleteTwice | app/src/main/java/com/example/photocleaner/viewmodel/CleanerViewModel.kt:245-246 | a second `confirmDelete` replaces the outstanding request |
| Scenarios.SwipeLeftPendingTwice | app/src/main/java/com/example/photocleaner/viewmodel/CleanerViewModel.kt:183 | discarding a photo that is already pending lists it one more time |

## Left out

- MediaStore I/O is not modelled. This covers the `getAllImageIds` cursor loop
  (`PhotoRepository.kt:61-79`), `getSystemTrashPhotos` (156-194),
  `deletePhotosDirectly` (142-150) and the internals of
  `createTrashRequest`/`createDeleteRequest`. The catalog is the parameter
  `allIds`. A request is the `IntentSender` value naming its kind and uris.
  Below Android 11 the direct deletion has no effect on the model.
- `Build.VERSION.SDK_INT` is the parameter `sdkAtLeastR`.
- The randomness of `shuffle()` is not modelled. The shuffled order is the
  parameter `shuffled`, which is required to be a permutation of the
  available ids.
- The image prefetch of `fillPreloadBuffer` (`CleanerViewModel.kt:124-130`) is
  not modelled: it goes to the image loader and does not touch the pipeline's
  state.
- Coroutines (`viewModelScope.launch`, `withContext`) and the Compose state
  holders are not modelled. Each entry point is one atomic method.
- The asynchronous `apply()` of shared preferences is not modelled. A ledger
  write takes effect at once.
- The system-trash operations of the view model are not modelled
  (`CleanerViewModel.kt:256-289`). `loadSystemTrash` reloads the
  system-trash list from MediaStore. `restoreFromSystemTrash` and
  `deleteFromSystemTrash` call the request functions and store a returned
  request in `deleteIntentSender`, or reload the list when there is none.
  The system-trash list and the `loadSystemTrash` call at the end of
  `onDeleteSuccess` (303) are not modelled either.
- The model does not capture one interaction that follows from this. When
  the dialog of a system-trash request is confirmed, the screen calls
  `onDeleteSuccess` (`SystemTrashScreen.kt:50-52`). That removes every
  pending id from the ledger and empties the pending list, although those
  photos were not part of the confirmed request.
- The UI that reads the dialog's result and calls `onDeleteSuccess` or
  `resetDeleteState` is not modelled. The two outcomes are the two methods.
- The optional `dateTaken` and `name` fields of `Photo` are not modelled. The
  pipeline never sets them.
- The uri is the value `ImageUri(id)`, and its string form is only used to
  prove that `getUriForId` is injective. Android's `Uri` parsing is not
  modelled.
- ViewModel.CleanerViewModel.RefreshTrashList: the order of the rebuilt list
  is not modelled, because it is the iteration order of a hash set. The
  contract states the list as a multiset.
- Decimal.ToLongOrNull: only the ASCII digits '0' to '9' are accepted. Kotlin's
  `toLongOrNull` also accepts other Unicode decimal digits. `toString` never
  writes them, so this only matters for strings put in the preferences by
  other means.
- ViewModel.CleanerViewModel.SwipeLeft: `processedCount` and
  `totalPhotosCount` are unbounded integers. The source's 32-bit `Int`
  wrap-around needs more than two billion swipes and is not modelled.
- The view model holds no copy of the ledger. It reads the ledger through its
  repository (`Ledger()`), just as the source does.
