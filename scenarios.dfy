/**
 * Properties of sequences of calls to the entry points of one
 * `CleanerViewModel`.
 */
module Scenarios {
  import opened Wrappers
  import opened Decimal
  import opened Photos
  import opened Repository
  import opened Pipeline
  import opened ViewModel

  /**
   * Discarding the photo on screen and undoing at once restores the counter,
   * the undo stack, the ledger, the pending list, the screen and the photos
   * still to come.
   */
  method SwipeLeftThenUndo(vm: CleanerViewModel, photo: Photo)
    requires vm.Valid() && vm.uiState == Ready(Some(photo))
    requires photo.id !in vm.Ledger() && photo !in vm.pendingDeleteList
    modifies vm, vm.repository
    ensures vm.Valid()
    ensures vm.processedCount == old(vm.processedCount) && vm.actionHistory == old(vm.actionHistory)
    ensures vm.Ledger() == old(vm.Ledger())
    ensures vm.pendingDeleteList == old(vm.pendingDeleteList)
    ensures vm.uiState == old(vm.uiState)
    ensures vm.Upcoming() == old(vm.Upcoming())
  {
    ghost var upcoming0 := vm.Upcoming();
    vm.SwipeLeft(photo);
    ShownThenPutBack(upcoming0, vm.uiState, vm.Upcoming());
    vm.Undo();
    RemoveFirstOfAppended(old(vm.pendingDeleteList), photo);
  }

  /**
   * Putting the photo that `loadNextPhoto` brought on screen back in front of
   * the photos still to come gives the sequence it was taken from.
   */
  lemma ShownThenPutBack(before: seq<Photo>, shown: UiState, after: seq<Photo>)
    requires before == [] ==> shown == Empty && after == []
    requires before != [] ==> shown == Ready(Some(before[0])) && after == before[1..]
    ensures OnScreen(shown) + after == before
  {
    if before != [] {
      assert before == [before[0]] + before[1..];
    }
  }

  /** Keeping the photo on screen and undoing at once restores the whole review state. */
  method SwipeRightThenUndo(vm: CleanerViewModel, photo: Photo)
    requires vm.Valid() && vm.uiState == Ready(Some(photo))
    modifies vm, vm.repository
    ensures vm.Valid()
    ensures vm.processedCount == old(vm.processedCount) && vm.actionHistory == old(vm.actionHistory)
    ensures unchanged(vm.repository)
    ensures vm.pendingDeleteList == old(vm.pendingDeleteList)
    ensures vm.uiState == old(vm.uiState)
    ensures vm.Upcoming() == old(vm.Upcoming())
  {
    vm.SwipeRight(photo);
    vm.Undo();
  }

  /**
   * Restoring the same photo twice: the second call leaves the ledger as the
   * first left it, and the pending list too when the photo was pending at most once.
   */
  method RestorePhotoTwice(vm: CleanerViewModel, photo: Photo)
    requires multiset(vm.pendingDeleteList)[photo] <= 1
    modifies vm, vm.repository
    ensures vm.Ledger() == old(vm.Ledger()) - {photo.id}
    ensures vm.pendingDeleteList == RemoveFirst(old(vm.pendingDeleteList), photo)
  {
    vm.RestorePhoto(photo);
    vm.RestorePhoto(photo);
    RemoveFirstIdempotent(old(vm.pendingDeleteList), photo);
  }

  /** Refreshing the pending list twice in a row gives the same photos both times. */
  method RefreshTrashListTwice(vm: CleanerViewModel) returns (first: seq<Photo>, second: seq<Photo>)
    modifies vm
    ensures multiset(first) == multiset(second)
    ensures second == vm.pendingDeleteList
    ensures |second| == |vm.Ledger()|
    ensures forall p :: p in second ==> p.id in vm.Ledger() && p == PhotoFor(p.id)
    ensures forall id :: id in vm.Ledger() ==> PhotoFor(id) in second
  {
    vm.RefreshTrashList();
    first := vm.pendingDeleteList;
    vm.RefreshTrashList();
    second := vm.pendingDeleteList;
    PendingMatchesLedger(second, vm.Ledger());
  }

  /**
   * Moving the pending photos to the system trash on Android 11+ waits for the
   * dialog: `waiting` is the request made for them and `pendingWhileWaiting`
   * the pending list meanwhile, unchanged. Once the dialog is confirmed none of their ids is left in the ledger and
   * nothing is pending.
   */
  method TrashThenConfirm(vm: CleanerViewModel) returns (ghost waiting: Option<IntentSender>, ghost pendingWhileWaiting: seq<Photo>)
    requires vm.pendingDeleteList != []
    modifies vm, vm.repository
    ensures waiting == Some(TrashRequest(UrisOf(old(vm.pendingDeleteList)), true))
    ensures pendingWhileWaiting == old(vm.pendingDeleteList)
    ensures forall p :: p in old(vm.pendingDeleteList) ==> p.id !in vm.Ledger()
    ensures vm.pendingDeleteList == [] && vm.deleteIntentSender == None
  {
    vm.ConfirmDelete(false, true);
    waiting, pendingWhileWaiting := vm.deleteIntentSender, vm.pendingDeleteList;
    vm.OnDeleteSuccess();
  }

  /**
   * When the dialog is refused, the ledger and the pending list are as they
   * were and no request is outstanding.
   */
  method TrashThenCancel(vm: CleanerViewModel)
    requires vm.pendingDeleteList != []
    modifies vm, vm.repository
    ensures unchanged(vm.repository)
    ensures vm.pendingDeleteList == old(vm.pendingDeleteList)
    ensures vm.deleteIntentSender == None
  {
    vm.ConfirmDelete(false, true);
    vm.ResetDeleteState();
  }

  /**
   * With an empty buffer and one id left in the pool, the next photo is that
   * id's (`shown`), and the one after it is `Empty`.
   */
  method LastPhoto(vm: CleanerViewModel, id: Long) returns (ghost shown: UiState)
    requires vm.preloadBuffer == [] && vm.globalIdPool == [id]
    modifies vm
    ensures shown == Ready(Some(PhotoFor(id)))
    ensures vm.uiState == Empty
    ensures vm.preloadBuffer == [] && vm.globalIdPool == []
  {
    vm.LoadNextPhoto();
    shown := vm.uiState;
    vm.LoadNextPhoto();
  }

  /**
   * `undo` does not respect the buffer's capacity: with a full buffer and a
   * photo on screen, undoing leaves one photo more than `PRELOAD_BUFFER_SIZE`.
   */
  method UndoOverfillsBuffer(vm: CleanerViewModel, photo: Photo)
    requires vm.Valid() && vm.actionHistory != []
    requires |vm.preloadBuffer| == PreloadBufferSize && vm.uiState == Ready(Some(photo))
    modifies vm, vm.repository
    ensures |vm.preloadBuffer| == PreloadBufferSize + 1
    ensures vm.preloadBuffer[0] == photo
  {
    vm.Undo();
  }

  /**
   * A second `confirmDelete` while a request is outstanding replaces that
   * request instead of being refused.
   */
  method ConfirmDeleteTwice(vm: CleanerViewModel)
    requires vm.pendingDeleteList != []
    modifies vm, vm.repository
    ensures vm.deleteIntentSender == Some(DeleteRequest(UrisOf(old(vm.pendingDeleteList))))
    ensures vm.pendingDeleteList == old(vm.pendingDeleteList)
  {
    vm.ConfirmDelete(false, true);
    vm.ConfirmDelete(true, true);
  }

  /**
   * `swipeLeft` does not check the pending list: discarding a photo that is
   * already pending lists it twice.
   */
  method SwipeLeftPendingTwice(vm: CleanerViewModel, photo: Photo)
    requires vm.Valid() && photo in vm.pendingDeleteList
    modifies vm, vm.repository
    ensures multiset(vm.pendingDeleteList)[photo] == multiset(old(vm.pendingDeleteList))[photo] + 1
    ensures multiset(vm.pendingDeleteList)[photo] >= 2
  {
    vm.SwipeLeft(photo);
  }
}
