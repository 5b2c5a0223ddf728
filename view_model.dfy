/**
 * `CleanerViewModel`: the review pipeline. Each public entry point, which the
 * app runs in a coroutine on the main dispatcher, is one atomic method here.
 */
module ViewModel {
  import opened Wrappers
  import opened Decimal
  import opened Photos
  import opened Repository
  import opened Pipeline

  /** `UiState`: what the swipe screen shows. */
  datatype UiState = Loading | Empty | Ready(currentPhoto: Option<Photo>)

  /** The photo a state shows, if any. */
  function OnScreen(state: UiState): (shown: seq<Photo>)
    ensures |shown| <= 1
  {
    if state.Ready? && state.currentPhoto.Some? then [state.currentPhoto.value] else []
  }

  /** Pushing photos onto the front of the buffer pushes them onto the front of what is still to come. */
  lemma PushedBackInFront(shown: seq<Photo>, buffer: seq<Photo>, rest: seq<Photo>)
    ensures (shown + buffer) + rest == shown + (buffer + rest)
  {
  }

  /** An `actionHistory` entry: the photo swiped and whether the swipe was left (discard). */
  datatype Action = Action(photo: Photo, isLeftSwipe: bool)

  class CleanerViewModel {
    const repository: PhotoRepository
    /** Shuffled ids not yet materialised, consumed from the front. */
    var globalIdPool: seq<Long>
    /** Materialised photos waiting to be shown, front first. */
    var preloadBuffer: seq<Photo>
    /** `_pendingDeleteList`: photos swiped left and not yet deleted or restored. */
    var pendingDeleteList: seq<Photo>
    var uiState: UiState
    /** The request waiting for the system's authorization dialog, if any. */
    var deleteIntentSender: Option<IntentSender>
    /** The undo stack; its top is the last element. */
    var actionHistory: seq<Action>
    var totalPhotosCount: int
    var processedCount: int

    /** The counter of reviewed photos is the depth of the undo stack. */
    ghost predicate Valid()
      reads this
    {
      processedCount == |actionHistory|
    }

    /** The photos still to be shown, in the order they will be shown. */
    ghost function Upcoming(): seq<Photo>
      reads this
    {
      preloadBuffer + Materialise(globalIdPool)
    }

    /** The ids in the local trash ledger. */
    function Ledger(): set<Long>
      reads repository
    {
      repository.GetLocalTrashedIds()
    }

    /**
     * `loadNextPhoto`'s outcome when `before` were the photos still to be shown:
     * nothing left gives `Empty`, otherwise the first is shown and taken off.
     */
    ghost predicate AdvancedFrom(before: seq<Photo>)
      reads this
    {
      if before == [] then uiState == Empty && Upcoming() == []
      else uiState == Ready(Some(before[0])) && Upcoming() == before[1..]
    }

    /**
     * Construction runs `loadAndShufflePhotos` on the catalog `allIds`;
     * `shuffled` is the order `shuffle()` picked for the ids to review.
     */
    constructor(repository: PhotoRepository, allIds: seq<Long>, shuffled: seq<Long>)
      requires multiset(shuffled) == multiset(Available(allIds, repository.GetLocalTrashedIds()))
      ensures this.repository == repository && Valid()
      ensures pendingDeleteList == [] && deleteIntentSender == None
      ensures actionHistory == [] && processedCount == 0
      ensures totalPhotosCount == |Available(allIds, Ledger())|
      ensures shuffled == [] ==> uiState == Empty && Upcoming() == []
      ensures shuffled != [] ==> uiState == Ready(Some(PhotoFor(shuffled[0]))) && Upcoming() == Materialise(shuffled[1..])
    {
      this.repository := repository;
      globalIdPool := [];
      preloadBuffer := [];
      pendingDeleteList := [];
      uiState := Loading;
      deleteIntentSender := None;
      actionHistory := [];
      totalPhotosCount := 0;
      processedCount := 0;
      new;
      LoadAndShufflePhotos(allIds, shuffled);
    }

    /**
     * `loadAndShufflePhotos`: start a session over the catalog ids that are not
     * in the ledger, in the order `shuffled`, and show the first of them.
     */
    method LoadAndShufflePhotos(allIds: seq<Long>, shuffled: seq<Long>)
      requires multiset(shuffled) == multiset(Available(allIds, Ledger()))
      modifies this`uiState, this`actionHistory, this`processedCount, this`preloadBuffer,
        this`totalPhotosCount, this`globalIdPool
      ensures Valid()
      ensures actionHistory == [] && processedCount == 0
      ensures totalPhotosCount == |Available(allIds, Ledger())|
      ensures shuffled == [] ==>
        uiState == Empty && preloadBuffer == [] && globalIdPool == old(globalIdPool)
      ensures shuffled != [] ==>
        && uiState == Ready(Some(PhotoFor(shuffled[0])))
        && Upcoming() == Materialise(shuffled[1..])
        && |preloadBuffer| <= PreloadBufferSize
        && (|preloadBuffer| < RefillThreshold ==> globalIdPool == [])
    {
      uiState := Loading;
      actionHistory := [];
      processedCount := 0;
      preloadBuffer := [];
      var trashedIds := repository.GetLocalTrashedIds();
      var availableIds := Available(allIds, trashedIds);
      totalPhotosCount := |availableIds|;
      if |availableIds| == 0 {
        assert |multiset(shuffled)| == 0;
        uiState := Empty;
        return;
      }
      assert |shuffled| == |multiset(shuffled)| == |availableIds|;
      globalIdPool := shuffled;
      assert Upcoming() == Materialise(shuffled);
      FillPreloadBuffer();
      LoadNextPhoto();
      MaterialiseAt(shuffled, 0);
    }

    /** `fillPreloadBuffer`, without its image prefetch: move ids from the pool to the buffer. */
    method FillPreloadBuffer()
      modifies this`preloadBuffer, this`globalIdPool
      ensures Queues(preloadBuffer, globalIdPool) == Refilled(old(preloadBuffer), old(globalIdPool))
      ensures Upcoming() == old(Upcoming())
      ensures old(|preloadBuffer|) <= PreloadBufferSize ==> |preloadBuffer| <= PreloadBufferSize
      ensures |preloadBuffer| < PreloadBufferSize ==> globalIdPool == []
    {
      ghost var buffer0, pool0 := preloadBuffer, globalIdPool;
      ghost var k := RefillCount(buffer0, pool0);
      ghost var moved := 0;
      while |preloadBuffer| < PreloadBufferSize && globalIdPool != []
        invariant moved <= k
        invariant preloadBuffer == buffer0 + Materialise(pool0[..moved])
        invariant globalIdPool == pool0[moved..]
        decreases |globalIdPool|
      {
        var nextId := globalIdPool[0];
        globalIdPool := globalIdPool[1..];
        var uri := UriForId(nextId);
        preloadBuffer := preloadBuffer + [Photo(nextId, uri)];
        MaterialisePrefixStep(pool0, moved);
        moved := moved + 1;
      }
      RefilledConserves(buffer0, pool0);
      RefilledBounds(buffer0, pool0);
    }

    /** `loadNextPhoto`: show the next photo, refilling the buffer around it. */
    method LoadNextPhoto()
      modifies this`preloadBuffer, this`globalIdPool, this`uiState
      ensures AdvancedFrom(old(Upcoming()))
      ensures old(|preloadBuffer|) <= PreloadBufferSize ==> |preloadBuffer| <= PreloadBufferSize
      ensures |preloadBuffer| < RefillThreshold ==> globalIdPool == []
    {
      if |preloadBuffer| < RefillThreshold {
        FillPreloadBuffer();
      }
      if |preloadBuffer| == 0 {
        FillPreloadBuffer();
        if |preloadBuffer| == 0 {
          uiState := Empty;
          return;
        }
      }
      ghost var before := Upcoming();
      var nextPhoto := preloadBuffer[0];
      preloadBuffer := preloadBuffer[1..];
      uiState := Ready(Some(nextPhoto));
      assert Upcoming() == before[1..];
      if |preloadBuffer| < RefillThreshold {
        FillPreloadBuffer();
      }
    }

    /** `swipeLeft`: discard `photo` into the local trash and show the next one. */
    method SwipeLeft(photo: Photo)
      requires Valid()
      modifies this`actionHistory, this`processedCount, this`pendingDeleteList,
        this`preloadBuffer, this`globalIdPool, this`uiState, repository
      ensures Valid()
      ensures actionHistory == old(actionHistory) + [Action(photo, true)]
      ensures processedCount == old(processedCount) + 1
      ensures repository.stored == AddedTo(old(repository.stored), photo.id)
      ensures Ledger() == old(Ledger()) + {photo.id}
      ensures pendingDeleteList == old(pendingDeleteList) + [photo]
      ensures AdvancedFrom(old(Upcoming()))
    {
      actionHistory := actionHistory + [Action(photo, true)];
      processedCount := processedCount + 1;
      RecordDiscard(photo);
      LoadNextPhoto();
    }

    /** The step of `swipeLeft` that puts `photo` in the local trash and on the pending list. */
    method RecordDiscard(photo: Photo)
      modifies this`pendingDeleteList, repository
      ensures repository.stored == AddedTo(old(repository.stored), photo.id)
      ensures Ledger() == old(Ledger()) + {photo.id}
      ensures pendingDeleteList == old(pendingDeleteList) + [photo]
    {
      repository.AddToLocalTrash(photo.id);
      pendingDeleteList := pendingDeleteList + [photo];
    }

    /** `swipeRight`: keep `photo` and show the next one. */
    method SwipeRight(photo: Photo)
      requires Valid()
      modifies this`actionHistory, this`processedCount, this`preloadBuffer, this`globalIdPool, this`uiState
      ensures Valid()
      ensures actionHistory == old(actionHistory) + [Action(photo, false)]
      ensures processedCount == old(processedCount) + 1
      ensures AdvancedFrom(old(Upcoming()))
    {
      actionHistory := actionHistory + [Action(photo, false)];
      processedCount := processedCount + 1;
      LoadNextPhoto();
    }

    /**
     * `undo`: pop the last swipe, take a discarded photo back out of the trash,
     * put the photo on screen back at the front of the buffer and show the
     * popped photo again.
     */
    method Undo()
      requires Valid()
      modifies this`actionHistory, this`processedCount, this`pendingDeleteList,
        this`preloadBuffer, this`uiState, repository
      ensures Valid()
      ensures old(actionHistory) == [] ==>
        && actionHistory == [] && pendingDeleteList == old(pendingDeleteList)
        && unchanged(repository) && preloadBuffer == old(preloadBuffer) && uiState == old(uiState)
      ensures old(actionHistory) != [] ==>
        && actionHistory == old(actionHistory)[..|old(actionHistory)| - 1]
        && preloadBuffer == OnScreen(old(uiState)) + old(preloadBuffer)
        && Upcoming() == OnScreen(old(uiState)) + old(Upcoming())
        && uiState == Ready(Some(old(actionHistory)[|old(actionHistory)| - 1].photo))
      ensures old(actionHistory) != [] && old(actionHistory)[|old(actionHistory)| - 1].isLeftSwipe ==>
        var photo := old(actionHistory)[|old(actionHistory)| - 1].photo;
        && repository.stored == RemovedFrom(old(repository.stored), photo.id)
        && Ledger() == old(Ledger()) - {photo.id}
        && pendingDeleteList == RemoveFirst(old(pendingDeleteList), photo)
      ensures old(actionHistory) != [] && !old(actionHistory)[|old(actionHistory)| - 1].isLeftSwipe ==>
        unchanged(repository) && pendingDeleteList == old(pendingDeleteList)
    {
      if |actionHistory| == 0 {
        return;
      }
      var last := actionHistory[|actionHistory| - 1];
      actionHistory := actionHistory[..|actionHistory| - 1];
      processedCount := processedCount - 1;
      if last.isLeftSwipe {
        repository.RemoveFromLocalTrash(last.photo.id);
        pendingDeleteList := RemoveFirst(pendingDeleteList, last.photo);
      }
      PushBackShown();
      uiState := Ready(Some(last.photo));
    }

    /** The step of `undo` that puts the photo on screen, if any, back at the front of the buffer. */
    method PushBackShown()
      modifies this`preloadBuffer
      ensures preloadBuffer == OnScreen(uiState) + old(preloadBuffer)
      ensures Upcoming() == OnScreen(uiState) + old(Upcoming())
    {
      if uiState.Ready? {
        var current := uiState.currentPhoto;
        if current.Some? {
          preloadBuffer := [current.value] + preloadBuffer;
        }
      }
      PushedBackInFront(OnScreen(uiState), old(preloadBuffer), Materialise(globalIdPool));
    }

    /** `restorePhoto`: take `photo` back out of the local trash. */
    method RestorePhoto(photo: Photo)
      modifies this`pendingDeleteList, repository
      ensures repository.stored == RemovedFrom(old(repository.stored), photo.id)
      ensures Ledger() == old(Ledger()) - {photo.id}
      ensures pendingDeleteList == RemoveFirst(old(pendingDeleteList), photo)
    {
      repository.RemoveFromLocalTrash(photo.id);
      pendingDeleteList := RemoveFirst(pendingDeleteList, photo);
    }

    /**
     * `refreshTrashList`: rebuild the pending list from the ledger, one photo
     * per id. The order is that of the set's iteration and is not modelled.
     */
    method RefreshTrashList()
      modifies this`pendingDeleteList
      ensures multiset(pendingDeleteList) == multiset(PhotoSet(Ledger()))
    {
      pendingDeleteList := [];
      var trashedIds := repository.GetLocalTrashedIds();
      var remaining := trashedIds;
      while remaining != {}
        invariant remaining <= trashedIds
        invariant multiset(pendingDeleteList) == multiset(PhotoSet(trashedIds - remaining))
        decreases remaining
      {
        var id :| id in remaining;
        var uri := UriForId(id);
        PhotoSetAdd(trashedIds - remaining, id);
        assert trashedIds - (remaining - {id}) == (trashedIds - remaining) + {id};
        pendingDeleteList := pendingDeleteList + [Photo(id, uri)];
        remaining := remaining - {id};
      }
    }

    /**
     * `confirmDelete`: ask the system to trash (or permanently delete) every
     * pending photo. A returned request replaces any outstanding one and waits
     * for the authorization dialog; no request means the operation is done (or
     * there was nothing to do) and `onDeleteSuccess` runs at once.
     */
    method ConfirmDelete(permanentDelete: bool, sdkAtLeastR: bool)
      modifies this`pendingDeleteList, this`deleteIntentSender, repository
      ensures var sender := if permanentDelete then DeletePhotos(old(pendingDeleteList), sdkAtLeastR)
                            else TrashPhotos(old(pendingDeleteList), sdkAtLeastR);
        if sender.Some? then
          && deleteIntentSender == sender
          && pendingDeleteList == old(pendingDeleteList)
          && unchanged(repository)
        else
          && deleteIntentSender == None
          && pendingDeleteList == []
          && repository.stored == ClearedOf(old(repository.stored), IdsOf(old(pendingDeleteList)))
          && Ledger() == old(Ledger()) - (set id | id in IdsOf(old(pendingDeleteList)))
    {
      var intentSender := if permanentDelete then DeletePhotos(pendingDeleteList, sdkAtLeastR)
                          else TrashPhotos(pendingDeleteList, sdkAtLeastR);
      if intentSender.Some? {
        deleteIntentSender := intentSender;
      } else {
        OnDeleteSuccess();
      }
    }

    /**
     * `onDeleteSuccess`: the authorization was granted (or not needed); drop
     * every pending id from the ledger and clear the pending list and the request.
     */
    method OnDeleteSuccess()
      modifies this`pendingDeleteList, this`deleteIntentSender, repository
      ensures repository.stored == ClearedOf(old(repository.stored), IdsOf(old(pendingDeleteList)))
      ensures Ledger() == old(Ledger()) - (set id | id in IdsOf(old(pendingDeleteList)))
      ensures forall p :: p in old(pendingDeleteList) ==> p.id !in Ledger()
      ensures pendingDeleteList == [] && deleteIntentSender == None
    {
      var idsToDelete := IdsOf(pendingDeleteList);
      repository.ClearLocalTrash(idsToDelete);
      forall p | p in old(pendingDeleteList) ensures p.id in idsToDelete {
        var i :| 0 <= i < |old(pendingDeleteList)| && old(pendingDeleteList)[i] == p;
        assert idsToDelete[i] == p.id;
      }
      pendingDeleteList := [];
      deleteIntentSender := None;
    }

    /** `resetDeleteState`: the authorization was refused; forget the request only. */
    method ResetDeleteState()
      modifies this`deleteIntentSender
      ensures deleteIntentSender == None
    {
      deleteIntentSender := None;
    }
  }
}
