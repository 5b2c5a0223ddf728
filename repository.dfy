/**
 * The local trash ledger of `PhotoRepository`: a set of photo ids persisted as
 * their decimal strings under one preferences key, and the empty-list guards of
 * the three MediaStore requests the pipeline hands to the system.
 */
module Repository {
  import opened Wrappers
  import opened Decimal
  import opened Photos

  /** `stringSet.mapNotNull { it.toLongOrNull() }.toSet()`. */
  function ParseIds(stored: set<string>): set<Long> {
    set s | s in stored && ToLongOrNull(s).Some? :: ToLongOrNull(s).value
  }

  /** `ids.map { it.toString() }.toSet()`. */
  function EncodeIds(ids: set<Long>): set<string> {
    set id | id in ids :: LongToString(id)
  }

  /** Writing a set of ids and reading it back gives the same set. */
  lemma ParseEncodedIds(ids: set<Long>)
    ensures ParseIds(EncodeIds(ids)) == ids
  {
    forall id | id in ids ensures id in ParseIds(EncodeIds(ids)) {
      ToLongOrNullOfLongToString(id);
      assert LongToString(id) in EncodeIds(ids);
    }
    forall id | id in ParseIds(EncodeIds(ids)) ensures id in ids {
      var s :| s in EncodeIds(ids) && ToLongOrNull(s) == Some(id);
      var x :| x in ids && s == LongToString(x);
      ToLongOrNullOfLongToString(x);
    }
  }

  /** Every id read back was stored as a string that parses to it. */
  lemma ParsedIdsComeFromStore(stored: set<string>, id: Long)
    requires id in ParseIds(stored)
    ensures exists s :: s in stored && ToLongOrNull(s) == Some(id)
  {
    var s :| s in stored && ToLongOrNull(s).Some? && ToLongOrNull(s).value == id;
  }

  /** An entry that does not parse as a `Long` is silently dropped when reading. */
  lemma ParseIdsDropsUnparsable(stored: set<string>, junk: string)
    requires ToLongOrNull(junk) == None
    ensures ParseIds(stored + {junk}) == ParseIds(stored)
  {
    assert forall s :: s in stored + {junk} && ToLongOrNull(s).Some? ==> s in stored;
  }

  /** Every entry that does parse contributes its id. */
  lemma ParseIdsKeepsParsable(stored: set<string>, s: string)
    requires s in stored && ToLongOrNull(s).Some?
    ensures ToLongOrNull(s).value in ParseIds(stored)
  {
  }

  /** The persisted value after `addToLocalTrash(id)`. */
  function AddedTo(stored: set<string>, id: Long): set<string> {
    EncodeIds(ParseIds(stored) + {id})
  }

  /** The persisted value after `removeFromLocalTrash(id)`. */
  function RemovedFrom(stored: set<string>, id: Long): set<string> {
    EncodeIds(ParseIds(stored) - {id})
  }

  /** The persisted value after `clearLocalTrash(ids)`. */
  function ClearedOf(stored: set<string>, ids: seq<Long>): set<string> {
    EncodeIds(ParseIds(stored) - (set id | id in ids))
  }

  /** Reading after `addToLocalTrash(id)` gives the old ids and `id`. */
  lemma AddedToReadsBack(stored: set<string>, id: Long)
    ensures ParseIds(AddedTo(stored, id)) == ParseIds(stored) + {id}
  {
    ParseEncodedIds(ParseIds(stored) + {id});
  }

  /** Reading after `removeFromLocalTrash(id)` gives the old ids without `id`. */
  lemma RemovedFromReadsBack(stored: set<string>, id: Long)
    ensures ParseIds(RemovedFrom(stored, id)) == ParseIds(stored) - {id}
  {
    ParseEncodedIds(ParseIds(stored) - {id});
  }

  /** Reading after `clearLocalTrash(ids)` gives the old ids without any of `ids`. */
  lemma ClearedOfReadsBack(stored: set<string>, ids: seq<Long>)
    ensures ParseIds(ClearedOf(stored, ids)) == ParseIds(stored) - (set id | id in ids)
  {
    ParseEncodedIds(ParseIds(stored) - (set id | id in ids));
  }

  /** Adding an id twice leaves the same persisted value as adding it once. */
  lemma AddedToIdempotent(stored: set<string>, id: Long)
    ensures AddedTo(AddedTo(stored, id), id) == AddedTo(stored, id)
  {
    AddedToReadsBack(stored, id);
  }

  /** Removing an id that is not in the ledger leaves the ids read back unchanged. */
  lemma RemovedFromAbsent(stored: set<string>, id: Long)
    requires id !in ParseIds(stored)
    ensures ParseIds(RemovedFrom(stored, id)) == ParseIds(stored)
  {
    RemovedFromReadsBack(stored, id);
  }

  /** Ids passed to `clearLocalTrash` that are not in the ledger are ignored. */
  lemma ClearedOfIgnoresAbsent(stored: set<string>, ids: seq<Long>, extra: seq<Long>)
    requires forall id :: id in extra ==> id !in ParseIds(stored)
    ensures ClearedOf(stored, ids + extra) == ClearedOf(stored, ids)
  {
    var a, b := set id | id in ids + extra, set id | id in ids;
    assert ParseIds(stored) - a == ParseIds(stored) - b;
  }

  /**
   * Adding an absent id and then removing it restores the original ledger. The
   * persisted strings come back in canonical form: entries that did not parse
   * and non-canonical numerals such as "+7" are rewritten or dropped.
   */
  lemma AddThenRemoveRestores(stored: set<string>, id: Long)
    requires id !in ParseIds(stored)
    ensures RemovedFrom(AddedTo(stored, id), id) == EncodeIds(ParseIds(stored))
    ensures ParseIds(RemovedFrom(AddedTo(stored, id), id)) == ParseIds(stored)
  {
    AddedToReadsBack(stored, id);
    assert ParseIds(stored) + {id} - {id} == ParseIds(stored);
    ParseEncodedIds(ParseIds(stored));
  }

  /** `PhotoRepository` reduced to the ledger it keeps in shared preferences. */
  class PhotoRepository {
    /** The string set stored under the preferences key "trashed_photo_ids". */
    var stored: set<string>

    constructor(stored: set<string>)
      ensures this.stored == stored
    {
      this.stored := stored;
    }

    /** `getLocalTrashedIds`. */
    function GetLocalTrashedIds(): set<Long>
      reads this
    {
      ParseIds(stored)
    }

    /** `addToLocalTrash`: read the set, add the id, write the whole set back. */
    method AddToLocalTrash(id: Long)
      modifies this
      ensures stored == AddedTo(old(stored), id)
      ensures GetLocalTrashedIds() == old(GetLocalTrashedIds()) + {id}
    {
      var current := GetLocalTrashedIds();
      current := current + {id};
      stored := EncodeIds(current);
      AddedToReadsBack(old(stored), id);
    }

    /** `removeFromLocalTrash`: read the set, remove the id, write the whole set back. */
    method RemoveFromLocalTrash(id: Long)
      modifies this
      ensures stored == RemovedFrom(old(stored), id)
      ensures GetLocalTrashedIds() == old(GetLocalTrashedIds()) - {id}
    {
      var current := GetLocalTrashedIds();
      current := current - {id};
      stored := EncodeIds(current);
      RemovedFromReadsBack(old(stored), id);
    }

    /** `clearLocalTrash`: read the set, remove every given id, write the whole set back. */
    method ClearLocalTrash(ids: seq<Long>)
      modifies this
      ensures stored == ClearedOf(old(stored), ids)
      ensures GetLocalTrashedIds() == old(GetLocalTrashedIds()) - (set id | id in ids)
    {
      var current := GetLocalTrashedIds();
      current := current - (set id | id in ids);
      stored := EncodeIds(current);
      ClearedOfReadsBack(old(stored), ids);
    }
  }

  /**
   * The `IntentSender` of a MediaStore write request, which the system's
   * authorization dialog runs: `createTrashRequest(uris, isTrashed)` moves
   * into (true) or restores from (false) the system trash,
   * `createDeleteRequest(uris)` deletes permanently.
   */
  datatype IntentSender =
    | TrashRequest(uris: seq<Uri>, isTrashed: bool)
    | DeleteRequest(uris: seq<Uri>)

  /**
   * `trashPhotos`: no request for an empty list; on Android 11 and later a
   * request to move the photos to the system trash; below that the photos are
   * deleted directly and there is no request.
   */
  function TrashPhotos(photos: seq<Photo>, sdkAtLeastR: bool): (r: Option<IntentSender>)
    ensures r.Some? <==> photos != [] && sdkAtLeastR
    ensures r.Some? ==> r.value.TrashRequest? && r.value.isTrashed && r.value.uris == UrisOf(photos)
  {
    if photos == [] then None
    else if sdkAtLeastR then Some(TrashRequest(UrisOf(photos), true))
    else None
  }

  /**
   * `deletePhotos`: no request for an empty list; on Android 11 and later a
   * request to delete the photos permanently; below that the photos are deleted
   * directly and there is no request.
   */
  function DeletePhotos(photos: seq<Photo>, sdkAtLeastR: bool): (r: Option<IntentSender>)
    ensures r.Some? <==> photos != [] && sdkAtLeastR
    ensures r.Some? ==> r.value.DeleteRequest? && r.value.uris == UrisOf(photos)
  {
    if photos == [] then None
    else if sdkAtLeastR then Some(DeleteRequest(UrisOf(photos)))
    else None
  }

  /**
   * `restoreFromSystemTrash`: no request for an empty list; on Android 11 and
   * later a request to take the photos out of the system trash; below that
   * nothing happens.
   */
  function RestoreFromSystemTrash(photos: seq<Photo>, sdkAtLeastR: bool): (r: Option<IntentSender>)
    ensures r.Some? <==> photos != [] && sdkAtLeastR
    ensures r.Some? ==> r.value.TrashRequest? && !r.value.isTrashed && r.value.uris == UrisOf(photos)
  {
    if photos == [] then None
    else if sdkAtLeastR then Some(TrashRequest(UrisOf(photos), false))
    else None
  }

  /** None of the three requests is made for an empty list. */
  lemma EmptyListMakesNoRequest(sdkAtLeastR: bool)
    ensures TrashPhotos([], sdkAtLeastR) == None
    ensures DeletePhotos([], sdkAtLeastR) == None
    ensures RestoreFromSystemTrash([], sdkAtLeastR) == None
  {
  }
}
