/**
 * Photos as the pipeline sees them: a MediaStore id and the content uri derived
 * from it. The optional capture time and file name of the source's data class
 * are never set by the pipeline and are not modelled.
 */
module Photos {
  import opened Decimal

  /** Android's `MediaStore.Images.Media.EXTERNAL_CONTENT_URI`, as a string. */
  const ExternalContentUri: string := "content://media/external/images/media"

  /**
   * The `android.net.Uri` of one image: `EXTERNAL_CONTENT_URI` with the id
   * appended as one more path segment.
   */
  datatype Uri = ImageUri(id: Long) {
    /** The uri's string form: `ContentUris.withAppendedId` writes the id in decimal. */
    function ToString(): string {
      ExternalContentUri + "/" + LongToString(id)
    }
  }

  /** `PhotoRepository.getUriForId`: `ContentUris.withAppendedId(EXTERNAL_CONTENT_URI, id)`. */
  function UriForId(id: Long): Uri {
    ImageUri(id)
  }

  /** Distinct ids give distinct uri strings, so the uri of a photo determines its id. */
  lemma UriForIdInjective(a: Long, b: Long)
    requires UriForId(a).ToString() == UriForId(b).ToString()
    ensures a == b
  {
    var n := |ExternalContentUri + "/"|;
    assert UriForId(a).ToString()[n..] == LongToString(a);
    assert UriForId(b).ToString()[n..] == LongToString(b);
    LongToStringInjective(a, b);
  }

  datatype Photo = Photo(id: Long, uri: Uri)

  /** The photo the pipeline materialises for an id: `Photo(id = id, uri = getUriForId(id))`. */
  function PhotoFor(id: Long): Photo {
    Photo(id, UriForId(id))
  }

  /** The photos materialised, in order, for a sequence of ids. */
  function Materialise(ids: seq<Long>): (photos: seq<Photo>)
    ensures |photos| == |ids|
  {
    if ids == [] then [] else [PhotoFor(ids[0])] + Materialise(ids[1..])
  }

  /** The photo at each position is the one materialised for the id at that position. */
  lemma {:induction false} MaterialiseAt(ids: seq<Long>, i: nat)
    requires i < |ids|
    ensures Materialise(ids)[i] == PhotoFor(ids[i])
  {
    if i > 0 {
      MaterialiseAt(ids[1..], i - 1);
    }
  }

  /** `photos.map { it.id }`. */
  function IdsOf(photos: seq<Photo>): (ids: seq<Long>)
    ensures |ids| == |photos|
    ensures forall i :: 0 <= i < |photos| ==> ids[i] == photos[i].id
  {
    if photos == [] then [] else [photos[0].id] + IdsOf(photos[1..])
  }

  /** `photos.map { it.uri }`. */
  function UrisOf(photos: seq<Photo>): (uris: seq<Uri>)
    ensures |uris| == |photos|
    ensures forall i :: 0 <= i < |photos| ==> uris[i] == photos[i].uri
  {
    if photos == [] then [] else [photos[0].uri] + UrisOf(photos[1..])
  }

  /** Materialising a concatenation materialises each part. */
  lemma {:induction false} MaterialiseAppend(a: seq<Long>, b: seq<Long>)
    ensures Materialise(a + b) == Materialise(a) + Materialise(b)
  {
    if a == [] {
      assert a + b == b;
    } else {
      assert (a + b)[0] == a[0];
      assert (a + b)[1..] == a[1..] + b;
      MaterialiseAppend(a[1..], b);
    }
  }

  /** Materialising one more id of a prefix appends that id's photo. */
  lemma MaterialisePrefixStep(ids: seq<Long>, i: nat)
    requires i < |ids|
    ensures Materialise(ids[..i + 1]) == Materialise(ids[..i]) + [PhotoFor(ids[i])]
  {
    assert ids[..i + 1] == ids[..i] + [ids[i]];
    MaterialiseAppend(ids[..i], [ids[i]]);
    assert Materialise([ids[i]]) == [PhotoFor(ids[i])];
  }
}
