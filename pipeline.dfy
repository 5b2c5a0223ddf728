/**
 * Value-level specifications of the review pipeline's bookkeeping: the buffer
 * refill loop, the catalog filter, removal of one list element, and the
 * pending-delete list rebuilt from the ledger.
 */
module Pipeline {
  import opened Decimal
  import opened Photos

  /** `PRELOAD_BUFFER_SIZE`: the refill loop stops once the buffer holds this many photos. */
  const PreloadBufferSize: nat := 20
  /** `REFILL_THRESHOLD`: `loadNextPhoto` refills when the buffer holds fewer photos than this. */
  const RefillThreshold: nat := 5

  /** The lookahead buffer and the id pool it is refilled from. */
  datatype Queues = Queues(buffer: seq<Photo>, pool: seq<Long>)

  /** How many ids one pass of `fillPreloadBuffer` moves: as many as fit, and no more than the pool holds. */
  function RefillCount(buffer: seq<Photo>, pool: seq<Long>): (k: nat)
    ensures k <= |pool|
    ensures |buffer| >= PreloadBufferSize ==> k == 0
    ensures |buffer| < PreloadBufferSize ==> k == |pool| || |buffer| + k == PreloadBufferSize
    ensures |buffer| < PreloadBufferSize ==> |buffer| + k <= PreloadBufferSize
  {
    if |buffer| >= PreloadBufferSize then 0
    else if PreloadBufferSize - |buffer| < |pool| then PreloadBufferSize - |buffer|
    else |pool|
  }

  /**
   * What one pass of `fillPreloadBuffer` leaves: the first `RefillCount` ids
   * are taken off the front of the pool and their photos appended, in order,
   * to the back of the buffer.
   */
  function Refilled(buffer: seq<Photo>, pool: seq<Long>): Queues {
    var k := RefillCount(buffer, pool);
    Queues(buffer + Materialise(pool[..k]), pool[k..])
  }

  /** Refilling never loses, duplicates or reorders a photo still to be shown. */
  lemma RefilledConserves(buffer: seq<Photo>, pool: seq<Long>)
    ensures var r := Refilled(buffer, pool);
      r.buffer + Materialise(r.pool) == buffer + Materialise(pool)
  {
    var k := RefillCount(buffer, pool);
    assert pool == pool[..k] + pool[k..];
    MaterialiseAppend(pool[..k], pool[k..]);
  }

  /**
   * After a refill the buffer is full or the pool is empty, a buffer that was
   * within capacity stays within it, and a buffer already at capacity is left
   * as it was.
   */
  lemma RefilledBounds(buffer: seq<Photo>, pool: seq<Long>)
    ensures var r := Refilled(buffer, pool);
      && (|r.buffer| < PreloadBufferSize ==> r.pool == [])
      && (|buffer| <= PreloadBufferSize ==> |r.buffer| <= PreloadBufferSize)
      && (|buffer| >= PreloadBufferSize ==> r == Queues(buffer, pool))
      && |r.buffer| >= |buffer|
  {
    var k := RefillCount(buffer, pool);
    if |buffer| >= PreloadBufferSize {
      assert pool[..k] == [] && pool[k..] == pool;
    }
  }

  /** `allIds.filter { !trashedIds.contains(it) }`. */
  function Available(ids: seq<Long>, trashed: set<Long>): (r: seq<Long>)
    ensures forall x :: x in r <==> x in ids && x !in trashed
    ensures |r| <= |ids|
  {
    if ids == [] then []
    else (if ids[0] in trashed then [] else [ids[0]]) + Available(ids[1..], trashed)
  }

  /** The filter keeps the catalog's order: it distributes over concatenation. */
  lemma {:induction false} AvailableAppend(a: seq<Long>, b: seq<Long>, trashed: set<Long>)
    ensures Available(a + b, trashed) == Available(a, trashed) + Available(b, trashed)
  {
    if a != [] {
      assert (a + b)[0] == a[0];
      assert (a + b)[1..] == a[1..] + b;
      AvailableAppend(a[1..], b, trashed);
    } else {
      assert a + b == b;
    }
  }

  predicate NoDuplicates<T(==)>(s: seq<T>) {
    forall i, j :: 0 <= i < j < |s| ==> s[i] != s[j]
  }

  /**
   * With a catalog that lists each id once and a ledger that only holds catalog
   * ids, the number of photos to review is the catalog size minus the ledger size.
   */
  lemma {:induction false} AvailableCount(ids: seq<Long>, trashed: set<Long>)
    requires NoDuplicates(ids)
    requires forall x :: x in trashed ==> x in ids
    ensures |Available(ids, trashed)| == |ids| - |trashed|
  {
    if ids != [] {
      var rest := ids[1..];
      assert NoDuplicates(rest);
      assert ids[0] !in rest;
      var t' := trashed - {ids[0]};
      forall x | x in t' ensures x in rest {
        assert x in ids && x != ids[0];
        var j :| 0 <= j < |ids| && ids[j] == x;
        assert j != 0;
        assert rest[j - 1] == x;
      }
      AvailableCount(rest, t');
      assert Available(rest, t') == Available(rest, trashed) by {
        AvailableIgnores(rest, trashed, ids[0]);
      }
    }
  }

  /** An id that does not occur in the catalog makes no difference to the filter. */
  lemma {:induction false} AvailableIgnores(ids: seq<Long>, trashed: set<Long>, x: Long)
    requires x !in ids
    ensures Available(ids, trashed - {x}) == Available(ids, trashed)
  {
    if ids != [] {
      AvailableIgnores(ids[1..], trashed, x);
    }
  }

  /** `MutableList.remove(element)`: removes the first element equal to `x`, if any. */
  function RemoveFirst<T(==)>(xs: seq<T>, x: T): (r: seq<T>)
    ensures multiset(r) == multiset(xs) - multiset{x}
    ensures x in xs ==> |r| == |xs| - 1
    ensures x !in xs ==> r == xs
  {
    if xs == [] then []
    else if xs[0] == x then assert xs == [xs[0]] + xs[1..]; xs[1..]
    else assert xs == [xs[0]] + xs[1..]; [xs[0]] + RemoveFirst(xs[1..], x)
  }

  /**
   * `remove` takes out the first occurrence and keeps the order of everything
   * else: when `prefix` holds no `x`, removing `x` from `prefix + [x] + suffix`
   * gives `prefix + suffix`.
   */
  lemma {:induction false} RemoveFirstRemovesFirst<T>(prefix: seq<T>, x: T, suffix: seq<T>)
    requires x !in prefix
    ensures RemoveFirst(prefix + [x] + suffix, x) == prefix + suffix
  {
    var xs := prefix + [x] + suffix;
    if prefix == [] {
      assert xs == [x] + suffix;
    } else {
      var rest := prefix[1..];
      assert prefix == [prefix[0]] + rest;
      assert xs[0] == prefix[0] != x;
      assert xs[1..] == rest + [x] + suffix;
      calc {
        RemoveFirst(xs, x);
        [prefix[0]] + RemoveFirst(rest + [x] + suffix, x);
        { RemoveFirstRemovesFirst(rest, x, suffix); }
        [prefix[0]] + (rest + suffix);
        prefix + suffix;
      }
    }
  }

  /** The position `remove(x)` acts on in a list holding `x`: the first one holding it. */
  function FirstIndex<T(==)>(xs: seq<T>, x: T): (i: nat)
    requires x in xs
    ensures i < |xs| && xs[i] == x && x !in xs[..i]
  {
    if xs[0] == x then 0
    else
      var j := FirstIndex(xs[1..], x);
      assert xs[..j + 1] == [xs[0]] + xs[1..][..j];
      j + 1
  }

  /** `remove(x)` drops that first position holding `x` and nothing else. */
  lemma RemoveFirstAtFirstIndex<T>(xs: seq<T>, x: T)
    requires x in xs
    ensures var i := FirstIndex(xs, x); RemoveFirst(xs, x) == xs[..i] + xs[i + 1..]
  {
    var i := FirstIndex(xs, x);
    assert xs == xs[..i] + [x] + xs[i + 1..];
    RemoveFirstRemovesFirst(xs[..i], x, xs[i + 1..]);
  }

  /** Removing an element just appended, which was not there before, gives back the list. */
  lemma {:induction false} RemoveFirstOfAppended<T>(xs: seq<T>, x: T)
    requires x !in xs
    ensures RemoveFirst(xs + [x], x) == xs
  {
    if xs != [] {
      assert (xs + [x])[1..] == xs[1..] + [x];
      RemoveFirstOfAppended(xs[1..], x);
    }
  }

  /** A second removal of an element that occurred at most once changes nothing. */
  lemma RemoveFirstIdempotent<T>(xs: seq<T>, x: T)
    requires multiset(xs)[x] <= 1
    ensures RemoveFirst(RemoveFirst(xs, x), x) == RemoveFirst(xs, x)
  {
    assert multiset(RemoveFirst(xs, x))[x] == 0;
  }

  /** The photos `refreshTrashList` materialises for the ids of the ledger. */
  function PhotoSet(ids: set<Long>): set<Photo> {
    set id | id in ids :: PhotoFor(id)
  }

  /** Materialising one more id adds exactly its photo, which was not there yet. */
  lemma PhotoSetAdd(ids: set<Long>, id: Long)
    requires id !in ids
    ensures multiset(PhotoSet(ids + {id})) == multiset(PhotoSet(ids)) + multiset{PhotoFor(id)}
  {
    assert PhotoSet(ids + {id}) == PhotoSet(ids) + {PhotoFor(id)};
    assert PhotoFor(id) !in PhotoSet(ids);
  }

  /** One photo per ledger id: materialising is injective on ids. */
  lemma {:induction false} PhotoSetSize(ids: set<Long>)
    ensures |PhotoSet(ids)| == |ids|
    decreases ids
  {
    if ids != {} {
      var id :| id in ids;
      var rest := ids - {id};
      PhotoSetSize(rest);
      assert PhotoSet(ids) == PhotoSet(rest) + {PhotoFor(id)};
      assert PhotoFor(id) !in PhotoSet(rest);
    }
  }

  /**
   * A list holding the photos of `PhotoSet(ids)` once each has one photo per
   * id, the materialised photo of every id, and nothing else.
   */
  lemma PendingMatchesLedger(pending: seq<Photo>, ids: set<Long>)
    requires multiset(pending) == multiset(PhotoSet(ids))
    ensures |pending| == |ids|
    ensures forall id :: id in ids ==> PhotoFor(id) in pending
    ensures forall p :: p in pending ==> p.id in ids && p == PhotoFor(p.id)
    ensures NoDuplicates(pending)
  {
    PhotoSetSize(ids);
    calc {
      |pending|;
      |multiset(pending)|;
      |multiset(PhotoSet(ids))|;
      |PhotoSet(ids)|;
    }
    forall id | id in ids ensures PhotoFor(id) in pending {
      assert PhotoFor(id) in multiset(PhotoSet(ids));
    }
    forall p | p in pending ensures p.id in ids && p == PhotoFor(p.id) {
      assert p in multiset(pending);
    }
    forall i, j | 0 <= i < j < |pending| ensures pending[i] != pending[j] {
      assert multiset(PhotoSet(ids))[pending[i]] <= 1;
      SingleCountDistinct(pending, i, j);
    }
  }

  /** An element counted once in a sequence occurs at no second position. */
  lemma SingleCountDistinct<T>(s: seq<T>, i: nat, j: nat)
    requires i < j < |s| && multiset(s)[s[i]] <= 1
    ensures s[i] != s[j]
  {
    var x := s[i];
    assert s == s[..i] + [s[i]] + s[i + 1..j] + [s[j]] + s[j + 1..];
    assert multiset(s) == multiset(s[..i]) + multiset{x} + multiset(s[i + 1..j]) + multiset{s[j]} + multiset(s[j + 1..]);
  }
}
