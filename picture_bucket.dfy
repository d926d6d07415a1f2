/**
 * `PictureBucketDB`: the repository of the `picturebucket` table, the
 * pictures taken for a job. Pictures are listed per job.
 */
module PictureBucket {
  import opened Js
  import opened JobTrakr
  import opened Decimal
  import opened Storage
  import opened ScanOrder
  import opened DbUtils

  /** The picture record callers pass in and get back. */
  datatype PictureData = PictureData(
    id: Option<int>,
    userId: Option<int>,
    deviceId: Option<int>,
    jobId: Option<int>,
    albumId: Option<string>,
    assetId: Option<string>,
    dateAdded: Option<string>,
    longitude: Option<JsNumber>,
    latitude: Option<JsNumber>,
    pictureDate: Option<string>)

  /** A row of the `picturebucket` table apart from its `_id` key. */
  datatype PictureRow = PictureRow(
    userId: Option<string>,
    deviceId: Option<string>,
    jobId: Option<string>,
    albumId: Option<string>,
    assetId: Option<string>,
    dateAdded: Option<string>,
    longitude: Option<JsNumber>,
    latitude: Option<JsNumber>,
    pictureDate: Option<string>)

  /** The values InsertPicture binds for the columns other than `_id`. */
  function PictureColumns(pict: PictureData): PictureRow
  {
    PictureRow(
      BindId(pict.userId), BindId(pict.deviceId), BindId(pict.jobId),
      pict.albumId, pict.assetId,
      BindText(pict.dateAdded), BindNumber(pict.longitude), BindNumber(pict.latitude), BindText(pict.pictureDate))
  }

  /**
   * Falsy `UserId`, `DeviceId`, `JobId` (so also `0n`), `DateAdded`,
   * `PictureDate`, `Longitude` and `Latitude` (so also `0`) are stored as
   * NULL; truthy identifiers are stored as text that reads back as the same
   * bigint; `AlbumId` and `AssetId` are stored as given.
   */
  lemma PictureColumnsStored(pict: PictureData)
    ensures PictureColumns(pict).userId.None? <==> !TruthyInt(pict.userId)
    ensures PictureColumns(pict).deviceId.None? <==> !TruthyInt(pict.deviceId)
    ensures PictureColumns(pict).jobId.None? <==> !TruthyInt(pict.jobId)
    ensures TruthyInt(pict.userId) ==> JsBigInt(PictureColumns(pict).userId) == pict.userId
    ensures TruthyInt(pict.deviceId) ==> JsBigInt(PictureColumns(pict).deviceId) == pict.deviceId
    ensures TruthyInt(pict.jobId) ==> JsBigInt(PictureColumns(pict).jobId) == pict.jobId
    ensures PictureColumns(pict).dateAdded == if TruthyText(pict.dateAdded) then pict.dateAdded else None
    ensures PictureColumns(pict).pictureDate == if TruthyText(pict.pictureDate) then pict.pictureDate else None
    ensures PictureColumns(pict).longitude == if TruthyNumber(pict.longitude) then pict.longitude else None
    ensures PictureColumns(pict).latitude == if TruthyNumber(pict.latitude) then pict.latitude else None
    ensures PictureColumns(pict).albumId == pict.albumId && PictureColumns(pict).assetId == pict.assetId
  {
    BindIdRoundTrip(pict.userId);
    BindIdRoundTrip(pict.deviceId);
    BindIdRoundTrip(pict.jobId);
  }

  /**
   * The object FetchAllPictures pushes for a row, as the code is written:
   * `BigInt` of `_id`, `JobId`, `DeviceId` and `userId`. `None` when one of
   * them throws, which `BigInt(null)` does for a NULL `DeviceId` or `userId`.
   */
  function DecodePictureAsWritten(key: int, row: PictureRow): Option<PictureData>
  {
    match (JsBigInt(Some(ToDecimal(key))), JsBigInt(row.jobId), JsBigInt(row.deviceId), JsBigInt(row.userId))
    case (Some(id), Some(job), Some(device), Some(user)) =>
      Some(PictureData(Some(id), Some(user), Some(device), Some(job),
        row.albumId, row.assetId, row.dateAdded, row.longitude, row.latitude, row.pictureDate))
    case _ => None
  }

  /** `v ? BigInt(v) : undefined` on an optional identifier column; `None` when `BigInt` throws. */
  function OptionalBigInt(v: Option<string>): Option<Option<int>>
  {
    if !TruthyText(v) then Some(None)
    else match ParseBigInt(v.value)
      case Some(n) => Some(Some(n))
      case None => None
  }

  /** The object FetchAllPictures pushes for a row once NULL `DeviceId` and `userId` read back as undefined. */
  function DecodePicture(key: int, row: PictureRow): Option<PictureData>
  {
    match (JsBigInt(Some(ToDecimal(key))), JsBigInt(row.jobId), OptionalBigInt(row.deviceId), OptionalBigInt(row.userId))
    case (Some(id), Some(job), Some(device), Some(user)) =>
      Some(PictureData(Some(id), user, device, Some(job),
        row.albumId, row.assetId, row.dateAdded, row.longitude, row.latitude, row.pictureDate))
    case _ => None
  }

  /** The optional identifier columns of a row hold NULL or text `BigInt` can read. */
  predicate PictureRowReadable(row: PictureRow)
  {
    && (TruthyText(row.userId) ==> ParseBigInt(row.userId.value).Some?)
    && (TruthyText(row.deviceId) ==> ParseBigInt(row.deviceId.value).Some?)
  }

  /** `id` kept only when truthy: how InsertPicture stores a falsy identifier and FetchAllPictures reads it. */
  function KeepTruthy(id: Option<int>): Option<int>
  {
    if TruthyInt(id) then id else None
  }

  /** A picture as it reads back once stored under `key`: the allocated id, and its falsy fields read as null. */
  function StoredPicture(key: int, pict: PictureData): PictureData
  {
    pict.(id := Some(key), userId := KeepTruthy(pict.userId), deviceId := KeepTruthy(pict.deviceId),
      dateAdded := BindText(pict.dateAdded), longitude := BindNumber(pict.longitude),
      latitude := BindNumber(pict.latitude), pictureDate := BindText(pict.pictureDate))
  }

  /** A picture stored with a truthy `JobId` reads back equal in every field, apart from the null mapping. */
  lemma PictureRoundTrip(key: int, pict: PictureData)
    requires TruthyInt(pict.jobId)
    ensures PictureRowReadable(PictureColumns(pict))
    ensures DecodePicture(key, PictureColumns(pict)) == Some(StoredPicture(key, pict))
  {
    ParseToDecimal(key);
    BindIdRoundTrip(pict.jobId);
    BindIdRoundTrip(pict.userId);
    BindIdRoundTrip(pict.deviceId);
  }

  /** Every row InsertPicture writes is readable: its `DeviceId` and `userId` are NULL or integer text. */
  lemma PictureColumnsReadable(pict: PictureData)
    ensures PictureRowReadable(PictureColumns(pict))
  {
    BindIdRoundTrip(pict.userId);
    BindIdRoundTrip(pict.deviceId);
  }

  /**
   * As written, a picture stored without a truthy `DeviceId` or `UserId`
   * cannot be read back: the NULL column makes `BigInt(null)` throw.
   */
  lemma AsWrittenRejectsStoredPicture(key: int, pict: PictureData)
    requires !TruthyInt(pict.deviceId) || !TruthyInt(pict.userId)
    ensures DecodePictureAsWritten(key, PictureColumns(pict)).None?
  {
  }

  /** The keys of the rows `WHERE JobId = $JobId` selects with `jobId.toString()` bound, in scan order. */
  function PictureKeys(t: map<int, PictureRow>, jobId: int): (keys: seq<int>)
    ensures forall i :: 0 <= i < |keys| ==> keys[i] in t
    ensures forall k :: k in keys <==> k in t && IntegerEquals(t[k].jobId, Some(ToDecimal(jobId)))
    ensures forall i, j :: 0 <= i < j < |keys| ==> keys[i] < keys[j]
  {
    var r := SortedKeys(set k | k in t && IntegerEquals(t[k].jobId, Some(ToDecimal(jobId))));
    assert forall i :: 0 <= i < |r| ==> r[i] in r;
    r
  }

  /** A picture row is selected by job `j` exactly when the picture's `JobId` was truthy and equal to `j`. */
  lemma PictureJobFilter(pict: PictureData, j: int)
    ensures IntegerEquals(PictureColumns(pict).jobId, Some(ToDecimal(j))) <==> TruthyInt(pict.jobId) && pict.jobId.value == j
  {
    IntegerEqualsBound(pict.jobId, j);
  }

  /** On readable rows the job filter selected, the corrected conversion never throws and reads `JobId` back as `jobId`. */
  lemma PictureKeysDecode(t: map<int, PictureRow>, jobId: int)
    requires forall k :: k in t ==> PictureRowReadable(t[k])
    ensures Convertible(t, PictureKeys(t, jobId), 0, DecodePicture) == |PictureKeys(t, jobId)|
    ensures forall i :: 0 <= i < |PictureKeys(t, jobId)| ==>
      var k := PictureKeys(t, jobId)[i];
      DecodePicture(k, t[k]).Some? && DecodePicture(k, t[k]).value.id == Some(k) && DecodePicture(k, t[k]).value.jobId == Some(jobId)
  {
    var keys := PictureKeys(t, jobId);
    forall i | 0 <= i < |keys|
      ensures DecodePicture(keys[i], t[keys[i]]).Some? && DecodePicture(keys[i], t[keys[i]]).value.id == Some(keys[i])
      ensures DecodePicture(keys[i], t[keys[i]]).value.jobId == Some(jobId)
    {
      assert keys[i] in keys;
      SelectedPictureDecodes(keys[i], t[keys[i]], jobId);
    }
  }

  /** A readable row the job filter selects reads back with its own key and that job. */
  lemma SelectedPictureDecodes(key: int, row: PictureRow, jobId: int)
    requires PictureRowReadable(row) && IntegerEquals(row.jobId, Some(ToDecimal(jobId)))
    ensures DecodePicture(key, row).Some? && DecodePicture(key, row).value.id == Some(key)
    ensures DecodePicture(key, row).value.jobId == Some(jobId)
  {
    ParseToDecimal(key);
    IntegerEqualsReadsBack(row.jobId, jobId);
  }

  /**
   * A created picture is found again by its job: a picture stored under
   * `key` with `JobId == jobId` (non-zero), in a table of readable rows, is
   * among the pictures FetchAllPictures(jobId) returns, equal to what was
   * stored.
   */
  lemma CreatedPictureIsFetched(t: map<int, PictureRow>, key: int, pict: PictureData, jobId: int)
    requires pict.jobId == Some(jobId) && jobId != 0
    requires forall k :: k in t ==> PictureRowReadable(t[k])
    ensures var t' := t[key := PictureColumns(pict)];
      var keys := PictureKeys(t', jobId);
      && Convertible(t', keys, 0, DecodePicture) == |keys|
      && StoredPicture(key, pict) in Collect(t', keys, |keys|, DecodePicture)
  {
    var t' := t[key := PictureColumns(pict)];
    PictureRoundTrip(key, pict);
    assert forall k :: k in t' ==> PictureRowReadable(t'[k]);
    PictureKeysDecode(t', jobId);
    PictureJobFilter(pict, jobId);
    CollectContains(t', PictureKeys(t', jobId), DecodePicture, key);
  }

  /**
   * As written, one picture of the job stored without a truthy `DeviceId`
   * or `UserId` stops the loop before the end, whatever else the table holds,
   * so FetchAllPicturesAsWritten reports `Error` for that job.
   */
  lemma AsWrittenFetchStops(t: map<int, PictureRow>, key: int, pict: PictureData, jobId: int)
    requires pict.jobId == Some(jobId) && jobId != 0
    requires !TruthyInt(pict.deviceId) || !TruthyInt(pict.userId)
    ensures var t' := t[key := PictureColumns(pict)];
      Convertible(t', PictureKeys(t', jobId), 0, DecodePictureAsWritten) < |PictureKeys(t', jobId)|
  {
    var t' := t[key := PictureColumns(pict)];
    PictureJobFilter(pict, jobId);
    var keys := PictureKeys(t', jobId);
    assert key in keys;
    var i :| 0 <= i < |keys| && keys[i] == key;
    AsWrittenRejectsStoredPicture(key, pict);
  }

  class PictureBucketDB {
    /** Whether `_db` holds an open database handle. */
    const hasDb: bool
    /** `_userId`, the namespace identifiers are allocated in. */
    const userId: int
    /** The allocator every repository of the database shares. */
    const alloc: IdAllocator
    /** The `picturebucket` table, keyed by `_id`. */
    var table: map<int, PictureRow>

    constructor (hasDb: bool, custId: int, alloc: IdAllocator, rows: map<int, PictureRow>)
      ensures this.hasDb == hasDb && userId == custId && this.alloc == alloc && table == rows
    {
      this.hasDb := hasDb;
      userId := custId;
      this.alloc := alloc;
      table := rows;
    }

    /** Every key in the table is an identifier the allocator issued to this user. */
    ghost predicate KeysIssued()
      reads this, alloc
    {
      table.Keys <= alloc.Issued(userId)
    }

    /**
     * `InsertPicture(id, pict)`, one exclusive transaction: the allocated
     * identifier goes into `pict._id` and `id.value` whatever it is, and the
     * row is inserted only when it is above the sentinel. An INSERT that
     * throws is caught inside the transaction, which still commits.
     */
    method InsertPicture(id: Ref<int>, pict: Ref<PictureData>, allocFails: bool, insertThrows: bool) returns (status: DBStatus)
      modifies this, alloc, id, pict
      ensures !hasDb ==> unchanged(alloc, id, pict)
      ensures hasDb ==> pict.value == old(pict.value).(id := Some(id.value))
      ensures hasDb ==> (id.value < 0 <==> allocFails)
      ensures hasDb && allocFails ==> alloc.nextIds == old(alloc.nextIds)
      ensures hasDb && !allocFails ==> id.value !in old(alloc.Issued(userId))
      ensures hasDb && !allocFails ==> alloc.Issued(userId) == old(alloc.Issued(userId)) + {id.value}
      ensures forall u :: u != userId ==> alloc.Issued(u) == old(alloc.Issued(u))
      ensures status == Success <==> hasDb && id.value > -1 && !insertThrows && id.value !in old(table)
      ensures status != NoChanges
      ensures table == if status == Success then old(table)[id.value := PictureColumns(old(pict.value))] else old(table)
      ensures old(KeysIssued()) ==> KeysIssued()
    {
      if !hasDb {
        return Error;
      }
      status := Error;
      var uid := alloc.BuildUniqueId(userId, allocFails);
      pict.value := pict.value.(id := Some(uid));
      id.value := uid;
      if uid > -1 {
        var inserted := Insert(table, ToDecimal(uid), PictureColumns(pict.value));
        InsertAtKey(table, uid, PictureColumns(pict.value));
        if insertThrows || inserted.None? {
          status := Error;
        } else {
          table := inserted.value;
          status := Success;
        }
      }
    }

    /**
     * `UpdateJobId(id, jobId)`: sets the `JobId` of the row keyed `id` to
     * `jobId` (NULL when `jobId` is `0n`) and changes nothing else.
     */
    method UpdateJobId(id: int, jobId: int, execThrows: bool) returns (status: DBStatus)
      modifies this
      ensures status == Error <==> !hasDb || execThrows
      ensures status == Success <==> hasDb && !execThrows && id != 0 && id in old(table)
      ensures table == if status == Success then old(table)[id := old(table)[id].(jobId := BindId(Some(jobId)))] else old(table)
    {
      if !hasDb {
        return Error;
      }
      status := Error;
      var job := BindId(Some(jobId));
      var param := BindId(Some(id));
      if !execThrows {
        MatchingBound(table, Some(id));
        var changes := |Matching(table, param)|;
        UpdateWhereBound(table, Some(id), (r: PictureRow) => r.(jobId := job));
        table := UpdateWhere(table, param, (r: PictureRow) => r.(jobId := job));
        status := ChangesStatus(changes);
      }
    }

    /** `DeletePicture(id)`: removes the row keyed `id` and no other; a missing or zero `id` gives `NoChanges`. */
    method DeletePicture(id: int, execThrows: bool) returns (status: DBStatus)
      modifies this
      ensures status == Error <==> !hasDb || execThrows
      ensures status == Success <==> hasDb && !execThrows && id != 0 && id in old(table)
      ensures table == if status == Success then old(table) - {id} else old(table)
    {
      if !hasDb {
        return Error;
      }
      status := Error;
      var param := BindId(Some(id));
      if !execThrows {
        MatchingBound(table, Some(id));
        DeleteWhereBound(table, Some(id));
        var changes := |Matching(table, param)|;
        table := DeleteWhere(table, param);
        status := ChangesStatus(changes);
      }
    }

    /**
     * `FetchAllPictures(jobId, pictures)` as written: appends the pictures
     * of the job to the caller's array, keeping what it held, and stops with
     * `Error` at the first row on which a `BigInt(...)` throws; what was
     * pushed before that row stays pushed.
     */
    method FetchAllPicturesAsWritten(jobId: int, pictures: JsArray<PictureData>, queryThrows: bool) returns (status: DBStatus)
      modifies pictures
      ensures status != NoChanges
      ensures !hasDb || queryThrows ==> status == Error && pictures.elems == old(pictures.elems)
      ensures hasDb && !queryThrows ==>
        var keys := PictureKeys(table, jobId);
        var n := Convertible(table, keys, 0, DecodePictureAsWritten);
        && pictures.elems == old(pictures.elems) + Collect(table, keys, n, DecodePictureAsWritten)
        && (status == Success <==> n == |keys|)
    {
      if !hasDb {
        return Error;
      }
      status := Error;
      if !queryThrows {
        var keys := PictureKeys(table, jobId);
        var ok := PushConverted(table, keys, DecodePictureAsWritten, pictures);
        status := if ok then Success else Error;
      }
    }

    /**
     * `FetchAllPictures(jobId, pictures)` with NULL `DeviceId` and `userId`
     * read back as undefined: the same loop, which on a table of readable
     * rows never stops early, so every picture of the job is appended and
     * the status is `Success`, also when there is none.
     */
    method FetchAllPictures(jobId: int, pictures: JsArray<PictureData>, queryThrows: bool) returns (status: DBStatus)
      modifies pictures
      ensures status != NoChanges
      ensures !hasDb || queryThrows ==> status == Error && pictures.elems == old(pictures.elems)
      ensures hasDb && !queryThrows ==>
        var keys := PictureKeys(table, jobId);
        var n := Convertible(table, keys, 0, DecodePicture);
        && pictures.elems == old(pictures.elems) + Collect(table, keys, n, DecodePicture)
        && (status == Success <==> n == |keys|)
      ensures hasDb && !queryThrows && (forall k :: k in table ==> PictureRowReadable(table[k])) ==> status == Success
    {
      if !hasDb {
        return Error;
      }
      status := Error;
      if !queryThrows {
        var keys := PictureKeys(table, jobId);
        if forall k :: k in table ==> PictureRowReadable(table[k]) {
          PictureKeysDecode(table, jobId);
        }
        var ok := PushConverted(table, keys, DecodePicture, pictures);
        status := if ok then Success else Error;
      }
    }
  }
}
