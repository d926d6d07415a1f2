/**
 * `ReceiptBucketDB`: the repository of the `receiptbucket` table, the
 * receipts recorded against a job. Unlike the other repositories it hands
 * the new identifier back as text, takes the user from an optional field,
 * and returns the fetched rows themselves rather than pushing onto a
 * caller's array.
 */
module ReceiptBucket {
  import opened Js
  import opened JobTrakr
  import opened Decimal
  import opened Storage
  import opened ScanOrder
  import opened DbUtils

  /** The receipt record a caller passes to InsertReceipt. */
  datatype ReceiptData = ReceiptData(
    amount: Option<JsNumber>,
    vendor: Option<string>,
    description: Option<string>,
    notes: Option<string>,
    categoryId: Option<int>,
    itemId: Option<int>,
    assetId: Option<string>,
    albumId: Option<string>,
    pictureUri: Option<string>)

  /** A row of the `receiptbucket` table apart from its `_id` key: the columns FetchJobReceipts selects. */
  datatype ReceiptRow = ReceiptRow(
    userId: Option<string>,
    jobId: Option<string>,
    deviceId: Option<string>,
    amount: Option<JsNumber>,
    vendor: Option<string>,
    description: Option<string>,
    notes: Option<string>,
    categoryId: Option<string>,
    itemId: Option<string>,
    assetId: Option<string>,
    albumId: Option<string>,
    pictureUri: Option<string>)

  /**
   * The values InsertReceipt binds for user `userId` (a truthy number),
   * device `deviceId` and job text `jobId`. `Amount` is not among the
   * columns the INSERT names, so it is NULL in every inserted row.
   */
  function ReceiptColumns(userId: int, deviceId: Option<int>, jobId: string, receipt: ReceiptData): ReceiptRow
  {
    ReceiptRow(
      BindId(Some(userId)), BindText(Some(jobId)), BindId(deviceId), None,
      BindText(receipt.vendor), BindText(receipt.description), BindText(receipt.notes),
      BindId(receipt.categoryId), BindId(receipt.itemId),
      BindText(receipt.assetId), BindText(receipt.albumId), BindText(receipt.pictureUri))
  }

  /**
   * Falsy optional fields of the receipt, a falsy device and an empty job
   * text are stored as NULL; truthy identifiers are stored as text that
   * reads back as the same bigint; truthy text is stored as given.
   */
  lemma ReceiptColumnsStored(userId: int, deviceId: Option<int>, jobId: string, receipt: ReceiptData)
    requires userId != 0
    ensures var row := ReceiptColumns(userId, deviceId, jobId, receipt);
      && JsBigInt(row.userId) == Some(userId)
      && (row.jobId.None? <==> jobId == "")
      && (jobId != "" ==> row.jobId == Some(jobId))
      && (row.deviceId.None? <==> !TruthyInt(deviceId))
      && (TruthyInt(deviceId) ==> JsBigInt(row.deviceId) == deviceId)
      && row.amount.None?
      && (row.categoryId.None? <==> !TruthyInt(receipt.categoryId))
      && (TruthyInt(receipt.categoryId) ==> JsBigInt(row.categoryId) == receipt.categoryId)
      && (row.itemId.None? <==> !TruthyInt(receipt.itemId))
      && (TruthyInt(receipt.itemId) ==> JsBigInt(row.itemId) == receipt.itemId)
      && row.vendor == (if TruthyText(receipt.vendor) then receipt.vendor else None)
      && row.description == (if TruthyText(receipt.description) then receipt.description else None)
      && row.notes == (if TruthyText(receipt.notes) then receipt.notes else None)
      && row.assetId == (if TruthyText(receipt.assetId) then receipt.assetId else None)
      && row.albumId == (if TruthyText(receipt.albumId) then receipt.albumId else None)
      && row.pictureUri == (if TruthyText(receipt.pictureUri) then receipt.pictureUri else None)
  {
    BindIdRoundTrip(Some(userId));
    BindIdRoundTrip(deviceId);
    BindIdRoundTrip(receipt.categoryId);
    BindIdRoundTrip(receipt.itemId);
  }

  /** FetchJobReceipts pushes each selected row as it comes back. */
  function RawRow(key: int, row: ReceiptRow): Option<ReceiptRow>
  {
    Some(row)
  }

  /** The keys of the rows `WHERE JobId = $JobId` selects with the text `jobId` bound, in scan order. */
  function ReceiptKeys(t: map<int, ReceiptRow>, jobId: string): (keys: seq<int>)
    ensures forall i :: 0 <= i < |keys| ==> keys[i] in t
    ensures forall k :: k in keys <==> k in t && IntegerEquals(t[k].jobId, Some(jobId))
    ensures forall i, j :: 0 <= i < j < |keys| ==> keys[i] < keys[j]
  {
    var r := SortedKeys(set k | k in t && IntegerEquals(t[k].jobId, Some(jobId)));
    assert forall i :: 0 <= i < |r| ==> r[i] in r;
    r
  }

  /** The rows FetchJobReceipts returns for the job text `jobId`. */
  function JobReceipts(t: map<int, ReceiptRow>, jobId: string): seq<ReceiptRow>
  {
    var keys := ReceiptKeys(t, jobId);
    assert ConvertsUpTo(t, keys, |keys|, RawRow);
    Collect(t, keys, |keys|, RawRow)
  }

  /**
   * The receipts of a job are exactly the rows whose `JobId` equals the
   * job as an integer, each returned as stored, once, in ascending `_id`
   * order.
   */
  lemma JobReceiptsExact(t: map<int, ReceiptRow>, jobId: string)
    ensures |JobReceipts(t, jobId)| == |ReceiptKeys(t, jobId)|
    ensures forall i :: 0 <= i < |ReceiptKeys(t, jobId)| ==> JobReceipts(t, jobId)[i] == t[ReceiptKeys(t, jobId)[i]]
    ensures forall k :: k in ReceiptKeys(t, jobId) <==> k in t && IntegerEquals(t[k].jobId, Some(jobId))
    ensures forall i, j :: 0 <= i < j < |ReceiptKeys(t, jobId)| ==> ReceiptKeys(t, jobId)[i] < ReceiptKeys(t, jobId)[j]
  {
    var keys := ReceiptKeys(t, jobId);
    forall i | 0 <= i < |keys|
      ensures JobReceipts(t, jobId)[i] == t[keys[i]]
    {
      assert Some(JobReceipts(t, jobId)[i]) == RawRow(keys[i], t[keys[i]]);
    }
  }

  /** A receipt inserted under a non-empty job text is among that job's receipts. */
  lemma InsertedReceiptIsFetched(t: map<int, ReceiptRow>, key: int, userId: int, deviceId: Option<int>, jobId: string, receipt: ReceiptData)
    requires jobId != ""
    ensures ReceiptColumns(userId, deviceId, jobId, receipt) in JobReceipts(t[key := ReceiptColumns(userId, deviceId, jobId, receipt)], jobId)
  {
    var t' := t[key := ReceiptColumns(userId, deviceId, jobId, receipt)];
    assert IntegerEquals(t'[key].jobId, Some(jobId));
    var keys := ReceiptKeys(t', jobId);
    assert ConvertsUpTo(t', keys, |keys|, RawRow);
    CollectContains(t', keys, RawRow, key);
  }

  /** A receipt inserted with an empty job text is stored without a job, so no job's receipts include it. */
  lemma JoblessReceiptIsNeverFetched(t: map<int, ReceiptRow>, key: int, userId: int, deviceId: Option<int>, receipt: ReceiptData, jobId: string)
    ensures key !in ReceiptKeys(t[key := ReceiptColumns(userId, deviceId, "", receipt)], jobId)
  {
  }

  /** After UpdateJobId moves a receipt to the non-zero job `jobId`, that job's receipts include it. */
  lemma MovedReceiptIsFetched(t: map<int, ReceiptRow>, id: int, jobId: int)
    requires id in t && jobId != 0
    ensures var t' := t[id := t[id].(jobId := BindId(Some(jobId)))];
      t'[id] in JobReceipts(t', ToDecimal(jobId))
  {
    var t' := t[id := t[id].(jobId := BindId(Some(jobId)))];
    assert IntegerEquals(t'[id].jobId, Some(ToDecimal(jobId)));
    var keys := ReceiptKeys(t', ToDecimal(jobId));
    assert ConvertsUpTo(t', keys, |keys|, RawRow);
    CollectContains(t', keys, RawRow, id);
  }

  class ReceiptBucketDB {
    /** Whether `_db` holds an open database handle. */
    const hasDb: bool
    /** `_userId`, a number or undefined. */
    const userId: Option<int>
    /** The allocator every repository of the database shares. */
    const alloc: IdAllocator
    /** The `receiptbucket` table, keyed by `_id`. */
    var table: map<int, ReceiptRow>

    constructor (hasDb: bool, userId: Option<int>, alloc: IdAllocator, rows: map<int, ReceiptRow>)
      ensures this.hasDb == hasDb && this.userId == userId && this.alloc == alloc && table == rows
    {
      this.hasDb := hasDb;
      this.userId := userId;
      this.alloc := alloc;
      table := rows;
    }

    /** Every key in the table is an identifier the allocator issued to this user. */
    ghost predicate KeysIssued()
      reads this, alloc
    {
      userId.Some? ==> table.Keys <= alloc.Issued(userId.value)
    }

    /**
     * `InsertReceipt(jobId, receipt)`, one exclusive transaction on device
     * `deviceId`: with no handle or no user it returns `Error` and `"0"`
     * and allocates nothing; otherwise `id` is the text of the allocated
     * value, sentinel included, and the row is inserted only when that value
     * is above the sentinel. An INSERT that throws is caught inside the
     * transaction, which still commits.
     */
    method InsertReceipt(jobId: string, receipt: ReceiptData, deviceId: Option<int>, allocFails: bool, insertThrows: bool)
      returns (status: DBStatus, id: string)
      modifies this, alloc
      ensures status != NoChanges
      ensures !hasDb || !TruthyInt(userId) ==>
        status == Error && id == "0" && alloc.nextIds == old(alloc.nextIds) && table == old(table)
      ensures hasDb && TruthyInt(userId) ==> ParseSigned(id).Some? && id == ToDecimal(ParseSigned(id).value)
      ensures hasDb && TruthyInt(userId) ==> (ParseSigned(id).value < 0 <==> allocFails)
      ensures hasDb && TruthyInt(userId) && allocFails ==> alloc.nextIds == old(alloc.nextIds)
      ensures hasDb && TruthyInt(userId) && !allocFails ==>
        && ParseSigned(id).value !in old(alloc.Issued(userId.value))
        && alloc.Issued(userId.value) == old(alloc.Issued(userId.value)) + {ParseSigned(id).value}
      ensures forall u :: (userId.None? || u != userId.value) ==> alloc.Issued(u) == old(alloc.Issued(u))
      ensures status == Success <==>
        hasDb && TruthyInt(userId) && !allocFails && !insertThrows && ParseSigned(id).value !in old(table)
      ensures table == if status == Success
        then old(table)[ParseSigned(id).value := ReceiptColumns(userId.value, deviceId, jobId, receipt)]
        else old(table)
      ensures old(KeysIssued()) ==> KeysIssued()
    {
      if !hasDb {
        return Error, "0";
      }
      status := Error;
      id := "0";
      if TruthyInt(userId) {
        var uid := alloc.BuildUniqueId(userId.value, allocFails);
        id := ToDecimal(uid);
        ParseToDecimal(uid);
        if uid > -1 {
          var row := ReceiptColumns(userId.value, deviceId, jobId, receipt);
          var inserted := Insert(table, ToDecimal(uid), row);
          InsertAtKey(table, uid, row);
          if insertThrows || inserted.None? {
            status := Error;
          } else {
            table := inserted.value;
            status := Success;
          }
        }
      }
    }

    /**
     * `UpdateJobId(id, jobId)`: sets the `JobId` of the row keyed `id` to
     * `jobId` (NULL when `jobId` is `0n`) and changes nothing else.
     */
    method UpdateJobId(id: int, jobId: int, execThrows: bool) returns (status: DBStatus)
      modifies this
      ensures status == Error <==> !hasDb || execThrows
      ensures status == Success <==> hasDb && !execThrows && id != 0 && id in old(table)
      ensures table == if status == Success then old(table)[id := old(table)[id].(jobId := BindId(Some(jobId)))] else old(table)
    {
      if !hasDb {
        return Error;
      }
      status := Error;
      var job := BindId(Some(jobId));
      var param := BindId(Some(id));
      if !execThrows {
        MatchingBound(table, Some(id));
        var changes := |Matching(table, param)|;
        UpdateWhereBound(table, Some(id), (r: ReceiptRow) => r.(jobId := job));
        table := UpdateWhere(table, param, (r: ReceiptRow) => r.(jobId := job));
        status := ChangesStatus(changes);
      }
    }

    /** `DeleteReceipt(id)`: removes the row keyed `id` and no other; a missing or zero `id` gives `NoChanges`. */
    method DeleteReceipt(id: int, execThrows: bool) returns (status: DBStatus)
      modifies this
      ensures status == Error <==> !hasDb || execThrows
      ensures status == Success <==> hasDb && !execThrows && id != 0 && id in old(table)
      ensures table == if status == Success then old(table) - {id} else old(table)
    {
      if !hasDb {
        return Error;
      }
      status := Error;
      var param := BindId(Some(id));
      if !execThrows {
        MatchingBound(table, Some(id));
        DeleteWhereBound(table, Some(id));
        var changes := |Matching(table, param)|;
        table := DeleteWhere(table, param);
        status := ChangesStatus(changes);
      }
    }

    /**
     * `FetchJobReceipts(jobId)`: no handle gives `Error` and no data; an
     * undefined or empty `jobId` runs no query and gives `Success` with an
     * empty array; a query that throws gives `Error` with the empty array;
     * otherwise `Success` with the receipts of the job. Nothing changes.
     */
    method FetchJobReceipts(jobId: Option<string>, queryThrows: bool) returns (status: DBStatus, data: Option<seq<ReceiptRow>>)
      ensures status != NoChanges
      ensures !hasDb ==> status == Error && data == None
      ensures hasDb && !TruthyText(jobId) ==> status == Success && data == Some([])
      ensures hasDb && TruthyText(jobId) && queryThrows ==> status == Error && data == Some([])
      ensures hasDb && TruthyText(jobId) && !queryThrows ==> status == Success && data == Some(JobReceipts(table, jobId.value))
    {
      if !hasDb {
        return Error, None;
      }
      status := Error;
      var rows := new JsArray<ReceiptRow>([]);
      if TruthyText(jobId) {
        if queryThrows {
          return Error, Some(rows.elems);
        }
        var keys := ReceiptKeys(table, jobId.value);
        assert ConvertsUpTo(table, keys, |keys|, RawRow);
        assert Convertible(table, keys, 0, RawRow) == |keys|;
        var ok := PushConverted(table, keys, RawRow, rows);
        assert rows.elems == JobReceipts(table, jobId.value);
      }
      status := Success;
      data := Some(rows.elems);
    }
  }
}
