/**
 * `CategoryDB`: the repository of the `categories` table. Every category
 * belongs to a job through its `JobId`; categories are listed per job.
 */
module Category {
  import opened Js
  import opened JobTrakr
  import opened Decimal
  import opened Storage
  import opened ScanOrder
  import opened DbUtils

  /** The category record callers pass in and get back. */
  datatype CategoryData = CategoryData(
    id: Option<int>,
    jobId: Option<int>,
    code: Option<string>,
    categoryName: Option<string>,
    estPrice: Option<JsNumber>,
    categoryStatus: Option<string>)

  /** A row of the `categories` table apart from its `_id` key. */
  datatype CategoryRow = CategoryRow(
    jobId: Option<string>,
    code: Option<string>,
    categoryName: Option<string>,
    estPrice: Option<JsNumber>,
    categoryStatus: Option<string>)

  /** The values CreateCategory and UpdateCategory bind for the columns other than `_id`. */
  function CategoryColumns(cat: CategoryData): CategoryRow
  {
    CategoryRow(BindId(cat.jobId), cat.code, cat.categoryName, BindNumber(cat.estPrice), cat.categoryStatus)
  }

  /**
   * Falsy `JobId` (so also `0n`) and falsy `EstPrice` (so also `0`)
   * are stored as NULL; a truthy `JobId` is stored as text that reads
   * back as the same bigint; `Code`, `CategoryName` and `CategoryStatus`
   * are stored as given.
   */
  lemma CategoryColumnsStored(cat: CategoryData)
    ensures CategoryColumns(cat).jobId.None? <==> !TruthyInt(cat.jobId)
    ensures TruthyInt(cat.jobId) ==> JsBigInt(CategoryColumns(cat).jobId) == cat.jobId
    ensures CategoryColumns(cat).estPrice == if TruthyNumber(cat.estPrice) then cat.estPrice else None
    ensures CategoryColumns(cat).code == cat.code
    ensures CategoryColumns(cat).categoryName == cat.categoryName
    ensures CategoryColumns(cat).categoryStatus == cat.categoryStatus
  {
    BindIdRoundTrip(cat.jobId);
  }

  /** The object FetchAllCategories pushes for the row keyed `key`; `None` when one of its `BigInt(...)` conversions throws. */
  function DecodeCategory(key: int, row: CategoryRow): Option<CategoryData>
  {
    match (JsBigInt(Some(ToDecimal(key))), JsBigInt(row.jobId))
    case (Some(id), Some(jobId)) =>
      Some(CategoryData(Some(id), Some(jobId), row.code, row.categoryName, row.estPrice, row.categoryStatus))
    case _ => None
  }

  /** A category as it reads back once stored under `key`: the allocated id, and a falsy `EstPrice` read as null. */
  function StoredCategory(key: int, cat: CategoryData): CategoryData
  {
    cat.(id := Some(key), estPrice := BindNumber(cat.estPrice))
  }

  /** A category stored under `key` with a truthy `JobId` reads back equal in every field, apart from the null mapping. */
  lemma CategoryRoundTrip(key: int, cat: CategoryData)
    requires TruthyInt(cat.jobId)
    ensures DecodeCategory(key, CategoryColumns(cat)) == Some(StoredCategory(key, cat))
  {
    ParseToDecimal(key);
    BindIdRoundTrip(cat.jobId);
  }

  /** The keys of the rows `WHERE JobId = $JobId` selects with `jobId.toString()` bound, in scan order. */
  function CategoryKeys(t: map<int, CategoryRow>, jobId: int): seq<int>
  {
    SortedKeys(set k | k in t && IntegerEquals(t[k].jobId, Some(ToDecimal(jobId))))
  }

  /** Neither `BigInt(row._id)` nor `BigInt(row.JobId)` throws on a row the job filter selected. */
  lemma CategoryKeysDecode(t: map<int, CategoryRow>, jobId: int)
    ensures forall i :: 0 <= i < |CategoryKeys(t, jobId)| ==>
      var k := CategoryKeys(t, jobId)[i];
      k in t && DecodeCategory(k, t[k]) == Some(CategoryData(Some(k), Some(jobId), t[k].code, t[k].categoryName, t[k].estPrice, t[k].categoryStatus))
  {
    var keys := CategoryKeys(t, jobId);
    forall i | 0 <= i < |keys|
      ensures keys[i] in t && DecodeCategory(keys[i], t[keys[i]]) == Some(CategoryData(Some(keys[i]), Some(jobId), t[keys[i]].code, t[keys[i]].categoryName, t[keys[i]].estPrice, t[keys[i]].categoryStatus))
    {
      var k := keys[i];
      assert k in keys;
      ParseToDecimal(k);
      IntegerEqualsReadsBack(t[k].jobId, jobId);
    }
  }

  /** What FetchAllCategories appends for `jobId` when the query does not throw. */
  function FetchedCategories(t: map<int, CategoryRow>, jobId: int): seq<CategoryData>
  {
    CategoryKeysDecode(t, jobId);
    Collect(t, CategoryKeys(t, jobId), |CategoryKeys(t, jobId)|, DecodeCategory)
  }

  /**
   * FetchAllCategories returns exactly the rows whose `JobId` equals
   * `jobId`, each once, in ascending `_id` order, with `_id` and
   * `JobId` read back as bigints and the other columns as stored.
   */
  lemma FetchedCategoriesExact(t: map<int, CategoryRow>, jobId: int)
    ensures |FetchedCategories(t, jobId)| == |CategoryKeys(t, jobId)|
    ensures forall k :: k in CategoryKeys(t, jobId) <==> k in t && IntegerEquals(t[k].jobId, Some(ToDecimal(jobId)))
    ensures forall i, j :: 0 <= i < j < |CategoryKeys(t, jobId)| ==> CategoryKeys(t, jobId)[i] < CategoryKeys(t, jobId)[j]
    ensures forall i :: 0 <= i < |FetchedCategories(t, jobId)| ==>
      var k := CategoryKeys(t, jobId)[i];
      k in t && FetchedCategories(t, jobId)[i] == CategoryData(Some(k), Some(jobId), t[k].code, t[k].categoryName, t[k].estPrice, t[k].categoryStatus)
  {
    CategoryKeysDecode(t, jobId);
  }

  /**
   * A created category is found again by its job: a category stored under
   * `key` with `JobId == jobId` (non-zero) is among the categories
   * FetchAllCategories(jobId) returns, equal to what was stored. With a
   * falsy `JobId` the row is stored with NULL and no job finds it.
   */
  lemma CreatedCategoryIsFetched(t: map<int, CategoryRow>, key: int, cat: CategoryData, jobId: int)
    requires cat.jobId == Some(jobId) && jobId != 0
    ensures StoredCategory(key, cat) in FetchedCategories(t[key := CategoryColumns(cat)], jobId)
  {
    var t' := t[key := CategoryColumns(cat)];
    IntegerEqualsBound(cat.jobId, jobId);
    FetchedCategoriesExact(t', jobId);
    var keys := CategoryKeys(t', jobId);
    assert key in keys;
    var i :| 0 <= i < |keys| && keys[i] == key;
    CategoryRoundTrip(key, cat);
    assert FetchedCategories(t', jobId)[i] == StoredCategory(key, cat);
  }

  /** A category row is selected by job `c` exactly when the category's `JobId` was truthy and equal to `c`. */
  lemma CategoryJobFilter(cat: CategoryData, c: int)
    ensures IntegerEquals(CategoryColumns(cat).jobId, Some(ToDecimal(c))) <==> TruthyInt(cat.jobId) && cat.jobId.value == c
  {
    IntegerEqualsBound(cat.jobId, c);
  }

  class CategoryDB {
    /** Whether `_db` holds an open database handle. */
    const hasDb: bool
    /** `_userId`, the namespace identifiers are allocated in. */
    const userId: int
    /** The allocator every repository of the database shares. */
    const alloc: IdAllocator
    /** The `categories` table, keyed by `_id`. */
    var table: map<int, CategoryRow>

    constructor (hasDb: bool, custId: int, alloc: IdAllocator, rows: map<int, CategoryRow>)
      ensures this.hasDb == hasDb && userId == custId && this.alloc == alloc && table == rows
    {
      this.hasDb := hasDb;
      userId := custId;
      this.alloc := alloc;
      table := rows;
    }

    /** Every key in the table is an identifier the allocator issued to this user. */
    ghost predicate KeysIssued()
      reads this, alloc
    {
      table.Keys <= alloc.Issued(userId)
    }

    /**
     * `CreateCategory(id, cat)`, one exclusive transaction. `allocFails` makes
     * the allocator return its sentinel; `insertThrows` makes the INSERT
     * throw. The exception is caught inside the transaction, which still
     * commits: the reserved identifier stays reserved and in the caller's
     * record, and the status is `Error`.
     */
    method CreateCategory(id: Ref<int>, cat: Ref<CategoryData>, allocFails: bool, insertThrows: bool) returns (status: DBStatus)
      modifies this, alloc, id, cat
      ensures !hasDb ==> unchanged(alloc, id, cat)
      ensures hasDb ==> cat.value == old(cat.value).(id := Some(id.value))
      ensures hasDb ==> (id.value < 0 <==> allocFails)
      ensures hasDb && allocFails ==> alloc.nextIds == old(alloc.nextIds)
      ensures hasDb && !allocFails ==> id.value !in old(alloc.Issued(userId))
      ensures hasDb && !allocFails ==> alloc.Issued(userId) == old(alloc.Issued(userId)) + {id.value}
      ensures forall u :: u != userId ==> alloc.Issued(u) == old(alloc.Issued(u))
      ensures status == Success <==> hasDb && id.value > -1 && !insertThrows && id.value !in old(table)
      ensures status != NoChanges
      ensures table == if status == Success then old(table)[id.value := CategoryColumns(old(cat.value))] else old(table)
      ensures old(KeysIssued()) ==> KeysIssued()
    {
      if !hasDb {
        return Error;
      }
      status := Error;
      var uid := alloc.BuildUniqueId(userId, allocFails);
      cat.value := cat.value.(id := Some(uid));
      id.value := uid;
      if uid > -1 {
        var inserted := Insert(table, ToDecimal(uid), CategoryColumns(cat.value));
        InsertAtKey(table, uid, CategoryColumns(cat.value));
        if insertThrows || inserted.None? {
          status := Error;
        } else {
          table := inserted.value;
          status := Success;
        }
      }
    }

    /**
     * `UpdateCategory(cat)`: overwrites the five columns of the row keyed
     * `cat._id`. The status comes from the affected-row count, so a falsy
     * or absent `_id` gives `NoChanges` and leaves the table as it was.
     */
    method UpdateCategory(cat: CategoryData, execThrows: bool) returns (status: DBStatus)
      modifies this
      ensures status == Error <==> !hasDb || execThrows
      ensures status == Success <==> hasDb && !execThrows && TruthyInt(cat.id) && cat.id.value in old(table)
      ensures table == if status == Success then old(table)[cat.id.value := CategoryColumns(cat)] else old(table)
    {
      if !hasDb {
        return Error;
      }
      status := Error;
      var param := BindId(cat.id);
      if !execThrows {
        MatchingBound(table, cat.id);
        var changes := |Matching(table, param)|;
        var row := CategoryColumns(cat);
        UpdateWhereBound(table, cat.id, _ => row);
        table := UpdateWhere(table, param, _ => row);
        status := ChangesStatus(changes);
      }
    }

    /** `DeleteCategory(id)`: removes the row keyed `id` and no other; a missing or zero `id` gives `NoChanges`. */
    method DeleteCategory(id: int, execThrows: bool) returns (status: DBStatus)
      modifies this
      ensures status == Error <==> !hasDb || execThrows
      ensures status == Success <==> hasDb && !execThrows && id != 0 && id in old(table)
      ensures table == if status == Success then old(table) - {id} else old(table)
    {
      if !hasDb {
        return Error;
      }
      status := Error;
      var param := BindId(Some(id));
      if !execThrows {
        MatchingBound(table, Some(id));
        DeleteWhereBound(table, Some(id));
        var changes := |Matching(table, param)|;
        table := DeleteWhere(table, param);
        status := ChangesStatus(changes);
      }
    }

    /**
     * `FetchAllCategories(jobId, categories)`: appends to the caller's array
     * the categories of the job and keeps what it held. No match is still a
     * `Success`; only a query that throws is an `Error`.
     */
    method FetchAllCategories(jobId: int, categories: JsArray<CategoryData>, queryThrows: bool) returns (status: DBStatus)
      modifies categories
      ensures status == Error <==> !hasDb || queryThrows
      ensures status != NoChanges
      ensures categories.elems == if status == Success then old(categories.elems) + FetchedCategories(table, jobId) else old(categories.elems)
    {
      if !hasDb {
        return Error;
      }
      status := Error;
      if !queryThrows {
        var keys := CategoryKeys(table, jobId);
        CategoryKeysDecode(table, jobId);
        var ok := PushConverted(table, keys, DecodeCategory, categories);
        status := if ok then Success else Error;
      }
    }
  }
}
