/**
 * `ItemDB`: the repository of the `items` table. Every item belongs to a
 * category through its `CategoryId`; items are listed per category.
 */
module Item {
  import opened Js
  import opened JobTrakr
  import opened Decimal
  import opened Storage
  import opened ScanOrder
  import opened DbUtils

  /** `JobCategoryItemData`, the record callers pass in and get back. */
  datatype ItemData = ItemData(
    id: Option<int>,
    categoryId: Option<int>,
    code: Option<string>,
    itemName: Option<string>,
    estPrice: Option<JsNumber>,
    itemStatus: Option<string>)

  /** A row of the `items` table apart from its `_id` key. */
  datatype ItemRow = ItemRow(
    categoryId: Option<string>,
    code: Option<string>,
    itemName: Option<string>,
    estPrice: Option<JsNumber>,
    itemStatus: Option<string>)

  /** The values CreateItem and UpdateItem bind for the columns other than `_id`. */
  function ItemColumns(item: ItemData): ItemRow
  {
    ItemRow(BindId(item.categoryId), item.code, item.itemName, BindNumber(item.estPrice), item.itemStatus)
  }

  /**
   * Falsy `CategoryId` (so also `0n`) and falsy `EstPrice` (so also `0`)
   * are stored as NULL; a truthy `CategoryId` is stored as text that reads
   * back as the same bigint; `Code`, `ItemName` and `ItemStatus` are stored
   * as given.
   */
  lemma ItemColumnsStored(item: ItemData)
    ensures ItemColumns(item).categoryId.None? <==> !TruthyInt(item.categoryId)
    ensures TruthyInt(item.categoryId) ==> JsBigInt(ItemColumns(item).categoryId) == item.categoryId
    ensures ItemColumns(item).estPrice == if TruthyNumber(item.estPrice) then item.estPrice else None
    ensures ItemColumns(item).code == item.code
    ensures ItemColumns(item).itemName == item.itemName
    ensures ItemColumns(item).itemStatus == item.itemStatus
  {
    BindIdRoundTrip(item.categoryId);
  }

  /** The object FetchAllItems pushes for the row keyed `key`; `None` when one of its `BigInt(...)` conversions throws. */
  function DecodeItem(key: int, row: ItemRow): Option<ItemData>
  {
    match (JsBigInt(Some(ToDecimal(key))), JsBigInt(row.categoryId))
    case (Some(id), Some(categoryId)) =>
      Some(ItemData(Some(id), Some(categoryId), row.code, row.itemName, row.estPrice, row.itemStatus))
    case _ => None
  }

  /** An item as it reads back once stored under `key`: the allocated id, and a falsy `EstPrice` read as null. */
  function StoredItem(key: int, item: ItemData): ItemData
  {
    item.(id := Some(key), estPrice := BindNumber(item.estPrice))
  }

  /** An item stored under `key` with a truthy `CategoryId` reads back equal in every field, apart from the null mapping. */
  lemma ItemRoundTrip(key: int, item: ItemData)
    requires TruthyInt(item.categoryId)
    ensures DecodeItem(key, ItemColumns(item)) == Some(StoredItem(key, item))
  {
    ParseToDecimal(key);
    BindIdRoundTrip(item.categoryId);
  }

  /** The keys of the rows `WHERE CategoryId = $CategoryId` selects with `categoryId.toString()` bound, in scan order. */
  function ItemKeys(t: map<int, ItemRow>, categoryId: int): seq<int>
  {
    SortedKeys(set k | k in t && IntegerEquals(t[k].categoryId, Some(ToDecimal(categoryId))))
  }

  /** Neither `BigInt(row._id)` nor `BigInt(row.CategoryId)` throws on a row the category filter selected. */
  lemma ItemKeysDecode(t: map<int, ItemRow>, categoryId: int)
    ensures forall i :: 0 <= i < |ItemKeys(t, categoryId)| ==>
      var k := ItemKeys(t, categoryId)[i];
      k in t && DecodeItem(k, t[k]) == Some(ItemData(Some(k), Some(categoryId), t[k].code, t[k].itemName, t[k].estPrice, t[k].itemStatus))
  {
    var keys := ItemKeys(t, categoryId);
    forall i | 0 <= i < |keys|
      ensures keys[i] in t && DecodeItem(keys[i], t[keys[i]]) == Some(ItemData(Some(keys[i]), Some(categoryId), t[keys[i]].code, t[keys[i]].itemName, t[keys[i]].estPrice, t[keys[i]].itemStatus))
    {
      var k := keys[i];
      assert k in keys;
      ParseToDecimal(k);
      IntegerEqualsReadsBack(t[k].categoryId, categoryId);
    }
  }

  /** What FetchAllItems appends for `categoryId` when the query does not throw. */
  function FetchedItems(t: map<int, ItemRow>, categoryId: int): seq<ItemData>
  {
    ItemKeysDecode(t, categoryId);
    Collect(t, ItemKeys(t, categoryId), |ItemKeys(t, categoryId)|, DecodeItem)
  }

  /**
   * FetchAllItems returns exactly the rows whose `CategoryId` equals
   * `categoryId`, each once, in ascending `_id` order, with `_id` and
   * `CategoryId` read back as bigints and the other columns as stored.
   */
  lemma FetchedItemsExact(t: map<int, ItemRow>, categoryId: int)
    ensures |FetchedItems(t, categoryId)| == |ItemKeys(t, categoryId)|
    ensures forall k :: k in ItemKeys(t, categoryId) <==> k in t && IntegerEquals(t[k].categoryId, Some(ToDecimal(categoryId)))
    ensures forall i, j :: 0 <= i < j < |ItemKeys(t, categoryId)| ==> ItemKeys(t, categoryId)[i] < ItemKeys(t, categoryId)[j]
    ensures forall i :: 0 <= i < |FetchedItems(t, categoryId)| ==>
      var k := ItemKeys(t, categoryId)[i];
      k in t && FetchedItems(t, categoryId)[i] == ItemData(Some(k), Some(categoryId), t[k].code, t[k].itemName, t[k].estPrice, t[k].itemStatus)
  {
    ItemKeysDecode(t, categoryId);
  }

  /**
   * A created item is found again by its category: an item stored under
   * `key` with `CategoryId == categoryId` (non-zero) is among the items
   * FetchAllItems(categoryId) returns, equal to what was stored. With a
   * falsy `CategoryId` the row is stored with NULL and no category finds it.
   */
  lemma CreatedItemIsFetched(t: map<int, ItemRow>, key: int, item: ItemData, categoryId: int)
    requires item.categoryId == Some(categoryId) && categoryId != 0
    ensures StoredItem(key, item) in FetchedItems(t[key := ItemColumns(item)], categoryId)
  {
    var t' := t[key := ItemColumns(item)];
    IntegerEqualsBound(item.categoryId, categoryId);
    FetchedItemsExact(t', categoryId);
    var keys := ItemKeys(t', categoryId);
    assert key in keys;
    var i :| 0 <= i < |keys| && keys[i] == key;
    ItemRoundTrip(key, item);
    assert FetchedItems(t', categoryId)[i] == StoredItem(key, item);
  }

  /** An item row is selected by category `c` exactly when the item's `CategoryId` was truthy and equal to `c`. */
  lemma ItemCategoryFilter(item: ItemData, c: int)
    ensures IntegerEquals(ItemColumns(item).categoryId, Some(ToDecimal(c))) <==> TruthyInt(item.categoryId) && item.categoryId.value == c
  {
    IntegerEqualsBound(item.categoryId, c);
  }

  class ItemDB {
    /** Whether `_db` holds an open database handle. */
    const hasDb: bool
    /** `_userId`, the namespace identifiers are allocated in. */
    const userId: int
    /** The allocator every repository of the database shares. */
    const alloc: IdAllocator
    /** The `items` table, keyed by `_id`. */
    var table: map<int, ItemRow>

    constructor (hasDb: bool, custId: int, alloc: IdAllocator, rows: map<int, ItemRow>)
      ensures this.hasDb == hasDb && userId == custId && this.alloc == alloc && table == rows
    {
      this.hasDb := hasDb;
      userId := custId;
      this.alloc := alloc;
      table := rows;
    }

    /** Every key in the table is an identifier the allocator issued to this user. */
    ghost predicate KeysIssued()
      reads this, alloc
    {
      table.Keys <= alloc.Issued(userId)
    }

    /**
     * `CreateItem(id, item)`, one exclusive transaction. `allocFails` makes
     * the allocator return its sentinel; `insertThrows` makes the INSERT
     * throw. The exception is caught inside the transaction, which still
     * commits: the reserved identifier stays reserved and in the caller's
     * record, and the status is `Error`.
     */
    method CreateItem(id: Ref<int>, item: Ref<ItemData>, allocFails: bool, insertThrows: bool) returns (status: DBStatus)
      modifies this, alloc, id, item
      ensures !hasDb ==> unchanged(alloc, id, item)
      ensures hasDb ==> item.value == old(item.value).(id := Some(id.value))
      ensures hasDb ==> (id.value < 0 <==> allocFails)
      ensures hasDb && allocFails ==> alloc.nextIds == old(alloc.nextIds)
      ensures hasDb && !allocFails ==> id.value !in old(alloc.Issued(userId))
      ensures hasDb && !allocFails ==> alloc.Issued(userId) == old(alloc.Issued(userId)) + {id.value}
      ensures forall u :: u != userId ==> alloc.Issued(u) == old(alloc.Issued(u))
      ensures status == Success <==> hasDb && id.value > -1 && !insertThrows && id.value !in old(table)
      ensures status != NoChanges
      ensures table == if status == Success then old(table)[id.value := ItemColumns(old(item.value))] else old(table)
      ensures old(KeysIssued()) ==> KeysIssued()
    {
      if !hasDb {
        return Error;
      }
      status := Error;
      var uid := alloc.BuildUniqueId(userId, allocFails);
      item.value := item.value.(id := Some(uid));
      id.value := uid;
      if uid > -1 {
        var inserted := Insert(table, ToDecimal(uid), ItemColumns(item.value));
        InsertAtKey(table, uid, ItemColumns(item.value));
        if insertThrows || inserted.None? {
          status := Error;
        } else {
          table := inserted.value;
          status := Success;
        }
      }
    }

    /**
     * `UpdateItem(item)`: overwrites the five columns of the row keyed
     * `item._id`. The status comes from the affected-row count, so a falsy
     * or absent `_id` gives `NoChanges` and leaves the table as it was.
     */
    method UpdateItem(item: ItemData, execThrows: bool) returns (status: DBStatus)
      modifies this
      ensures status == Error <==> !hasDb || execThrows
      ensures status == Success <==> hasDb && !execThrows && TruthyInt(item.id) && item.id.value in old(table)
      ensures table == if status == Success then old(table)[item.id.value := ItemColumns(item)] else old(table)
    {
      if !hasDb {
        return Error;
      }
      status := Error;
      var param := BindId(item.id);
      if !execThrows {
        MatchingBound(table, item.id);
        var changes := |Matching(table, param)|;
        var row := ItemColumns(item);
        UpdateWhereBound(table, item.id, _ => row);
        table := UpdateWhere(table, param, _ => row);
        status := ChangesStatus(changes);
      }
    }

    /** `DeleteItem(id)`: removes the row keyed `id` and no other; a missing or zero `id` gives `NoChanges`. */
    method DeleteItem(id: int, execThrows: bool) returns (status: DBStatus)
      modifies this
      ensures status == Error <==> !hasDb || execThrows
      ensures status == Success <==> hasDb && !execThrows && id != 0 && id in old(table)
      ensures table == if status == Success then old(table) - {id} else old(table)
    {
      if !hasDb {
        return Error;
      }
      status := Error;
      var param := BindId(Some(id));
      if !execThrows {
        MatchingBound(table, Some(id));
        DeleteWhereBound(table, Some(id));
        var changes := |Matching(table, param)|;
        table := DeleteWhere(table, param);
        status := ChangesStatus(changes);
      }
    }

    /**
     * `FetchAllItems(categoryId, items)`: appends to the caller's array the
     * items of the category and keeps what it held. No match is still a
     * `Success`; only a query that throws is an `Error`.
     */
    method FetchAllItems(categoryId: int, items: JsArray<ItemData>, queryThrows: bool) returns (status: DBStatus)
      modifies items
      ensures status == Error <==> !hasDb || queryThrows
      ensures status != NoChanges
      ensures items.elems == if status == Success then old(items.elems) + FetchedItems(table, categoryId) else old(items.elems)
    {
      if !hasDb {
        return Error;
      }
      status := Error;
      if !queryThrows {
        var keys := ItemKeys(table, categoryId);
        ItemKeysDecode(table, categoryId);
        var ok := PushConverted(table, keys, DecodeItem, items);
        status := if ok then Success else Error;
      }
    }
  }
}
