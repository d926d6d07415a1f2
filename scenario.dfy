/**
 * The repositories used together, as the application does: one user's
 * category and item draw identifiers from the shared allocator, and
 * deleting a category leaves its items in place.
 */
module Scenario {
  import opened Js
  import opened JobTrakr
  import opened DbUtils
  import opened Item
  import opened Category

  /**
   * User 42 creates category "C1" under job 100, then an item under that
   * category, then deletes the category and fetches the items of the
   * deleted category. Every step succeeds; the two identifiers differ
   * although they live in different tables; and the item is still returned,
   * because deleting a category does not cascade.
   */
  method CategoryThenItem() returns (created: DBStatus, added: DBStatus, deleted: DBStatus, listed: DBStatus,
                                     catId: int, itemId: int, fetched: seq<ItemData>)
    ensures created == Success && added == Success && deleted == Success && listed == Success
    ensures catId > 0 && itemId > 0 && catId != itemId
    ensures ItemData(Some(itemId), Some(catId), Some("I1"), None, None, None) in fetched
  {
    var alloc := new IdAllocator();
    var categories := new CategoryDB(true, 42, alloc, map[]);
    var items := new ItemDB(true, 42, alloc, map[]);

    var catRef := new Ref(0);
    var cat := new Ref(CategoryData(None, Some(100), Some("C1"), None, None, None));
    created := categories.CreateCategory(catRef, cat, false, false);
    catId := catRef.value;

    var itemRef := new Ref(0);
    var item := new Ref(ItemData(None, Some(catId), Some("I1"), None, None, None));
    ghost var given := item.value;
    added := items.CreateItem(itemRef, item, false, false);
    itemId := itemRef.value;
    assert catId in alloc.Issued(42);

    deleted := categories.DeleteCategory(catId, false);

    var out := new JsArray<ItemData>([]);
    listed := items.FetchAllItems(catId, out, false);
    fetched := out.elems;
    CreatedItemIsFetched(map[], itemId, given, catId);
    assert StoredItem(itemId, given) == ItemData(Some(itemId), Some(catId), Some("I1"), None, None, None);
  }

  /**
   * Identifiers are unique across tables: when both repositories of one
   * user share the allocator and hold only keys it issued, a successful
   * CreateItem stores the item under a key that no category row has, and
   * both tables still hold only issued keys afterwards.
   */
  method CreateItemBesideCategories(items: ItemDB, categories: CategoryDB, id: Ref<int>, item: Ref<ItemData>,
                                    allocFails: bool, insertThrows: bool) returns (status: DBStatus)
    requires items.alloc == categories.alloc && items.userId == categories.userId
    requires items.KeysIssued() && categories.KeysIssued()
    modifies items, items.alloc, id, item
    ensures status == Success ==> id.value in items.table && id.value !in categories.table
    ensures items.KeysIssued() && categories.KeysIssued()
  {
    ghost var before := items.alloc.Issued(items.userId);
    status := items.CreateItem(id, item, allocFails, insertThrows);
    if items.hasDb && allocFails {
      assert items.alloc.NextId(items.userId) == old(items.alloc.NextId(items.userId));
    }
    assert before <= items.alloc.Issued(items.userId);
  }
}
