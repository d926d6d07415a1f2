# jobdb repositories, modelled in Dafny

jobdb is the offline data layer of a field-service app. It keeps jobs,
categories, items, picture references and receipts in an embedded SQLite
database. This project models four of its repositories:

- `ItemDB`
- `CategoryDB`
- `PictureBucketDB`
- `ReceiptBucketDB`

Each repository is a class. Its table is a field `table: map<int, Row>`,
keyed by `_id`, and the methods update that field inside what the source
runs as one exclusive transaction. All repositories draw their identifiers
from one `IdAllocator`, which stands for `BuildUniqueId` and the user
counter table.

What the model covers:

- **The value layer (`Js`, `Storage`).** Optional values are modelled with
  JavaScript truthiness. `0`, `0n`, `""` and `undefined` are falsy, and the
  source's `x ? x.toString() : null` bindings store them as NULL.
  Identifiers cross into SQL as decimal text (`Decimal.ToDecimal`) and come
  back through `BigInt` (`Decimal.ParseBigInt`); `BigInt(null)` throws. SQL
  `=` on an INTEGER column compares integer text by value, and NULL matches
  nothing. Rows come back in ascending `_id` order, the order of a rowid
  scan.
- **Statuses.** An UPDATE or DELETE gives `Success` when it changed rows and
  `NoChanges` when it changed none. Any exception gives `Error`, which is
  also the status a create starts from.
- **Failure inputs.** Whatever the engine or allocator may do is a boolean
  parameter: `allocFails` (the allocator returns its negative sentinel),
  `insertThrows`, `execThrows` and `queryThrows`. The `Error` paths are
  therefore reachable and specified.
- **Caller objects.** `{ value }` boxes and records the code writes `_id`
  into are `Ref<T>`. The arrays that fetches push onto are `JsArray<T>`.
- **Fetch loops.** `Storage.PushConverted` is the loop every fetch runs:
  convert each selected row, push it, and stop at the first row whose
  conversion throws.

Each repository has a specification function for its fetch, such as
`Item.FetchedItems`, and lemmas that connect that function to the other
operations:

- a created row is fetched back, equal in every field up to the
  null mapping;
- a fetch returns exactly the matching rows, once each, in key order.

`Scenario` puts the repositories together. In it, user 42 creates a
category under job 100 and then an item under that category. The two
identifiers differ even though they are in different tables. After the
category is deleted, fetching that category's items still returns the
item, because deletes do not cascade.

## Model

| member | source | states |
|---|---|---|
| JobTrakr.ChangesStatus | src/Item.ts:119-125 | the affected-row count gives `Success` exactly when it is positive, and `NoChanges` exactly when it is zero |
| Decimal.ParseToDecimal | src/Item.ts:202 | `BigInt` of `x.toString()` is `x` for every integer, negative ones included |
| Decimal.ToDecimalInjective | src/Item.ts:62 | two identifiers have the same decimal text exactly when they are equal |
| Storage.BindIdRoundTrip | src/Item.ts:64 | an identifier bound as `x ? x.toString() : null` is NULL exactly when it is falsy, and otherwise reads back through `BigInt` unchanged |
| Storage.KeyEqualsBound | src/Item.ts:148-155 | `WHERE _id = $id` with `id ? id.toString() : null` bound selects the row keyed `id` exactly when `id` is truthy |
| Storage.IntegerEqualsBound | src/Item.ts:184-196 | a stored foreign key equals the bound `c.toString()` exactly when the value it was stored from was truthy and equal to `c` |
| Storage.IntegerEqualsReadsBack | src/Item.ts:203 | a column that matched `c.toString()` reads back through `BigInt` as `c` |
| Storage.InsertAtKey | src/Item.ts:53-68 | inserting at the text of key `k` throws when `k` is already present, and otherwise adds exactly that row |
| Storage.MatchingBound | src/Item.ts:116-119 | the rows `WHERE _id = $_id` counts as changed: the one keyed `id` when `id` is truthy and present, otherwise none |
| Storage.UpdateWhereBound | src/Item.ts:93-117 | an UPDATE keyed by `_id` rewrites the row keyed `id` when it is truthy and present, and leaves every other row alone |
| Storage.DeleteWhereBound | src/Item.ts:148-157 | a DELETE keyed by `_id` removes the row keyed `id` when it is truthy and present, and no other row |
| Storage.PushConverted | dist/pictureBucket.js:127-145 | appends the conversions of the selected rows to the caller's array up to the first row whose conversion throws, keeps the array's prior contents, and reports success exactly when no row threw |
| ScanOrder.SortedKeys | src/Item.ts:199-200 | the rows of a scan are each selected key exactly once, in strictly increasing order |
| DbUtils.IdAllocator.BuildUniqueId | src/Item.ts:48 | the result is a fresh positive identifier that is then recorded as issued to that user, or a negative sentinel that leaves the counter alone; other users' counters never change |
| Item.ItemColumnsStored | src/Item.ts:61-68 | `CategoryId` and `EstPrice` are NULL exactly when falsy, a truthy `CategoryId` reads back unchanged, and `Code`, `ItemName` and `ItemStatus` are stored as given |
| Item.ItemRoundTrip | src/Item.ts:199-209 | a stored item with a truthy `CategoryId` decodes to the item with the allocated `_id`, every field equal |
| Item.ItemKeysDecode | src/Item.ts:196-209 | every selected row decodes without `BigInt` throwing, with its own key and the requested category |
| Item.FetchedItemsExact | src/Item.ts:184-212 | the fetched items are exactly the rows whose `CategoryId` equals the category, one each, in key order, each equal to its row |
| Item.CreatedItemIsFetched | src/Item.ts:53-68 | an item created under a non-zero category is among the items fetched for that category, equal to what was stored |
| Item.ItemCategoryFilter | src/Item.ts:64 | a created row is selected by category `c` exactly when the item's `CategoryId` was truthy and equal to `c` |
| Item.ItemDB.CreateItem | src/Item.ts:30-81 | no handle changes nothing and gives `Error`. Otherwise the allocated value goes into `item._id` and `id.value`, sentinel included. The row is inserted, and the status is `Success`, exactly when that value is above -1, the INSERT does not throw and the key is new. `NoChanges` never occurs. Issued keys stay issued. |
| Item.ItemDB.UpdateItem | src/Item.ts:83-136 | `Error` exactly with no handle or an exception. `Success` exactly when `item._id` is truthy and present, and then only that row's five columns are rewritten. Otherwise `NoChanges` with the table unchanged. |
| Item.ItemDB.DeleteItem | src/Item.ts:138-174 | `Success` exactly when `id` is truthy and present, and then only that row is removed. Otherwise `NoChanges` or `Error` with the table unchanged. |
| Item.ItemDB.FetchAllItems | src/Item.ts:176-223 | `Error` exactly with no handle or a throwing query, and then the array is untouched. Otherwise `Success`, also for zero matches, with the category's items appended after the array's prior contents. |
| Category.CategoryColumnsStored | dist/Category.js:37 | `JobId` and `EstPrice` are NULL exactly when falsy, a truthy `JobId` reads back unchanged, and `Code`, `CategoryName` and `CategoryStatus` are stored as given |
| Category.CategoryRoundTrip | dist/Category.js:130-137 | a stored category with a truthy `JobId` decodes to the category with the allocated `_id`, every field equal |
| Category.CategoryKeysDecode | dist/Category.js:126-137 | every selected row decodes without `BigInt` throwing, with its own key and the requested job |
| Category.FetchedCategoriesExact | dist/Category.js:124-141 | the fetched categories are exactly the rows whose `JobId` equals the job, one each, in key order, each equal to its row |
| Category.CreatedCategoryIsFetched | dist/Category.js:36-38 | a category created under a non-zero job is among the categories fetched for that job |
| Category.CategoryJobFilter | dist/Category.js:37 | a created row is selected by job `j` exactly when the category's `JobId` was truthy and equal to `j` |
| Category.CategoryDB.CreateCategory | dist/Category.js:21-50 | as CreateItem. An INSERT that throws gives `Error` and adds no category row. |
| Category.CategoryDB.UpdateCategory | dist/Category.js:51-85 | a falsy `cat._id` binds NULL: `NoChanges`, table unchanged. On an existing id, `Success` with only `JobId`, `Code`, `CategoryName`, `EstPrice` and `CategoryStatus` of that row rewritten. |
| Category.CategoryDB.DeleteCategory | dist/Category.js:86-117 | removes only the category row with that id, and no item row is touched (items live in another object). A missing id gives `NoChanges`. |
| Category.CategoryDB.FetchAllCategories | dist/Category.js:118-153 | appends exactly the job's categories after the prior contents. `Success` also when empty. `Error` with the array untouched on no handle or a throwing query. |
| PictureBucket.PictureColumnsStored | dist/pictureBucket.js:40 | falsy `UserId`, `DeviceId`, `JobId`, `DateAdded`, `Longitude`, `Latitude` and `PictureDate` are NULL exactly when falsy. Truthy identifiers read back unchanged. `AlbumId` and `AssetId` are stored as given. |
| PictureBucket.PictureRoundTrip | dist/pictureBucket.js:130-141 | with NULL identifiers read as undefined, a stored picture with a truthy `JobId` is readable and decodes to the picture with the allocated `_id`, up to the null mapping |
| PictureBucket.AsWrittenRejectsStoredPicture | dist/pictureBucket.js:133-134 | as written, the `BigInt` conversions throw on every stored picture whose `DeviceId` or `UserId` was falsy |
| PictureBucket.PictureColumnsReadable | dist/pictureBucket.js:40 | every row InsertPicture writes holds NULL or integer text in `DeviceId` and `userId`, so the corrected fetch can read it |
| PictureBucket.PictureJobFilter | dist/pictureBucket.js:124-126 | a picture row is selected by job `j` exactly when its `JobId` was truthy and equal to `j` |
| PictureBucket.PictureKeysDecode | dist/pictureBucket.js:126-141 | on readable rows, no selected row throws, and each decodes with its own key and the requested job |
| PictureBucket.SelectedPictureDecodes | dist/pictureBucket.js:131-132 | a readable row selected by job `j` decodes with `_id` equal to its key and `JobId` equal to `j` |
| PictureBucket.CreatedPictureIsFetched | dist/pictureBucket.js:39-41 | with NULL identifiers read as undefined, an inserted picture with a non-zero `JobId` is among the pictures fetched for that job, and no picture of the job throws |
| PictureBucket.AsWrittenFetchStops | dist/pictureBucket.js:128-145 | as written, one picture of the job stored without a truthy `DeviceId` or `UserId` stops the fetch before its end, so it returns `Error` |
| PictureBucket.PictureBucketDB.InsertPicture | dist/pictureBucket.js:24-53 | as CreateItem, for `pict._id`, `id.value` and the ten columns of line 40 |
| PictureBucket.PictureBucketDB.UpdateJobId | dist/pictureBucket.js:54-85 | `Success` exactly when a row with `_id = id` exists, and then only that row's `JobId` changes (NULL for a falsy `jobId`). Otherwise `NoChanges` or `Error`, table unchanged. |
| PictureBucket.PictureBucketDB.DeletePicture | dist/pictureBucket.js:86-117 | removes only the matching row. A missing id gives `NoChanges`. |
| PictureBucket.PictureBucketDB.FetchAllPicturesAsWritten | dist/pictureBucket.js:118-156 | pushes the job's pictures up to the first one whose `BigInt` conversion throws, keeping what was pushed before it. `Success` exactly when none throws. |
| PictureBucket.PictureBucketDB.FetchAllPictures | dist/pictureBucket.js:118-156 | the same with NULL identifiers read as undefined. On readable rows, which every InsertPicture row is, it gives `Success`, also when empty, with all the job's pictures appended. |
| ReceiptBucket.ReceiptColumnsStored | src/receiptBucket.ts:89-101 | the user is stored as its text. An empty job text, a falsy device and falsy `Vendor`, `Description`, `Notes`, `CategoryId`, `ItemId`, `AssetId`, `AlbumId` and `PictureUri` are NULL exactly when falsy. Truthy values are stored as given or read back unchanged. In the model, `Amount` is never stored. |
| ReceiptBucket.JobReceiptsExact | src/receiptBucket.ts:209-235 | the receipts of a job are exactly the rows whose `JobId` equals the job text as an integer, each returned as stored, once, in key order |
| ReceiptBucket.InsertedReceiptIsFetched | src/receiptBucket.ts:92 | a receipt inserted under a non-empty job text is among that job's receipts |
| ReceiptBucket.JoblessReceiptIsNeverFetched | src/receiptBucket.ts:92 | a receipt inserted with an empty job text is returned for no job |
| ReceiptBucket.MovedReceiptIsFetched | src/receiptBucket.ts:128-138 | after UpdateJobId moves a receipt to a non-zero job, that job's receipts include it |
| ReceiptBucket.ReceiptBucketDB.InsertReceipt | src/receiptBucket.ts:40-116 | no handle or a falsy user gives `Error` and `"0"`, with nothing allocated or inserted. Otherwise `id` is the decimal text of the allocated value, sentinel included. `Success` exactly when the value is above -1, the INSERT does not throw and the key is new; the row is inserted only then. |
| ReceiptBucket.ReceiptBucketDB.UpdateJobId | src/receiptBucket.ts:118-157 | changes only the `JobId` of the row with that `_id`. `Success` exactly when that row exists, else `NoChanges`. `Error` on an exception. |
| ReceiptBucket.ReceiptBucketDB.DeleteReceipt | src/receiptBucket.ts:159-195 | removes only the matching row, with the same three-way status |
| ReceiptBucket.ReceiptBucketDB.FetchJobReceipts | src/receiptBucket.ts:197-247 | no handle gives `Error` with no data. An undefined or empty job gives `Success` with an empty array and runs no query. A throwing query gives `Error` with the empty array. Otherwise `Success` with exactly the job's receipts. |
| Scenario.CategoryThenItem | src/Item.ts:30-81 | user 42: a category under job 100, then an item under it, both `Success` with distinct positive ids. Deleting the category succeeds, and fetching the category's items still returns the item. |
| Scenario.CreateItemBesideCategories | src/Item.ts:48-53 | with a shared allocator and tables holding only issued keys, a created item's id is in no category row, and both tables keep holding only issued keys |

## Left out

- Table creation (`CreateItemTable`, `CreateReceiptBucketTable`, `CreatePictureBucketTable` and the others) is not modelled: it is static DDL that always returns `Success`. The DDL of `receiptbucket` and `picturebucket` also lacks its closing parenthesis.
- Logging and the unused `MediaLibrary` import are not modelled. Neither is the `Date` that InsertReceipt creates and never uses.
- Statement preparation is not modelled. It runs before the `try`, so a failure there rejects the returned promise instead of giving `Error`.
- `finalizeAsync` is not modelled. It is started on every path and never awaited.
- Asynchrony and locking are not modelled: each transaction is one atomic method call, and calls never interleave.
- An INSERT that throws is caught inside the transaction body, so the transaction commits. The counter stays advanced, and the caller's record keeps the reserved id.
- `DbUtils.IdAllocator.BuildUniqueId`: the source of `dbutils` is not shown. `DbUtils.IdAllocator` is a stand-in with a per-user counter, and its contract is all the repositories rely on: a fresh identifier, or a negative sentinel. Its failure is the input `allocFails`.
- ReceiptBucket.ReceiptBucketDB.InsertReceipt: the INSERT names 12 columns but the code passes 13 values, `Amount` among them. The model binds each value to the column of its name and leaves `Amount` NULL. Whether the engine rejects the extra value or shifts the values by position is engine behaviour this model does not capture; a rejection is covered by `insertThrows`.
- Item.ItemDB.FetchAllItems and Category.CategoryDB.FetchAllCategories: their SELECT lists columns in lower case (`categoryid`, `jobid`, `code`, …) while the loop reads `row.CategoryId`, `row.JobId`, `row.Code`. The model takes the row's properties to be the columns. Whether the engine returns the names as written is left out.
- SQLite type affinity is modelled only as far as integer text comparing by value, with NULL matching nothing. Other affinity conversions are not modelled, and neither are `BigInt`'s whitespace, hexadecimal and sign-prefix forms.
- Identifiers are unbounded integers. The 64-bit range of the counter and of SQLite integers is not modelled.
- Numbers and dates are opaque values; only their truthiness matters. The model does not capture `toString` on `EstPrice`, `Longitude`, `Latitude` and the dates.
- `undefined` and `null` are both `None`.
- The affected-row count of UPDATE is the number of rows matched, which is how SQLite counts it, also when no value differs.
- UpdateJobId in both bucket repositories writes the `jobId` column through its lower-case name. SQLite column names are case-insensitive, so this is the `JobId` column.

## Findings

| source | as written | input that shows it | evidently intended | confidence | as-written member | corrected member |
|---|---|---|---|---|---|---|
| dist/pictureBucket.js:133-134 | FetchAllPictures converts `row.DeviceId` and `row.userId` with `BigInt`. InsertPicture (line 40) stores a falsy `DeviceId` or `UserId` as NULL, and `BigInt(null)` throws, so the fetch returns `Error` and leaves the earlier pictures pushed. | InsertPicture of a picture with `JobId: 7n` and no `DeviceId`, then FetchAllPictures(7n) | NULL identifiers read back as undefined, and the fetch returns the picture with `Success` | medium, not executed | PictureBucket.AsWrittenFetchStops | PictureBucket.CreatedPictureIsFetched |
