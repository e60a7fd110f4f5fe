# Retail point-of-sale core, modelled in Dafny

The system is a desktop point-of-sale application. A SQLite database holds two tables:
`products` (name, price in cents, stock, detail, unique barcode) and `sales`
(total, the cart as JSON, the discount, a status and a timestamp; the queries write and read the status, but the table definition omits that column, see "## Findings"). Three screens
work on that data:

- **Cashier** builds a cart from a product grid or a hardware barcode scanner,
  then checks out.
- **Dashboard** shows today's revenue and order count and the ten latest sales.
  It can void a sale and export the full sales history as CSV.
- **Inventory** adds and edits products. A blank barcode gets a generated serial
  number, and scanning a barcode that already exists offers to edit that product.

The model has nine modules:

- `Core`: the rows and the shared `Database` handle. The handle is a class whose
  fields are the two tables, in rowid order, and the two AUTOINCREMENT counters.
  The module also holds the stock-moving UPDATE loop and the table invariants.
- `Products` and `Sales`: the database operations. Statements that change the
  tables are methods on the `Database`. Queries are functions of the table
  contents.
- `Cashier`, `Dashboard` and `Inventory`: the screens' logic.
  - State updates that React applies in turn are sequences of form updates.
  - The scanner's key listener is a class with its two mutable variables.
  - The CSV export is a loop that appends to a string.
- `Seqs`, `Text` and `Wrappers`: shared helpers. They cover SQL's `LIMIT`/`OFFSET`,
  the JavaScript string functions the screens use (`trim`, `toLowerCase`,
  `includes`, `toFixed(2)`, `split`, `join`), and `Option`/`Result`.

Money is whole cents (`int`). A sale's total is a `real`, because a percent
discount can leave a fraction of a cent that the code does not round. The clock
(`Date.now()`), the local-day mapping and the date formatting are parameters.

## Model

| member | source | states |
|---|---|---|
| Core.StockMoved | src/main/db/sales.ts:34-38 | applying `UPDATE products SET stock = stock ± quantity WHERE id = ?` once per line, in order, leaves the table's length alone and moves each product by sign × the total quantity of its lines (repeated ids add up) |
| Core.StockMovedStep | src/main/db/sales.ts:36-38 | one more statement of the loop extends the per-product total by the last line's quantity |
| Core.StockRoundTrip | src/main/db/sales.ts:124-127 | putting a cart's quantities back after taking them out restores every product exactly |
| Core.StockMovedKeepsTable | src/main/db/core.ts:31-40 | moving stock keeps the products table valid: ascending ids within the counter, unique barcodes |
| Core.RemoveKeepsTable | src/main/db/products.ts:30-34 | deleting one row keeps the products table valid |
| Core.Database.constructor | src/main/db/core.ts:29-52 | a new database has empty tables and both AUTOINCREMENT counters at 0, and satisfies the invariant |
| Core.SubtotalAppend | src/main/db/sales.ts:47-49 | the cart total of two carts put together is the sum of their totals |
| Core.SubtotalNonNegative | src/main/db/sales.ts:47-49 | with non-negative prices and quantities the cart total is non-negative |
| Core.QtyForAbsent | src/main/db/sales.ts:36-38 | a product that no cart line names is not moved |
| Core.WithStockAdjusted | src/main/db/sales.ts:34 | one stock UPDATE adds delta to the row with that id and leaves every other row as it was |
| Core.SaleInsertRejectedAsWritten | src/main/db/core.ts:43-52 | the sale INSERT names a `status` column that the `sales` table as created does not have, so SQLite rejects it |
| Core.SaleInsertAcceptedWithStatus | src/main/db/sales.ts:23-25 | with a `status` column added to `sales`, every column of the INSERT exists |
| Products.AddProduct | src/main/db/products.ts:7-15 | a barcode already held by a row fails with a UNIQUE violation and changes nothing. Otherwise the row is appended with id = counter + 1, larger than every id before, and that id is returned |
| Products.GetAllProducts | src/main/db/products.ts:21-25 | returns every product exactly once (same multiset), newest id first |
| Products.DeleteProduct | src/main/db/products.ts:30-34 | removes exactly the rows with that id, reports 1 when there was one and 0 otherwise, and leaves the sales and the counters alone |
| Products.UpdateProduct | src/main/db/products.ts:39-47 | an unknown id changes nothing and reports 0. A barcode held by another row fails with a UNIQUE violation. Otherwise the row is replaced in place and 1 is reported |
| Products.SearchResults | src/main/db/products.ts:63-70 | a blank search term lists every product, newest first |
| Products.SearchSelectsMatches | src/main/db/products.ts:72-80 | with a non-blank term, a product is listed if and only if its name or barcode contains the term |
| Products.SearchNewestFirst | src/main/db/products.ts:63-80 | search results are in descending id order |
| Products.SearchKeepsListingOrder | src/main/db/products.ts:72-80 | search results are a subsequence of the full listing |
| Products.FilterKeepsDescending | src/main/db/products.ts:74-75 | filtering a newest-first list keeps it newest-first |
| Products.GetProductsPaginated | src/main/db/products.ts:56-81 | page p holds pageSize results (fewer on the last page) starting at result (p - 1) × pageSize, in order |
| Products.PaginatedNewestFirst | src/main/db/products.ts:56-81 | every page is newest first |
| Products.PageKeepsDescending | src/main/db/products.ts:64-77 | a LIMIT/OFFSET page of a descending list is descending |
| Products.WindowKeepsDescending | src/main/db/products.ts:64-77 | any LIMIT/OFFSET window of a descending list is descending |
| Products.GetProductsCount | src/main/db/products.ts:83-96 | the count is the number of products the same search lists |
| Products.PagesReproduceResults | src/main/db/products.ts:56-96 | for page ≥ 1 every page is that window, and pages 1 to ceil(count / pageSize) put together are exactly the search results |
| Sales.SubtotalIsSum | src/main/db/sales.ts:47-49 | the `reduce` from the front gives the same cart total as the model's subtotal |
| Sales.NoDiscountKeepsSubtotal | src/main/db/sales.ts:12-20 | with no discount the total is the cart total |
| Sales.PercentWithinSubtotal | src/main/db/sales.ts:15-16 | a percent discount between 0 and 100 gives a total between 0 and the subtotal |
| Sales.PercentAboveHundredIsNegative | src/main/db/sales.ts:15-16 | a percent discount above 100 makes the total negative, because nothing caps it |
| Sales.FixedHasNoFloor | src/main/db/sales.ts:17-18 | a fixed discount is taken in whole currency units (×100 cents), and the total is negative exactly when that exceeds the subtotal |
| Sales.RunStockUpdates | src/main/db/sales.ts:34-38 | the statement loop computes the stock movement StockMoved |
| Sales.CreateSale | src/main/db/sales.ts:7-42 | in one transaction: appends a COMPLETED sale whose id is counter + 1 (larger than every earlier id) with the discounted total, takes the cart's quantities off stock, and returns the new row's id, read from the insert's `lastInsertRowid` |
| Sales.VoidSale | src/main/db/sales.ts:113-133 | an unknown id fails with "Order not found" and a voided sale with "already voided", each changing nothing. Otherwise the sale is marked VOID and its quantities go back to stock |
| Sales.LastRowFound | src/main/db/sales.ts:115 | the lookup by id finds the newest sale at the last row |
| Sales.CreateThenVoid | src/main/db/sales.ts:113-133 | selling a cart and voiding that sale leaves stock exactly as before. The sale remains, marked VOID, and a second void fails with "already voided" |
| Sales.VoidRestoresSurvivor | src/main/db/sales.ts:124-127 | a product row kept between the sale and the void gets its stock back |
| Sales.AggregateToday | src/main/db/sales.ts:72-81 | COUNT(*) is the number of today's non-VOID sales. SUM is NULL exactly when there are none, and is otherwise their total |
| Sales.FetchTodayStats | src/main/db/sales.ts:68-87 | orders and revenue are the count and the sum of today's non-VOID sales, with `|| 0` making revenue 0 when there are none |
| Sales.VoidLowersTodayStats | src/main/db/sales.ts:68-87 | voiding one of today's sales lowers today's orders by 1 and revenue by its total |
| Sales.GetAllSales | src/main/db/sales.ts:105-108 | every sale exactly once (same multiset), newest id first |
| Sales.FetchRecentSales | src/main/db/sales.ts:93-100 | a prefix of the newest-first listing with min(limit, count) sales, or all of them for a negative limit |
| Sales.GetSalesAnalytics | src/main/db/sales.ts:54-63 | today's revenue and orders as above, plus the first min(10, count) of the newest-first sales |
| Sales.SaleIdAsWrittenIsUndefined | src/main/db/sales.ts:40 | `res.id` does not exist on a run result, so the returned saleId is undefined and never the new row's id |
| Cashier.AddToCart | src/renderer/src/components/Cashier.tsx:14-24 | a product already in the cart gets +1 on its line, with no other change. A new product is appended with quantity 1 |
| Cashier.RemoveFromCart | src/renderer/src/components/Cashier.tsx:26-28 | keeps exactly the lines whose id differs |
| Cashier.AddToCartKeepsCartOk | src/renderer/src/components/Cashier.tsx:14-24 | adding keeps one line per product with positive quantities |
| Cashier.RemoveFromCartKeepsCartOk | src/renderer/src/components/Cashier.tsx:26-28 | removing keeps one line per product with positive quantities |
| Cashier.RemoveFromCartLowersTotal | src/renderer/src/components/Cashier.tsx:26-28 | removing a product's line deletes that one line and lowers the total by its line total. Removing an absent id changes nothing |
| Cashier.AddToCartRaisesTotal | src/renderer/src/components/Cashier.tsx:14-24 | adding a product raises the total by its unit price |
| Cashier.IncrementRaisesTotal | src/renderer/src/components/Cashier.tsx:18-20 | raising one line's quantity by 1 raises the total by that line's price |
| Cashier.RemoveUndoesAdd | src/renderer/src/components/Cashier.tsx:14-28 | removing a product just added to a cart that lacked it gives the cart back |
| Cashier.FilterProducts | src/renderer/src/components/Cashier.tsx:62-68 | an empty term shows every product. Otherwise a product is shown if and only if its lower-cased name contains the lower-cased term or its barcode contains the lower-cased term as is |
| Cashier.FilterProductsIsSublist | src/renderer/src/components/Cashier.tsx:65-67 | the filtered grid keeps the products' order |
| Cashier.FindByBarcode | src/renderer/src/components/Cashier.tsx:86 | finds the first product with exactly that barcode, and finds none exactly when no product has it |
| Cashier.CheckOut | src/renderer/src/components/Cashier.tsx:30-60 | the cart is sent if and only if it is non-empty and the total is confirmed. The cart empties only on a successful reply and is otherwise kept as it was |
| Cashier.Scanner.constructor | src/renderer/src/components/Cashier.tsx:70-72 | installing the listener starts with an empty buffer and the current time |
| Cashier.Scanner.KeyDown | src/renderer/src/components/Cashier.tsx:74-100 | a gap over 100 ms drops the buffer. Enter looks up a non-empty buffer (found or not found), adds a found product to the cart with AddToCart, and clears the buffer. A one-character key is appended, and any other key is ignored |
| Cashier.ScanCode | src/renderer/src/components/Cashier.tsx:74-100 | a scanner typing a code fast and then Enter gets exactly the FindByBarcode result for that code, adds a found product to the cart and leaves the cart unchanged otherwise, keeps the cart invariant, and leaves the buffer empty |
| Dashboard.SaleRecords | src/renderer/src/components/Dashboard.tsx:40-51 | one CSV record per item of a sale, in item order |
| Dashboard.ExportCsv | src/renderer/src/components/Dashboard.tsx:31-52 | the nested loop builds the header followed by one row per item of every sale, in order |
| Dashboard.AppendSaleRows | src/renderer/src/components/Dashboard.tsx:40-51 | the inner loop appends one sale's rows to what has been built so far |
| Dashboard.NextRow | src/renderer/src/components/Dashboard.tsx:50 | each pass of the inner loop appends exactly one row |
| Dashboard.LinesSnoc | src/renderer/src/components/Dashboard.tsx:50 | appending one record's row extends the text by that row |
| Dashboard.RecordsSnoc | src/renderer/src/components/Dashboard.tsx:33-52 | the records of one more sale are its item records appended |
| Dashboard.OneRecordPerItem | src/renderer/src/components/Dashboard.tsx:33-52 | the export has as many records as there are items over all sales |
| Dashboard.RecordAt | src/renderer/src/components/Dashboard.tsx:33-52 | item j of sale i lands at record ItemCount(sales before i) + j |
| Dashboard.ExportIgnoresStatus | src/renderer/src/components/Dashboard.tsx:31-52 | voiding a sale does not change the export: VOID sales are exported like completed ones |
| Dashboard.RecordsIgnoreStatusAt | src/renderer/src/components/Dashboard.tsx:41-49 | marking sales VOID changes no record's printed fields |
| Dashboard.SameRowPrintsSame | src/renderer/src/components/Dashboard.tsx:41-50 | records that agree on the printed fields print the same row |
| Dashboard.LinesAgree | src/renderer/src/components/Dashboard.tsx:33-52 | the same rows give the same text |
| Dashboard.RowHasSevenFields | src/renderer/src/components/Dashboard.tsx:41-50 | when the date, the time and the name have no comma, a row splits back into its seven fields |
| Dashboard.AmountsReadBack | src/renderer/src/components/Dashboard.tsx:47-48 | the unit price and line total columns read back as the cents they print |
| Dashboard.NoCommaInNumber | src/renderer/src/components/Dashboard.tsx:41-46 | an id or a quantity printed as a number has no comma and no line break |
| Dashboard.NoCommaInMoney | src/renderer/src/components/Dashboard.tsx:47-48 | a `toFixed(2)` amount has no comma and no line break |
| Dashboard.LineCount | src/renderer/src/components/Dashboard.tsx:31-52 | when no field contains a line break, the file has one line for the header plus one per item |
| Dashboard.HeaderHasOneBreak | src/renderer/src/components/Dashboard.tsx:31 | the header is one line |
| Dashboard.RowHasOneBreak | src/renderer/src/components/Dashboard.tsx:50 | a row whose fields have no line break is one line |
| Dashboard.LinesBreaks | src/renderer/src/components/Dashboard.tsx:33-52 | one-line rows put together have one line break each |
| Dashboard.MarkVoidAt | src/renderer/src/components/Dashboard.tsx:104 | the optimistic update marks VOID exactly the listed sales with that id |
| Dashboard.AfterVoid | src/renderer/src/components/Dashboard.tsx:84-106 | when the call throws, or no data is loaded, or the sale is not listed, the screen is unchanged. Otherwise revenue drops by the first listed match's total and orders by 1, and the sale shows VOID. This happens after a failure reply as well as after a success |
| Dashboard.AfterVoidKeepsOthers | src/renderer/src/components/Dashboard.tsx:89-105 | other listed sales are untouched. The voided one shows VOID unless the call threw, in which case the list is as it was |
| Dashboard.VoidKeepsIdsAscending | src/main/db/sales.ts:122 | voiding keeps the sales table in id order |
| Dashboard.RecentHoldsSale | src/main/db/sales.ts:93-100 | one of the ten newest sales is at position count - 1 - i of the list and is found there |
| Dashboard.RecentAt | src/main/db/sales.ts:93-100 | position m of the recent list is the m-th newest sale |
| Dashboard.RecentAfterVoid | src/renderer/src/components/Dashboard.tsx:104 | marking the listed sale VOID on screen gives what the server would now list |
| Dashboard.DashboardHoldsSale | src/renderer/src/components/Dashboard.tsx:98 | the screen's `find` locates a recent sale at its newest-first position |
| Dashboard.AfterVoidFound | src/renderer/src/components/Dashboard.tsx:98-105 | when the sale is first listed at position k, the update is the server's new analytics |
| Dashboard.ServerAfterVoid | src/main/db/sales.ts:54-87 | after voiding one of today's sales the server reports revenue lower by its total, one order fewer, and that sale VOID |
| Dashboard.OptimisticVoidMatchesServer | src/renderer/src/components/Dashboard.tsx:84-106 | for a listed sale made today, the screen's update equals what reloading the analytics would show |
| Dashboard.OptimisticVoidDriftsForOtherDays | src/renderer/src/components/Dashboard.tsx:101-104 | for a listed sale from another day the screen still counts one order fewer, so it drifts from the server |
| Dashboard.SameFilterAfterUpdate | src/main/db/sales.ts:77-78 | changing a row that is outside a filter to another row outside it leaves the filtered rows alone |
| Inventory.FinalBarcodeNotBlank | src/renderer/src/components/Inventory.tsx:52-56 | the barcode sent is never blank |
| Inventory.GeneratedBarcodeShape | src/renderer/src/components/Inventory.tsx:54 | the serial is "SN" followed by 1 to 10 digits that read as the clock modulo 10^10 |
| Inventory.ParseSuffix | src/renderer/src/components/Inventory.tsx:54 | the last k digits of a numeral are its value modulo 10^k |
| Inventory.FinalBarcodeIdempotent | src/renderer/src/components/Inventory.tsx:52-56 | submitting again, even later, keeps the barcode the first submission chose |
| Inventory.GeneratedBarcodeMissedByScreenFilter | src/renderer/src/components/Inventory.tsx:111-117 | searching a product by its own serial finds it in the database search. The screen filter finds it only if its name contains the lower-cased serial, because it compares the lower-cased term with the barcode as is |
| Inventory.LowerIdempotent | src/renderer/src/components/Inventory.tsx:113 | lower-casing twice is lower-casing once |
| Inventory.ScreenMatchIsLikeMatch | src/renderer/src/components/Inventory.tsx:114-116 | whatever the screen filter matches, the database search matches too |
| Inventory.ScreenFilterWithinSearch | src/renderer/src/components/Inventory.tsx:111-117 | the screen filter never shows a product that the database search would leave out |
| Inventory.EditClick | src/renderer/src/components/Inventory.tsx:21-28 | editing starts exactly when the product has a non-zero id. The price field reads back as the product's cents, and the message is kept |
| Inventory.SubmitRequest | src/renderer/src/components/Inventory.tsx:49-79 | an update is sent if and only if editing (to the edited id). An add is sent if and only if not editing and the label was saved. A request carries the non-blank final barcode and the form's fields |
| Inventory.EditThenSubmitSendsProduct | src/renderer/src/components/Inventory.tsx:49-79 | submitting an unchanged edit form sends the product back as it was. The price text reads back as its cents and the stock text as its stock, negative stock included |
| Inventory.BarcodeEnter | src/renderer/src/components/Inventory.tsx:94-109 | Enter offers to edit if and only if not editing and some product has exactly that barcode, and the offer names such a product |
| Inventory.AnswerOffer | src/renderer/src/components/Inventory.tsx:100-104 | accepting fills the form like Edit, and declining clears only the barcode |
| Inventory.ScannedDuplicateNotAddedTwice | src/renderer/src/components/Inventory.tsx:94-109 | after scanning an existing barcode, accepting sends an update of that product and declining sends a new serial, never the duplicate barcode |
| Inventory.ApplyAllAppend | src/renderer/src/components/Inventory.tsx:49-92 | applying two batches of state updates is applying them one after the other |
| Inventory.BarcodeFilledIn | src/renderer/src/components/Inventory.tsx:53-56 | a blank barcode field is filled with the serial, and any other field is left as typed |
| Inventory.SuccessMessageLostAsWritten | src/renderer/src/components/Inventory.tsx:81-84 | as written, a successful save ends on the blank form with an empty message: handleCancelEdit clears "Added!"/"Updated!" |
| Inventory.SuccessMessageShown | src/renderer/src/components/Inventory.tsx:81-84 | clearing the form before setting the message leaves the blank form showing "Added!" or "Updated!" |
| Inventory.FailureKeepsForm | src/renderer/src/components/Inventory.tsx:85-91 | with the updates as written, a rejected or failed save keeps the form, with the serial filled in, and shows "Error: …" or "Save failed." |
| Inventory.RetryAfterFailureSendsSameProduct | src/renderer/src/components/Inventory.tsx:49-91 | with the updates as written, retrying after a failure sends the same request, with the same serial, even at a later time |
| Seqs.Window | src/main/db/products.ts:64-77 | SQLite `LIMIT limit OFFSET offset`: a negative limit means no limit, the offset is clamped, and the rows are consecutive from the offset |
| Seqs.Take | src/main/db/sales.ts:97 | `LIMIT n` is a prefix with min(n, count) rows, or all rows for a negative n |
| Seqs.PagesCoverAll | src/main/db/products.ts:83-96 | ceil(count / size) pages of a list put together give the whole list |
| Seqs.Filter | src/main/db/products.ts:74 | a `WHERE` keeps exactly the rows that satisfy it |
| Text.Trim | src/main/db/products.ts:63 | `trim()` is empty exactly when the string is all white space, and otherwise neither starts nor ends with white space |
| Text.Lower | src/renderer/src/components/Cashier.tsx:64 | `toLowerCase()` maps each character |
| Text.UpperNotFoundByLowered | src/renderer/src/components/Cashier.tsx:66 | a barcode with an upper-case letter does not contain its own lower-cased form |
| Text.MoneyRoundTrip | src/renderer/src/components/Inventory.tsx:25 | `(cents / 100).toFixed(2)` reads back as the same number of cents, negative amounts included |
| Text.ParseNatToString | src/renderer/src/components/Inventory.tsx:26 | `toString()` of a non-negative number reads back as that number |
| Text.IntToStringRoundTrip | src/renderer/src/components/Inventory.tsx:26 | `parseInt` of `n.toString()` gives n back, negative numbers included |
| Text.SplitJoin | src/renderer/src/components/Dashboard.tsx:50 | `join(',')` of comma-free fields splits back into those fields |

## Left out

- The Electron main process, the IPC handlers and the preload bridge (src/main/index.ts and src/preload/index.ts) are not part of this model. Their `{ success, data | error }` wrapping is the `Reply` and `Response` datatypes, and `Dashboard.VoidReply` for `voidSale`.
- Items are stored as JSON text (`JSON.stringify`/`JSON.parse`). The model keeps the cart lines themselves.
- `LIKE`: the `%` and `_` wildcards inside a search term, and SQLite's ASCII-only case folding, are not modelled. A match is a plain substring test, and `toLowerCase` is ASCII-only.
- Floating point: `parseFloat`, `parseInt`, `Math.round` and `toFixed` on non-integers. Submissions take the parsed price in cents and the stock as parameters, and Sale totals are exact reals. `Text.ParseInt` reads only plain numerals such as `toString` writes. It does not copy how `parseInt` accepts leading white space or stops at the first non-digit.
- Dates, the locale and the clock: `created_at` is an integer timestamp. "Today", the local-day mapping and the date/time text of the export are parameters, as is `Date.now()`.
- React rendering, `confirm`, `alert`, the Blob download, focus, receipt printing and `saveBarcode`. The answers to the dialogs and the label's outcome are boolean parameters.
- handleDelete (Inventory.tsx:40-47) is only `confirm` followed by DeleteProduct, which is modelled.
- Concurrency: each transaction and each event handler completes before the next one starts.
- NULL barcodes, which UNIQUE allows repeatedly, and the `stock DEFAULT 1` column default are not modelled. Every row carries a barcode and a stock.
- JavaScript strings are UTF-16, so `e.key.length === 1` is false for a key outside the Basic Multilingual Plane. The model counts characters.
- Dashboard.AppendSaleRows takes the row printer as a parameter, so that its loop invariant does not depend on the date formatting.
- Inventory.EditThenSubmitSendsProduct: covers only products with a non-blank barcode, because a blank barcode is replaced by a generated serial when the form is submitted.
- Products.PagesReproduceResults: states each page through `Window` instead of listing every page's rows.
- Products.AddProduct and Products.UpdateProduct model `addProduct`/`updateProduct` as returning a `Result`. A UNIQUE violation throws in the source.
- Sales.VoidSale: returns `Failure(OrderNotFound)` or `Failure(AlreadyVoided)` where the source throws `Error('Order not found')` or `Error('Order is already voided')`. In both cases the transaction rolls back and changes nothing, which is what the model states.
- Text.Money, Text.NatToString, Text.IntToString, Core.Subtotal and the AUTOINCREMENT counters use unbounded integers. JavaScript numbers are doubles, which are exact only up to 2^53, and SQLite integers are 64-bit. `toFixed` and `toString` switch to exponent notation from 1e21. The model does not capture rounding, overflow or exponent notation for amounts, stock or ids that large.
- The server does not reject an empty cart or stock going below zero. The model keeps both behaviours rather than adding checks.
- A cart line carries the product as it was when it was added. A price change made while the cart is open is not picked up.
- Dashboard.AfterVoid also applies the optimistic void after a failure reply, because the source ignores the reply's outcome. When the call throws, the handler stops before `setData` and the screen is unchanged. Both cases are in the model.

## Findings

| source | as written | input that shows it | evidently intended | confidence | as-written member | corrected member |
|---|---|---|---|---|---|---|
| src/main/db/sales.ts:40 | returns `saleId: res.id`, but a run result has only `changes` and `lastInsertRowid` | any successful sale: the returned saleId is undefined | return `res.lastInsertRowid`, the new sale's id | not executed | Sales.SaleIdAsWrittenIsUndefined | Sales.CreateSale |
| src/main/db/core.ts:43-52 | the `sales` table is created without a `status` column, yet the sale INSERT (sales.ts:23-25) and the void UPDATE write one | the first checkout on a fresh database: SQLite reports no such column | `status TEXT DEFAULT 'COMPLETED'` in the table definition | not executed | Core.SaleInsertRejectedAsWritten | Core.SaleInsertAcceptedWithStatus |
| src/renderer/src/components/Inventory.tsx:82-83 | `setMessage('Added!')` is followed by `handleCancelEdit()`, whose `setMessage('')` (line 37) is applied later in the same batch | any successful add or update: the message box ends empty | show "Added!"/"Updated!" after the form is cleared | not executed | Inventory.SuccessMessageLostAsWritten | Inventory.SuccessMessageShown |
