# Nexus inventory and quotations — a verified model of the core logic

This project models the logic that sits inside a React + PHP inventory/CRM
application and proves properties about it. The model covers four pieces.

- **Physical count sessions** (`App.tsx`, module `App`).
  - A scanned code resolves to the first product, in list order, whose SKU or RFID tag equals it.
  - A `CountController` object holds the session: none, or active with a type and a progress map keyed by product id.
  - It is started, fed with scans, finished (the progress is handed to the stock synchronisation and the session is cleared) or cancelled.
  - The sidebar's role gating is a predicate over the five roles the code uses.
- **The quotation draft** (`components/QuotationManager.tsx`, module `QuotationManager`).
  - A `QuotationDraft` object holds the insertion-ordered line list and changes it through add (merging by product), remove and set-quantity.
  - The totals use a fixed 16 % tax.
  - Save validation builds the body handed to the store.
  - Also modelled: the case-insensitive catalogue search, and the WhatsApp message and link.
- **Dashboard figures** (`components/Dashboard.tsx`, module `Dashboard`).
  - The low-stock list, stock valuation and total stock.
  - The per-category sums, computed by an in-place loop and specified by a fold.
  - The distinct-location count and the top-five critical panel.
- **The PHP endpoint's two writes** (`api.php`, module `Api`).
  - A `Database` object holds the products, quotations and quotation-items tables as maps from primary key to row.
  - `update_stock` overwrites the stock and count date of every counted product in a loop.
  - `create_quotation` inserts a header and one row per item inside a transaction that is rolled back on the first exception.

Module `Sync` connects the client to the server.

- Finishing a session and committing it changes only the products that some scan resolved to.
- A quotation saved by the draft reaches the table without its customer. The client sends the fields as `name`/`phone`, and the server reads `customerName`/`customerPhone`. This holds when the customer columns accept NULL. Otherwise the header insert is refused (the `Fault` parameter of `Api.InsertFault`) and nothing is saved.

Module `Types` holds the shared entities (`Product`, `InventoryType`, `UserRole`). Module `Collections` holds a generic order-preserving `Filter` and a `Join` with its placement lemmas.

Money is modelled as exact `real`, so tax is exactly 16/100 of the subtotal. Stock and quantities are unbounded `int`. Fresh ids, the current date and the database's own refusals are parameters.

Some behaviour of the code is modelled as written even where it looks unintended:

- `finishCount` clears the count session whatever the synchronisation answered (App.tsx:90-91). `App.CountController.FinishCount` does the same.
- The quotation totals hard-code the tax rate 0.16 (components/QuotationManager.tsx:38). So does `QuotationManager.TaxRate`.
- The client sends the customer as a spread of `{name, phone}` (components/QuotationManager.tsx:77), while `create_quotation` reads `customerName` and `customerPhone` (api.php:55). The server therefore stores null for both (`Sync.SavedQuotationLosesCustomer`) when the columns accept NULL. Otherwise the insert is refused (the `Fault` parameter) and nothing is saved.
- The role enum (types.ts:2-6) declares only ADMIN, MANAGER and WAREHOUSE, but navigation (App.tsx:116) and user management (components/UserManagement.tsx:143-144) also use SELLER and SUPPLIER. The model takes the typed reading with five roles. Read untyped, `UserRole.SELLER` and `UserRole.SUPPLIER` are undefined, so a SELLER would not see quotations. React leaves out a `value={undefined}` attribute, and an option without one takes its text as its value, so choosing either option (components/UserManagement.tsx:143-144) sets the role to "Vendedor (Salidas de Stock)" or "Proveedor (Entradas de Stock)". The signed-in user is hard-coded as ADMIN (App.tsx:42-46), so the difference never shows when the app runs.

## Model

| member | source | states |
|---|---|---|
| Collections.Filter | components/Dashboard.tsx:13 | the result keeps exactly the elements satisfying the predicate and is no longer than the input |
| Collections.FilterAppend | components/QuotationManager.tsx:60 | filtering distributes over concatenation, so relative order is kept |
| Collections.FilterKeepsAll | components/QuotationManager.tsx:32-35 | a filter whose predicate holds everywhere returns the list unchanged |
| Collections.FilterAgrees | components/QuotationManager.tsx:32-35 | filters with pointwise equal predicates agree |
| Collections.Join | components/QuotationManager.tsx:90 | definition: `parts.join(sep)`, the parts with the separator between each two; where each part and separator lands is stated by `Collections.JoinPlacesPart`, `Collections.JoinPlacesSeparator`, `Collections.OffsetsIncrease` and `Collections.JoinEndsWithLast` |
| Collections.JoinPlacesPart | components/QuotationManager.tsx:90 | each part appears verbatim in the joined string at its offset |
| Collections.OffsetsIncrease | components/QuotationManager.tsx:90 | later parts start after earlier parts and their separator |
| Collections.JoinPlacesSeparator | components/QuotationManager.tsx:90 | exactly the separator stands between each part and the next |
| Collections.JoinEndsWithLast | components/QuotationManager.tsx:90 | the joined text ends where the last part ends |
| App.FindIndex | App.tsx:75 | index of the first product whose SKU or RFID tag equals the code; None only when none matches |
| App.Resolve | App.tsx:75 | None iff no product matches exactly; otherwise the product at the first matching position |
| App.ManualCodeResolvesToItself | App.tsx:313-314 | with unique SKUs and no tag equal to another product's SKU, a product's own SKU resolves to that product |
| App.ManualCodeCanBeShadowed | App.tsx:75 | a concrete list where an earlier product's RFID tag equal to a later SKU wins the lookup |
| App.Bump | App.tsx:79 | the entry for the id becomes its old value (0 if absent) + 1, other entries unchanged, keys grow by the id |
| App.Tally | App.tsx:71-80 | definition: the progress map after a sequence of scans, each resolved and bumped in turn; its meaning is stated by `App.TallyCountsScans` and `App.TallyWellFormed` |
| App.ScansOfSnoc | App.tsx:79 | appending a scan adds one to the count of the product it resolves to |
| App.TallyCountsScans | App.tsx:71-80 | from empty progress, an id is a key iff some scan resolved to it, and its value is the number of such scans |
| App.TallyWellFormed | App.tsx:71-80 | every stored count is at least 1 and every key is the id of a product |
| App.CountController.constructor | App.tsx:40 | no session at start |
| App.CountController.StartCount | App.tsx:70-72 | an active session of the given type with empty progress |
| App.CountController.HandleScanResult | App.tsx:74-86 | unresolved code: NotRegistered, session unchanged; resolved without session: Detected, nothing changes; resolved in session: Counted and that product's entry bumped; the invariant progress == tally of the session's scans is kept |
| App.CountController.ManualCapture | App.tsx:313-314 | behaves as a scan of the product's SKU: an unknown code is reported as not registered and leaves the session alone; a known one without a session is reported as detected; with a session the resolved product's progress goes up by one; the SKU is recorded as a scan only while a session is open; under unique SKUs and unshadowed tags the counted product is that very product |
| App.CountController.FinishCount | App.tsx:88-93 | no-op request without a session; otherwise hands the whole progress and the current user's id to the sync and clears the session regardless of the answer |
| App.CountController.Cancel | App.tsx:293 | clears the session without any sync request |
| App.VisibleTabs | App.tsx:113-120 | an entry is shown iff its roles are null or include the role; its order is stated by `App.VisibleTabsIsShown` and `App.SidebarPerRole` |
| App.VisibleTo | App.tsx:120 | definition: the entry is shown when it has no role list or the list includes the role; the whole table is stated by `App.NavTable` |
| App.VisibleTabsIsShown | App.tsx:113-120 | the filtered sidebar from any position on is the entries from there on that the role may see, in their sidebar order |
| App.SidebarPerRole | App.tsx:113-120 | the exact sidebar of each role: all five entries for ADMIN; dashboard, inventory, quotations and counts for MANAGER; dashboard, inventory and quotations for SELLER; dashboard, inventory and counts for WAREHOUSE; dashboard and inventory for SUPPLIER |
| App.NavTable | App.tsx:113-120 | dashboard and inventory for everyone; quotations iff ADMIN/MANAGER/SELLER; counts iff ADMIN/WAREHOUSE/MANAGER; admin iff ADMIN |
| QuotationManager.Subtotal | components/QuotationManager.tsx:37 | definition: the sum of the line subtotals; its properties are stated by `QuotationManager.SubtotalAppend` and `QuotationManager.SubtotalReplace` |
| QuotationManager.Tax | components/QuotationManager.tsx:38 | definition: 0.16 of the subtotal; see `QuotationManager.TotalIsSubtotalWithTax` and `QuotationManager.TotalsExample` |
| QuotationManager.Total | components/QuotationManager.tsx:39 | definition: subtotal plus tax; stated as 116/100 of the subtotal by `QuotationManager.TotalIsSubtotalWithTax` |
| QuotationManager.SubtotalAppend | components/QuotationManager.tsx:37 | the subtotal of a concatenation is the sum of the subtotals |
| QuotationManager.SubtotalReplace | components/QuotationManager.tsx:37 | replacing one line changes the subtotal by the difference of the two line subtotals |
| QuotationManager.TotalsExample | components/QuotationManager.tsx:37-39 | lines of 100 and 200 give subtotal 300, tax 48, total 348 |
| QuotationManager.TotalIsSubtotalWithTax | components/QuotationManager.tsx:38-39 | total is subtotal × 116/100 |
| QuotationManager.AddLine | components/QuotationManager.tsx:41-57 | product present: same length, only its line gets quantity + 1 and subtotal (quantity + 1) × unitPrice; absent: one new line appended with quantity 1, the product's name and price |
| QuotationManager.SetQuantity | components/QuotationManager.tsx:63-68 | quantity below 1 leaves the list unchanged; otherwise only lines with that id get the quantity and subtotal qty × unitPrice |
| QuotationManager.OneMoreAddsUnitPrice | components/QuotationManager.tsx:45 | a priced line stays priced after +1 and its subtotal grows by its unit price |
| QuotationManager.AddLinePreservesWellFormed | components/QuotationManager.tsx:41-57 | one line per product and subtotal = quantity × unitPrice survive adding |
| QuotationManager.AddExistingLine | components/QuotationManager.tsx:42-46 | adding a present product updates that line in place and raises the subtotal by its unit price |
| QuotationManager.AddExistingIsUpdate | components/QuotationManager.tsx:42-46 | with one line per product, adding a present product is a point update of its line |
| QuotationManager.AddNewLine | components/QuotationManager.tsx:47-55 | adding an absent product appends its line and raises the subtotal by its price |
| QuotationManager.AddRepeatedlyMerges | components/QuotationManager.tsx:41-57 | adding the same product n times yields one line with quantity n and subtotal n × price |
| QuotationManager.RemoveLines | components/QuotationManager.tsx:59-61 | exactly the lines with another id remain |
| QuotationManager.RemoveLinesPreservesWellFormed | components/QuotationManager.tsx:59-61 | removing lines keeps one line per product and priced lines |
| QuotationManager.RemoveLinesKeepsOrder | components/QuotationManager.tsx:59-61 | removal distributes over concatenation, keeping the remaining lines in order |
| QuotationManager.SetQuantityPreservesWellFormed | components/QuotationManager.tsx:63-68 | setting a quantity keeps one line per product and priced lines |
| QuotationManager.SaveRequest | components/QuotationManager.tsx:70-81 | rejected iff the name is empty or there are no items; otherwise the body carries name and phone under keys name/phone, the total, the user id and the items |
| QuotationManager.Lower | components/QuotationManager.tsx:33-34 | same length, each character lowered |
| QuotationManager.LowerIdempotent | components/QuotationManager.tsx:33-34 | lowering twice is lowering once |
| QuotationManager.Includes | components/QuotationManager.tsx:33-34 | definition: JavaScript `includes`, the term occurs as a contiguous slice (the empty term everywhere); used by `QuotationManager.FilteredProducts`, whose properties are stated by `QuotationManager.EmptySearchKeepsAll` and `QuotationManager.SearchIgnoresTermCase` |
| QuotationManager.FilteredProducts | components/QuotationManager.tsx:32-35 | a product is kept iff its lowered name or SKU contains the lowered term |
| QuotationManager.EmptySearchKeepsAll | components/QuotationManager.tsx:32-35 | the empty search term keeps the whole catalogue |
| QuotationManager.SearchIgnoresTermCase | components/QuotationManager.tsx:32-35 | searching for the lowered term gives the same list |
| QuotationManager.StripSpaces | components/QuotationManager.tsx:93 | the result holds exactly the phone's non-whitespace characters |
| QuotationManager.StripSpacesAppend | components/QuotationManager.tsx:93 | stripping a concatenation strips each part and keeps their order |
| QuotationManager.StripSpacesKeepsPlainPhone | components/QuotationManager.tsx:93 | a phone with no whitespace is left unchanged |
| QuotationManager.ItemText | components/QuotationManager.tsx:90 | definition: `- name (quantity x $unitPrice) = $subtotal`, with the number rendering as a parameter; its place in the message is stated by `QuotationManager.MessageShowsItem` |
| QuotationManager.ItemTexts | components/QuotationManager.tsx:90 | one text per item, in item order |
| QuotationManager.Message | components/QuotationManager.tsx:89-91 | definition: greeting, item lines joined by `%0A`, closing; its shape is stated by `QuotationManager.MessageStartsWithGreeting`, `QuotationManager.MessageShowsItem`, `QuotationManager.MessageItemsInOrder`, `QuotationManager.ClosingFollowsLastItem` and `QuotationManager.MessageEndsWithTotal` |
| QuotationManager.WhatsAppUrl | components/QuotationManager.tsx:93 | definition: `https://wa.me/` + stripped phone + `?text=` + message; stated by `QuotationManager.UrlPhoneHasNoSpaces` |
| QuotationManager.MessageShowsItem | components/QuotationManager.tsx:89-90 | each item's line appears whole in the message, after the greeting and the earlier lines |
| QuotationManager.MessageItemsInOrder | components/QuotationManager.tsx:90 | each item line ends, and a line break follows, before any later item line starts; exactly one `%0A` line break stands between two consecutive item lines |
| QuotationManager.MessageStartsWithGreeting | components/QuotationManager.tsx:89 | the message opens with the greeting "Hola <name>, te envío la cotización de Nexus AI:" and two line breaks |
| QuotationManager.ClosingFollowsLastItem | components/QuotationManager.tsx:90-91 | the closing starts right where the last item line ends, or right after the greeting when there are no items |
| QuotationManager.MessageEndsWithTotal | components/QuotationManager.tsx:91 | the message ends with the closing: the total line "*Total con IVA: $<total>*" followed by the thanks line "Gracias por tu preferencia." |
| QuotationManager.UrlPhoneHasNoSpaces | components/QuotationManager.tsx:93 | the link is wa.me followed by the stripped phone, which holds no whitespace |
| QuotationManager.QuotationDraft.constructor | components/QuotationManager.tsx:27-29 | empty customer, no lines, not processing |
| QuotationManager.QuotationDraft.SetCustomer | components/QuotationManager.tsx:27 | stores the customer's name and phone |
| QuotationManager.QuotationDraft.AddItem | components/QuotationManager.tsx:41-57 | the lines become AddLine of the old lines; the invariant is kept |
| QuotationManager.QuotationDraft.RemoveItem | components/QuotationManager.tsx:59-61 | the lines become RemoveLines of the old lines; the invariant is kept |
| QuotationManager.QuotationDraft.UpdateQuantity | components/QuotationManager.tsx:63-68 | quantity below 1 changes nothing; otherwise SetQuantity of the old lines; the invariant is kept |
| QuotationManager.QuotationDraft.BeginSave | components/QuotationManager.tsx:70-81 | returns SaveRequest of the draft; sets isProcessing only when it goes to the store |
| QuotationManager.QuotationDraft.FinishSave | components/QuotationManager.tsx:82-85 | notifies exactly on a successful answer and clears isProcessing |
| Dashboard.LowStock | components/Dashboard.tsx:13 | exactly the products with stock ≤ minStock |
| Dashboard.LowStockKeepsOrder | components/Dashboard.tsx:13 | the low-stock list keeps catalogue order |
| Dashboard.TotalValue | components/Dashboard.tsx:14 | definition: the sum of stock times price; its properties are stated by `Dashboard.TotalValueAppend` and `Dashboard.TotalValueNonNegative` |
| Dashboard.TotalValueAppend | components/Dashboard.tsx:14 | valuation is additive over concatenation |
| Dashboard.TotalValueNonNegative | components/Dashboard.tsx:14 | non-negative stock and prices give a non-negative valuation |
| Dashboard.StockInAbsent | components/Dashboard.tsx:19-20 | a category no product has sums to 0 |
| Dashboard.IndexOfName | components/Dashboard.tsx:18 | the position of the entry with that name, or None when no entry has it |
| Dashboard.CategoryData | components/Dashboard.tsx:17-22 | definition: the reduce as a fold of `CategoryStep`; its meaning is stated by `Dashboard.CategoryDataSums`, `Dashboard.CategoryDataInFirstAppearanceOrder` and `Dashboard.CategoryDataAddsUpToTotal`, and `Dashboard.ComputeCategoryData` is proved equal to it |
| Dashboard.ComputeCategoryData | components/Dashboard.tsx:17-22 | the in-place loop computes the category fold; names are distinct and each value is that category's stock sum |
| Dashboard.CategoryDataSums | components/Dashboard.tsx:17-22 | one entry per distinct category, names distinct, value = sum of stock in that category |
| Dashboard.MergeKeepsSummary | components/Dashboard.tsx:18-19 | adding a product to its category's entry keeps one entry per category holding that category's stock |
| Dashboard.PushKeepsSummary | components/Dashboard.tsx:18-20 | pushing an entry for a new category keeps one entry per category holding that category's stock |
| Dashboard.SumValuesUpdate | components/Dashboard.tsx:19 | adding to one entry adds to the sum of entries |
| Dashboard.CategoryDataAddsUpToTotal | components/Dashboard.tsx:17-25 | the category values add up to Total Stock |
| Dashboard.TotalStock | components/Dashboard.tsx:25 | definition: the sum of the stocks; stated equal to the sum of the category entries by `Dashboard.CategoryDataAddsUpToTotal` |
| Dashboard.FirstIndex | components/Dashboard.tsx:17-22 | the first position of a category |
| Dashboard.FirstIndexIsLeast | components/Dashboard.tsx:17-22 | a matching position with no earlier match is the first position |
| Dashboard.FirstIndexInPrefix | components/Dashboard.tsx:17-22 | a category's first position is the same in a longer list |
| Dashboard.CategoryDataInFirstAppearanceOrder | components/Dashboard.tsx:17-22 | entries are ordered by the first appearance of their category |
| Dashboard.PrefixEntriesKeepPositions | components/Dashboard.tsx:17-22 | entries found in the prefix keep their first positions in the longer list |
| Dashboard.OrderAfterMerge | components/Dashboard.tsx:19 | adding to an existing entry keeps first-appearance order |
| Dashboard.OrderAfterPush | components/Dashboard.tsx:20 | pushing a new category keeps first-appearance order |
| Dashboard.StepKeepsOrder | components/Dashboard.tsx:18-21 | one step of the reduce keeps the entries in first-appearance order, given that every category of the prefix already has an entry |
| Dashboard.LocationCount | components/Dashboard.tsx:28 | definition: the size of the set of locations; its bounds are stated by `Dashboard.LocationCountBounds` |
| Dashboard.LocationCountBounds | components/Dashboard.tsx:28 | distinct locations are at most the product count and at least one when there is a product |
| Dashboard.DashboardStats | components/Dashboard.tsx:24-29 | the critical figure is the length of the low-stock list, total stock equals the category sum, locations ≤ products |
| Dashboard.CriticalPanelView | components/Dashboard.tsx:81-100 | all-clear iff no product is low; otherwise the first min(5, low) low-stock products |
| Api.Recount | api.php:84-85 | definition: the row with the new stock and today as its count date; what ApplyCounts does with it is stated by `Api.ApplyCountsEffect` |
| Api.ApplyCounts | api.php:81-89 | the table keeps its keys |
| Api.ApplyCountsEffect | api.php:83-86 | counted products get the submitted stock and today's date and keep their other columns; uncounted rows are unchanged |
| Api.UnknownIdsChangeNothing | api.php:84 | counts for ids without a row change nothing |
| Api.ApplyCountsCompose | api.php:83-86 | two submissions equal one submission of their merge, the later count winning |
| Api.ApplyCountsIdempotent | api.php:83-86 | submitting the same counts twice equals submitting them once |
| Api.ApplyOneMore | api.php:84-85 | one more UPDATE after a batch is the batch grown by that entry |
| Api.Answer | api.php:61-66 | success with the header id iff no exception; otherwise failure with the exception's message |
| Api.HeaderRow | api.php:54-55 | definition: the header row, whose customer columns hold `customerName`/`customerPhone` or null when absent; stated by `Sync.SavedQuotationLosesCustomer` |
| Api.LineRow | api.php:57-59 | definition: an item row under its quotation id with the item's figures; stated by `Api.StoredLinesContents` |
| Api.StoredLines | api.php:57-60 | definition: the item table after the inserts from item k on; its contents are stated by `Api.StoredLinesContents` and `Api.CommittedLinesCount` |
| Api.InsertFault | api.php:51-66 | definition: the first statement of the transaction that raises, if any; when it is none is stated by `Api.InsertSucceedsExactly` |
| Api.LinesFaultExactly | api.php:57-60 | the item inserts all go through iff the new ids are distinct and free and the database refuses none |
| Api.StoredLinesContents | api.php:57-60 | with fresh ids each item gets one row under its id carrying the quotation id, product, quantity, unit price and subtotal; existing rows are untouched |
| Api.DistinctIdsCount | api.php:58 | distinct fresh ids are as many as the items |
| Api.LinesOfGrownTable | api.php:57-60 | in a table grown only by rows carrying the new id, that id owns exactly the added rows |
| Api.CommittedLinesCount | api.php:53-60 | after the inserts, the quotation owns exactly the new ids, one per item |
| Api.InsertSucceedsExactly | api.php:51-66 | the transaction commits iff the header id is free, the item ids are fresh and no statement is refused |
| Api.CommitOwnsOneRowPerItem | api.php:53-62 | a committed quotation has a new id and exactly one item row per input item |
| Api.Database.constructor | api.php:13-17 | the connected database holds the given products table and empty quotation tables, and its invariant holds |
| Api.Database.UpdateStock | api.php:81-89 | when every UPDATE succeeds, the products table becomes ApplyCounts of the old one, in whatever order the entries are taken, and the answer is success |
| Api.Database.CreateQuotation | api.php:50-67 | on success the header (with the client's total) and the item rows are added; on any exception both tables are as before and the answer carries the error; item rows always belong to a quotation |
| Sync.FinishedCountChangesOnlyCountedProducts | App.tsx:88-93 | committing a session's progress changes only products some scan resolved to, setting their stock to the scan count and their date to today |
| Sync.FinishAndCommit | App.tsx:88-93 | after finishing, the session is gone and the products table holds the session's tally, or is unchanged without a session |
| Sync.ServerRequest | components/QuotationManager.tsx:76-81 | the server reads the customer fields, total and user id as sent, and one item per line with the line's product id, quantity, unit price and subtotal |
| Sync.SavedQuotationLosesCustomer | api.php:55 | a saved draft's header row holds a null name and phone, the draft's total and its user; whether a database whose columns refuse NULL rejects that row is left to the `Fault` parameter |

## Left out

- Reloading the catalogue after a finished count (`loadData`) is not modelled: the product list of `App.CountController` is fixed at construction.
- App.CountController.FinishCount: the synchronisation's answer is a parameter that the method ignores, as the code does; the network call itself is not modelled.
- Camera scanning and the scanner component are not modelled; scan codes are plain string inputs.
- The AI insights service is not modelled.
- The fetch wrapper and its mock-data / always-success fallback are not modelled; requests are values handed from client to server in `Sync`.
- User management, the system configuration screen, and the `create_user`/`delete_user` handlers are not modelled.
- The GET listings, the database connection setup and the CORS headers are not modelled.
- Number formatting (`toLocaleString` and JS number-to-string in the message) is a parameter of type `Render`.
- Floating-point rounding is not modelled: money is exact.
- QuotationManager.Lower: lower-cases only the Basic Latin and Latin-1 capitals; the full Unicode case mapping of `toLowerCase` is not modelled.
- Api.Database.UpdateStock: an UPDATE that raises is not modelled. The handler has no catch for it (api.php:82-87), so the uncaught PDOException ends the script, the open transaction is rolled back and no success JSON is sent. Only the client wrapper (services/dbService.ts:85-87) then reports success.
- Api.Database.CreateQuotation: refusals by the schema (foreign keys, NOT NULL columns) are not derived; they enter as a `Fault` parameter naming the failing statement.
- Randomness and clocks are not modelled: `Math.random` line ids, `random_bytes` and `UUID()` row ids, and `CURRENT_DATE` are parameters.
- Async ordering and concurrency are not modelled; one user issues one request at a time.
- Markup, print CSS, `window.print`, `window.open` and alert texts are not modelled; alerts appear as outcome tags.
- The unused `InventorySession` and `Movement` types are not modelled.
