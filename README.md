# SheetSync inventory core in Dafny

SheetSync is a small inventory tracker. The user records batches of perishable
products by barcode, with an expiry date on each batch. The app classifies
every entry as fresh, expiring (today or within the next seven days) or
expired. It groups entries by product for the inventory table, shows counters
and a "needs attention" list on the dashboard, and keeps a notification feed
with a badge. Entries live in an in-memory store or in a Google Sheets
spreadsheet.

This project models the following:

- the expiry classifier `getExpiryStatus`;
- the in-memory store, as a class whose `inventory` field its methods update
  in place and whose `barcodes` catalog they only read;
- the server actions that validate forms in front of the store;
- the grouping, search and collapse state of the inventory table;
- the dashboard statistics and its needs-attention list;
- the notification feed and its badge;
- the spreadsheet row conversions and the row search of the sheet-backed
  delete.

Time is an `Instant`: whole milliseconds on the local clock. A calendar day is
`Instant / 86_400_000`, and `setHours(0, 0, 0, 0)` is rounding down to that
day's first instant. The current time is a parameter wherever the source reads
the clock. Whether the component has mounted in the browser (`isClient`) is
also a parameter.

Modules, one per file, in dependency order:

- `Wrappers`: `Option`.
- `Dates`: days, midnights, `differenceInDays`.
- `Text`: decimal rendering, `padStart`, lower-casing, `includes`.
- `Seqs`: `filter`, a stable `sort`, `slice`.
- `Types`: entries and products.
- `Expiry`: `getExpiryStatus`.
- `Store`: the `Database` class.
- `Actions`: the server actions.
- `Table`: the inventory table.
- `Dashboard`: the dashboard.
- `Notifications`: the notification popover.
- `Sheets`: the spreadsheet store.

## Model

| member | source | states |
|---|---|---|
| Dates.DifferenceInDays | src/lib/utils.ts:20 | the whole days between two instants, truncated toward zero: non-negative and at most the elapsed time in days when the first is later, the mirror image otherwise |
| Dates.StartOfDay | src/lib/utils.ts:15-18 | the midnight of an instant is not after it, is less than one day before it, and lies on the same calendar day |
| Dates.MidnightDifference | src/lib/utils.ts:20 | `differenceInDays` between two midnights is exactly the difference of their calendar days |
| Dates.DayOfMonotone | src/lib/utils.ts:15-20 | a later instant never falls on an earlier calendar day |
| Dates.DayOfShift | src/lib/utils.ts:15-20 | moving an instant by k whole days moves its calendar day by k |
| Text.Decimal | src/lib/inventory-data.ts:64 | the decimal rendering of a natural number is non-empty, all digits, has no leading zero, and is three digits long exactly for 100..999 |
| Text.DecimalRoundTrip | src/lib/inventory-data.ts:64 | reading back the decimal rendering gives the number |
| Text.PadStart | src/lib/inventory-data.ts:64 | padding leaves a string of at least the target width untouched, and otherwise is exactly `width - |s|` fill characters followed by the string |
| Text.Lower | src/components/sheet-sync/inventory-table.tsx:169 | lower-casing keeps the length and maps every character on its own |
| Text.Includes | src/components/sheet-sync/inventory-table.tsx:169 | a string includes only strings no longer than itself, and always includes the empty string and itself |
| Seqs.Filter | src/components/sheet-sync/inventory-dashboard.tsx:61 | the kept elements are elements of the input that satisfy the predicate, every satisfying element is kept, and no element is kept more often than it occurs |
| Seqs.FilterAll | src/components/sheet-sync/inventory-table.tsx:168-170 | a filter that every element passes returns the input unchanged |
| Seqs.FilterIdempotent | src/lib/inventory-data.ts:72 | filtering twice with one predicate is filtering once, so deleting the same id twice is deleting it once |
| Seqs.FilterConcat | src/components/sheet-sync/inventory-table.tsx:137 | filtering a concatenation filters each part and keeps their order, which fixes the order and number of the kept elements of every filter (deletion, search, alerts) |
| Seqs.FilterCount | src/components/sheet-sync/inventory-dashboard.tsx:51-52 | the length of a filter is the number of elements that satisfy the predicate |
| Seqs.FilterMember | src/components/sheet-sync/notifications-popover.tsx:33 | an element of the input survives the filter exactly when it satisfies the predicate |
| Seqs.SortBy | src/app/actions/inventory.ts:35 | the sort is a permutation of its input and is ordered by the key |
| Seqs.SortByStable | src/components/sheet-sync/notifications-popover.tsx:34 | the sort keeps the input order among elements with equal keys |
| Seqs.SortByMember | src/components/sheet-sync/inventory-dashboard.tsx:62 | sorting neither adds nor removes an element |
| Seqs.Take | src/components/sheet-sync/inventory-dashboard.tsx:63 | `slice(0, n)`: the first n elements, or the whole sequence when it is shorter |
| Seqs.TakeOfSorted | src/components/sheet-sync/inventory-dashboard.tsx:62-63 | the front of a sorted sequence is sorted, and nothing left out has a smaller key than an element kept |
| Types.WithoutId | src/lib/inventory-data.ts:72 | removing an id keeps exactly the entries with other ids, in order |
| Expiry.GetExpiryStatus | src/lib/utils.ts:9-44 | expired exactly when the expiry day is before today, expiring exactly when it is today or up to seven days ahead, fresh otherwise; `days` is the calendar-day difference; each status has its own colour; the expiring label is "Expires in N day(s)" |
| Expiry.TimeOfDayIrrelevant | src/lib/utils.ts:15-20 | two expiries on the same calendar day, seen at two instants of the same day, get the same status |
| Expiry.ClassifyDaysAhead | src/lib/utils.ts:20-43 | an expiry k days ahead of now reports `days == k` |
| Expiry.BoundaryDays | src/lib/utils.ts:22-43 | today and 7 days ahead are expiring, 8 days ahead is fresh, yesterday is expired with `days == -1` |
| Expiry.StatusMonotone | src/lib/utils.ts:22-43 | a later expiry is never more urgent |
| Expiry.ColorByStatusAlone | src/lib/utils.ts:26-41 | two statuses share a colour exactly when they are the same status |
| Expiry.AttachStatus | src/components/sheet-sync/inventory-table.tsx:144-147 | one status per entry, in order, each computed from that entry's own expiry |
| Store.BatchLabel | src/lib/inventory-data.ts:64 | the batch label is "B" plus three digits reading as the random draw plus 100 |
| Store.Database.constructor | src/lib/inventory-data.ts:3-48 | a new store holds the four seed entries and the six seed products |
| Store.Database.GetInventoryData | src/lib/inventory-data.ts:58 | returns the current inventory |
| Store.Database.AddInventoryItem | src/lib/inventory-data.ts:60-69 | the new entry carries the given fields plus the fresh id, batch label and added date, and is put in front of the inventory; the catalog is unchanged |
| Store.Database.DeleteInventoryItem | src/lib/inventory-data.ts:71-74 | the inventory loses exactly the entries with the id, the catalog is unchanged, and success is reported |
| Store.Database.FindProductByBarcode | src/lib/inventory-data.ts:76-78 | none exactly when no product has the barcode; otherwise the first product that has it |
| Actions.ItemSchemaErrors | src/app/actions/inventory.ts:15-22 | each field is reported exactly when it breaks its rule, with its own message; no errors exactly when all fields are valid |
| Actions.ProductSchemaErrors | src/app/actions/inventory.ts:24-27 | name and barcode are each reported exactly when empty; no errors exactly when both are present |
| Actions.IsPast | src/app/actions/inventory.ts:54-56 | an expiry that counts as past is before now, and an expiry on today's calendar day never counts as past |
| Actions.PastMeansEarlierDay | src/app/actions/inventory.ts:54-56 | an expiry is rejected as past exactly when its calendar day is before today |
| Actions.AddedBatchShape | src/app/actions/inventory.ts:65-69 | the add loop creates one entry per unit of quantity, each with the validated fields and its own id and batch, the last one first |
| Actions.GetInventory | src/app/actions/inventory.ts:29-36 | the store's entries, sorted by expiry, with entries of equal expiry in store order |
| Actions.AddItem | src/app/actions/inventory.ts:38-77 | invalid fields, or a past expiry, fail with their errors and leave the store unchanged; otherwise `quantity` entries are added and the message counts them |
| Actions.DeleteItem | src/app/actions/inventory.ts:79-90 | an empty id fails and changes nothing; any other id removes exactly its entries |
| Actions.FindProductByBarcode | src/app/actions/inventory.ts:92-103 | found exactly when the catalog has the barcode, returning the first catalog product with it; otherwise "Product not found." |
| Actions.AddNewProduct | src/app/actions/inventory.ts:105-126 | succeeds exactly when name and barcode are present; the product is then returned as validated; otherwise it fails with the schema errors |
| Actions.AddNewProductAsWritten | src/app/actions/inventory.ts:11 | as written, no product is ever created: invalid input fails with the schema errors, valid input fails with the error of the missing store call |
| Actions.MissingStoreAddDiffers | src/app/actions/inventory.ts:120 | for every valid product the intended action succeeds and the written one fails |
| Table.Barcodes | src/components/sheet-sync/inventory-table.tsx:149-153 | the grouping keys are distinct |
| Table.BarcodesListed | src/components/sheet-sync/inventory-table.tsx:149-153 | a barcode is a key exactly when some entry has it, and exactly when its bucket is non-empty |
| Table.MinExpiry | src/components/sheet-sync/inventory-table.tsx:156 | the soonest expiry is one of the group's expiries and is at most each of them |
| Table.CollectedBuckets | src/components/sheet-sync/inventory-table.tsx:149-153 | the reduce's accumulator maps each barcode of the input to its bucket, and nothing else |
| Table.ReduceByBarcode | src/components/sheet-sync/inventory-table.tsx:149-153 | the reduce crashes exactly when some barcode is a property of `Object.prototype`; otherwise it yields each barcode's bucket and the keys in first-seen order (see Left out for the order `Object.values` uses) |
| Table.BuildGroups | src/components/sheet-sync/inventory-table.tsx:155-164 | from the accumulator it builds one group per key, in key order |
| Table.GroupItems | src/components/sheet-sync/inventory-table.tsx:140-166 | off the client it yields no groups; on the client it fails exactly when a barcode hits `Object.prototype`, and otherwise yields the grouped view |
| Table.PrototypeBarcodeCrashes | src/components/sheet-sync/inventory-table.tsx:149-153 | an entry with barcode "constructor" crashes the written grouping, though the intended view has one group for it |
| Table.MakeGroup | src/components/sheet-sync/inventory-table.tsx:156-164 | a group's items are a permutation of its entries sorted by expiry, its count is their number, and its status is that of its soonest expiry |
| Table.GroupedView | src/components/sheet-sync/inventory-table.tsx:140-166 | the intended view: one group per distinct barcode, ordered by soonest expiry |
| Table.SoonestLeads | src/components/sheet-sync/inventory-table.tsx:156-161 | a group's first sorted item has the soonest expiry |
| Table.MakeGroupSummarises | src/components/sheet-sync/inventory-table.tsx:155-164 | a group holds a permutation of its bucket, sorted by expiry; its count is its length; its soonest expiry is at most each item's; its status is that of the soonest expiry; its name is that of the bucket's first entry |
| Table.GroupedViewGroups | src/components/sheet-sync/inventory-table.tsx:155-164 | every group of the view summarises the bucket of its barcode |
| Table.GroupedViewOrdered | src/components/sheet-sync/inventory-table.tsx:165 | the groups are ordered by soonest expiry |
| Table.GroupedViewDistinct | src/components/sheet-sync/inventory-table.tsx:149-159 | no two groups share a barcode |
| Table.GroupedViewPartition | src/components/sheet-sync/inventory-table.tsx:149-160 | the groups' items together are exactly the entries with their statuses, and the counts add up to the number of entries |
| Table.SearchGroups | src/components/sheet-sync/inventory-table.tsx:168-170 | a group is kept exactly when its lower-cased name includes the lower-cased term; as a filter it keeps the view order |
| Table.SearchEmptyTerm | src/components/sheet-sync/inventory-table.tsx:168-170 | an empty search term keeps every group |
| Table.ToggleCollapsible | src/components/sheet-sync/inventory-table.tsx:172-174 | toggling flips that barcode's open state and leaves every other barcode's state unchanged |
| Table.ToggleTwice | src/components/sheet-sync/inventory-table.tsx:172-174 | toggling a barcode twice leaves every open state as it was |
| Dashboard.GetStats | src/components/sheet-sync/inventory-dashboard.tsx:46-54 | off the client both counters are zero; the counters never add up to more than the number of entries |
| Dashboard.CountsBounded | src/components/sheet-sync/inventory-dashboard.tsx:51-52 | expiring plus expired is the number of entries that are not fresh |
| Dashboard.StatsCountDays | src/components/sheet-sync/inventory-dashboard.tsx:46-54 | on the client the counters are the numbers of entries expiring within seven days and expired before today, and with the fresh entries they account for all entries |
| Dashboard.AttentionCandidates | src/components/sheet-sync/inventory-dashboard.tsx:59-62 | the candidates are not fresh, sorted by days, and no more than the entries |
| Dashboard.NeedsAttention | src/components/sheet-sync/inventory-dashboard.tsx:56-64 | at most five entries; none off the client; on the client the front of the non-fresh entries sorted by days |
| Dashboard.CandidateMembership | src/components/sheet-sync/inventory-dashboard.tsx:59-62 | an entry is a candidate exactly when its expiry day is at most seven days ahead |
| Dashboard.NeedsAttentionEntries | src/components/sheet-sync/inventory-dashboard.tsx:59-61 | every listed entry is a store entry that is not fresh, with the status of its own expiry |
| Dashboard.NeedsAttentionTopFive | src/components/sheet-sync/inventory-dashboard.tsx:62-63 | the list is most urgent first; it holds all candidates when there are at most five, and five otherwise; no candidate left out is more urgent than one listed |
| Dashboard.ShowViewAll | src/components/sheet-sync/inventory-dashboard.tsx:119 | when the "View All" link is hidden, the list already holds every candidate |
| Notifications.ExpiringItems | src/components/sheet-sync/notifications-popover.tsx:28-35 | none off the client; on the client the feed is sorted by days |
| Notifications.FeedMembership | src/components/sheet-sync/notifications-popover.tsx:31-34 | an entry is in the feed exactly when its expiry day is at most seven days ahead |
| Notifications.FeedContents | src/components/sheet-sync/notifications-popover.tsx:30-34 | the feed is a permutation of the alerting entries, each is a store entry at most seven days from expiry, and entries with equal days keep store order |
| Notifications.FeedMatchesDashboard | src/components/sheet-sync/notifications-popover.tsx:28-46 | the dashboard's needs-attention list is the first five of the feed, and the badge number is the sum of the dashboard counters |
| Notifications.ShowBadge | src/components/sheet-sync/notifications-popover.tsx:37 | the badge shows only on the client and never with the number 0 |
| Notifications.BadgeCount | src/components/sheet-sync/notifications-popover.tsx:46 | the badge number is zero exactly when the feed is empty |
| Notifications.BadgeShown | src/components/sheet-sync/notifications-popover.tsx:37 | the badge shows exactly on the client when some entry expires within seven days or has expired |
| Sheets.SheetRowToInventoryItem | src/lib/google-sheets.ts:24-33 | a row is skipped exactly when its first cell is missing or empty; otherwise the item's id is that first cell |
| Sheets.InventoryRow | src/lib/google-sheets.ts:105-111 | the written row has five cells, and its first cell is truthy exactly when the id is non-empty |
| Sheets.StoredRow | src/lib/google-sheets.ts:43 | a read returns a prefix of the written row that drops exactly the trailing empty cells |
| Sheets.InventoryRoundTrip | src/lib/google-sheets.ts:105-111 | a written inventory row with a non-empty id reads back as an item with the entry's id and name, its barcode (missing when it was empty, since it was the trailing cell) and both dates as midnights of the same days; a row with an empty id is skipped |
| Sheets.ParseRows | src/lib/google-sheets.ts:45 | reading rows gives at most one item per row |
| Sheets.GetInventoryFromSheet | src/lib/google-sheets.ts:43-47 | when the API returns no rows the inventory is empty |
| Sheets.ParseRowsConcat | src/lib/google-sheets.ts:45 | reading a concatenation of rows reads each part |
| Sheets.ParseRowsExact | src/lib/google-sheets.ts:45 | every row with a truthy first cell gives an item of the inventory, and every item comes from such a row |
| Sheets.InventoryRowsRoundTrip | src/lib/google-sheets.ts:43-47 | entries with non-empty ids, written row by row, read back one item per entry in the same order, each describing its entry |
| Sheets.ProductsOf | src/lib/google-sheets.ts:63-66 | every product read has a truthy barcode and name and comes from a row, and every row with both read as a product |
| Sheets.ProductsOfConcat | src/lib/google-sheets.ts:63-66 | reading a concatenation of product rows reads each part, keeping their order and number |
| Sheets.ProductsOfRow | src/lib/google-sheets.ts:63-66 | a single row gives its product when both cells are truthy, and nothing otherwise |
| Sheets.GetBarcodesFromSheet | src/lib/google-sheets.ts:61-68 | when the API returns no rows the catalog is empty |
| Sheets.ProductRow | src/lib/google-sheets.ts:76-79 | the written product row reads as a complete product exactly when barcode and name are both non-empty |
| Sheets.ProductRoundTrip | src/lib/google-sheets.ts:76-79 | a product row written for a product with both fields reads back as that product; with an empty field it is dropped |
| Sheets.FirstRowWithId | src/lib/google-sheets.ts:150 | the index of the first row whose first cell is the id, or none when no row has it |
| Sheets.DeleteRequestFor | src/lib/google-sheets.ts:133-165 | a request is made exactly when the sheet is found, its rows are read and some row holds the id; it deletes the single first such row; every failure message carries the delete's error prefix |
| Sheets.LocateRowToDelete | src/lib/google-sheets.ts:130-177 | a missing sheet, unread rows or an unknown id fail with their prefixed messages; otherwise the request deletes exactly the first row holding the id |
| Sheets.DeleteTargetsReadItem | src/lib/google-sheets.ts:140-165 | the deleted row lies below the header, and the inventory read sees that row as an entry with the id |

## Left out

- React state, effects and rendering are not modelled. `useMemo` recomputation and hydration are reduced to the `isClient` parameter.
- The clock, `crypto.randomUUID()` and `Math.random()` are parameters, not effects: the current instant, the ids, and the random batch draws below 900.
- Expiry.GetExpiryStatus: the source function takes one argument and reads `new Date()` itself, ignoring the second argument its callers pass. The model takes that reading as `now`, one per caller, so it does not capture the clock moving between the entries of one list.
- Actions.AddItem: every entry of a batch gets the same `now` as its added date, whereas `addInventoryItem` reads the clock once per entry.
- Time zones and daylight saving are not modelled: a day is always 86 400 000 ms of local time, which `setHours(0, 0, 0, 0)` and `differenceInDays` agree on only away from clock changes.
- Expiry.GetExpiryStatus: the expired and fresh labels come from `date-fns` (`formatDistanceToNow`, `format(…, 'MMM d, yyyy')`). They are kept as the expiry's midnight, not rendered as text.
- The "Expires today" and "Expires tomorrow" labels are not modelled, because the code writes "Expires in N day(s)" for every expiring day.
- Text.Lower: only ASCII letters are lower-cased. JavaScript's full Unicode `toLowerCase` is not modelled.
- Actions.AddItem: the form fields arrive already typed. zod's coercion of text to numbers and dates, and fractional quantities, are not modelled.
- The `try`/`catch` paths of the actions are not modelled: a store that throws midway through the add loop, and the results of the catch blocks, which return the thrown error's message or else "Database Error: Failed to add item." (src/app/actions/inventory.ts:74), "Database Error: Failed to delete item." (87), "An error occurred." (100) or "Database Error: Failed to create product." (123). The store never throws in the model. The validation failure "Failed to add item." is modelled; the one exception is `deleteItem`'s "ID is required", which the source throws and catches and the model returns directly.
- `revalidatePath` is not modelled: cache invalidation has no effect on the data.
- Store.Database.constructor: the seed entries have no `barcode` field (it is `undefined`, and the grouping keys them under "undefined"). The model gives them the empty barcode. The grouping then differs from the source in two cases. An entry whose barcode is "" joins the seed group in the model but not in the source. An entry whose barcode is the text "undefined" joins the seed group in the source but not in the model.
- The action `addNewProduct` does not update the catalog in the model, because the store module does not define the function it calls (see Findings).
- Sheets: the Google Sheets API, authentication, and the `USER_ENTERED` reinterpretation of cell text are not modelled. A date cell is a calendar day (`DateText`), and other text cells are opaque (`new Date` of arbitrary text is not modelled). The locale used to format values is left out.
- Sheets.InventoryRoundTrip: the batch label is not part of the sheet row, and the read-back item (`SheetItem`) has no batch field. The round trip is stated without it.
- Sheets: the rejections of `addProductToSheet`, `addInventoryItemToSheet` and `getInventoryFromSheet` ("Could not connect…", "Could not add…") are I/O failures and are left out.
- Table.ReduceByBarcode: `order`, the key order the grouping goes on with, is first-seen. `Object.values` (inventory-table.tsx:155) instead lists integer-like keys (canonical decimal numbers up to 4294967294, such as an EAN-8 "96385074") first, in ascending numeric order, and then the others in first-seen order.
- Table.BuildGroups: it builds the groups in the order `ReduceByBarcode` gives, so for integer-like barcodes its output order is not the one `Object.values` gives.
- Table.GroupItems: the two orders above give the same set of groups. After the stable sort by soonest expiry, they differ only in the tie order among groups with equal soonest expiry.
- Table.GroupItems: sorting each group in place (`group.sort`) mutates the bucket arrays. This is modelled on values with a stable sort.
- Table.ToggleCollapsible: a barcode that names an `Object.prototype` member would read an inherited property. This is not modelled, since such barcodes already crash the grouping the table is built from.
- The dashboard's `[...items]` copy protects the prop from the in-place sort. On values it has no effect and is not modelled.
- The store's `globalThis` caching across hot reloads is not modelled.
- The grouped table counts entries (`group.length`), with one entry per unit. There is no separate quantity per entry.
- The spreadsheet row has five columns (id, name, expiry, added, barcode) and no batch column.

## Findings

| source | as written | input that shows it | evidently intended | confidence | as-written member | corrected member |
|---|---|---|---|---|---|---|
| src/components/sheet-sync/inventory-table.tsx:149-153 | the accumulator is a plain `{}`, so `acc[barcode]` reads an inherited `Object.prototype` member for barcodes such as "constructor", "toString" or "__proto__", and `.push` on it throws | one entry with barcode "constructor" | every barcode forms its own group, as a `Map` or `Object.create(null)` would give | not executed | Table.PrototypeBarcodeCrashes | Table.GroupedView |
| src/app/actions/inventory.ts:11 | `addNewProduct` is imported from the store module and called at line 120, but the module does not define it, so every valid product fails in the catch | name "Milk", barcode "123" | a validated product is added to the catalog and returned | not executed | Actions.MissingStoreAddDiffers | Actions.AddNewProduct |
