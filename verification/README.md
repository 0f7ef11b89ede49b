# Inventory front end: verified model of its client-side logic

This project models, in Dafny, the pure client logic of a React front end for a
small inventory and sales system. The model covers:

- the purchase cart (`usePurchase`);
- the sales-page cart (`Sales.jsx`);
- the report exporter (`Reports.jsx`);
- the customer and item form checks and the local list patches (`useCustomers`,
  `Customers.jsx`, `useItems`, `Items.jsx`);
- sign-in outcome handling (`useAuth`);
- the session slice of the Redux store (`userSlice`).

Every handler is a pure function from the state it touches (and, where it calls
the server, the outcome of that call) to the new state. A call's outcome is an
`Http.HttpOutcome`: `Reply(status, body)` when the promise resolved,
`HttpError(status, message)` when it rejected with a response, and `NoResponse`
when it rejected without one. Money is an integer number of minor units.

Modules, one per source file or shared concept:

| module | file | models |
|---|---|---|
| `Wrappers` | wrappers.dfy | `Option`, standing in for `null` |
| `Http` | http.dfy | the outcome of a request; JavaScript `a \|\| b` on strings |
| `Lists` | lists.dfy | `filter`, selective `map`, indexed `flatMap` and a `reduce` sum over arrays |
| `Text` | text.dfy | `String.prototype.trim` (as a blank test) and `/^\d{10}$/` |
| `Session` | session.dfy | `src/Redux/userSlice.jsx` |
| `Auth` | auth.dfy | `src/Hooks/useAuth.jsx` |
| `Purchase` | purchase.dfy | `src/Hooks/usePurchase.jsx` |
| `SalesCart` | salescart.dfy | `src/Pages/Sales.jsx` |
| `Reports` | reports.dfy | `src/Pages/Reports.jsx` |
| `Customers` | customers.dfy | `src/Hooks/useCustomers.jsx`, `src/Pages/Customers.jsx` |
| `ItemList` | itemlist.dfy | `src/Hooks/useItems.jsx`, `src/Pages/Items.jsx` |

Report cells are a datatype: `Blank` is the empty string, and `Amount`/`InrAmount`
are a `toFixed(2)` sum without/with the `"INR "` prefix. Rendering to text takes
the number, money and date formatters as parameters (`Reports.Formats`).

Behaviour of the code worth noting:

- Re-adding an item on the purchase page is rejected (`usePurchase.jsx:37-41`), while the sales page merges
  quantities (`Sales.jsx:58-63`).
- A purchase needs a selected customer (`usePurchase.jsx:80-83`). A sale from the sales page has neither a
  customer check nor an empty-cart check (`Sales.jsx:69-86`).
- A report group with no line items yields no rows, but it still consumes a sequence number, because the
  number is the group's index (`Reports.jsx:50-52`).
- Report data holding a walk-in sale (no customer) or a line whose item was deleted (a null item reference) makes the Reports page throw while rendering its table (`Reports.jsx:291`, `296`, `363`), and the export functions behind its PDF and Excel buttons make the same reads (`Reports.jsx:54`, `55`, `85`, `142`, `143`, `156`); see "## Findings".

## Model

| member | source | states |
|---|---|---|
| Text.TrimStart | src/Hooks/useCustomers.jsx:27 | strips exactly the leading ECMAScript whitespace: the result is a suffix, everything dropped is whitespace, and the result does not start with whitespace |
| Text.TrimEnd | src/Hooks/useCustomers.jsx:27 | strips exactly the trailing whitespace, the mirror image of TrimStart |
| Text.Trim | src/Hooks/useAuth.jsx:15 | the trimmed text neither starts nor ends with whitespace |
| Text.TrimKeepsSlice | src/Hooks/useAuth.jsx:15 | `trim` keeps one contiguous slice of the text, and every character it cuts off on either side is whitespace |
| Text.IsBlank | src/Hooks/useAuth.jsx:15 | a field is blank (every character whitespace) exactly when `!s.trim()` holds; the same test guards the customer and item forms (`useCustomers.jsx:27`, `useItems.jsx:27`) |
| Text.LeadingDigits | src/Hooks/useCustomers.jsx:32 | counts the ASCII digits at the front: all counted characters are digits and the next one is not |
| Text.IsTenDigits | src/Hooks/useCustomers.jsx:32-33 | `/^\d{10}$/` accepts exactly the strings of length 10 made only of ASCII digits |
| Text.MobilePatternExamples | src/Hooks/useCustomers.jsx:32-36 | accepts "9876543210"; rejects "98765", "98765432100", "98765abcde" and a trailing space |
| Http.OrElse | src/Hooks/usePurchase.jsx:105-107 | `a \|\| b` on strings yields `a` when it is non-empty and `b` when it is empty |
| Session.Initial | src/Redux/userSlice.jsx:5-8 | the initial state has no current user and is not authenticated |
| Session.Reduce | src/Redux/userSlice.jsx:10-17 | `setUser(p)` stores `p` and marks the session authenticated; `logOut` yields the initial state from any state |
| Session.LogOutIdempotent | src/Redux/userSlice.jsx:14-17 | signing out twice equals signing out once |
| Session.SetUserThenLogOut | src/Redux/userSlice.jsx:10-17 | `setUser` then `logOut` returns to the initial state from any state |
| Session.RunIsLastAction | src/Redux/userSlice.jsx:9-18 | after any non-empty sequence of actions, the state depends only on the last action |
| Session.TwoStates | src/Redux/userSlice.jsx:4-19 | every reachable state is the anonymous initial state or an authenticated one; it is authenticated exactly when the last action was `setUser` |
| Auth.ErrorMessageFor | src/Hooks/useAuth.jsx:28-35 | 401 maps to "Password is incorrect", 404 to "User not found", and every other status to the generic message, each in both directions |
| Auth.HandleSubmit | src/Hooks/useAuth.jsx:11-42 | a blank field returns 400 with "All fields are required" and makes no request; a resolved call returns its own status and signs in only on 200; an HTTP error returns its status with the status message; no response returns 500 with the network message |
| Auth.SignInOnlyOn200 | src/Hooks/useAuth.jsx:21-25 | the session changes only when the call resolved with 200, and a resolved 200 always leaves an authenticated session with the error cleared |
| Auth.RejectedCodeDeterminesMessage | src/Hooks/useAuth.jsx:26-40 | after a rejected call the session is unchanged, 401 and 404 carry their own messages, and no response gives 500 with the network message |
| Lists.RemoveWhere | src/Hooks/usePurchase.jsx:70-72 | a filter keeps exactly the elements not dropped, never growing the list |
| Lists.RemoveWhereAppend | src/Hooks/usePurchase.jsx:70-72 | filtering distributes over concatenation, so survivors keep their relative order |
| Lists.RemoveWhereUnique | src/Hooks/usePurchase.jsx:70-72 | when only index k is dropped, the filter removes exactly that slot |
| Lists.RemoveWhereNone | src/Pages/Items.jsx:108 | a filter that drops nothing returns the list unchanged |
| Lists.MapWhere | src/Hooks/usePurchase.jsx:63-67 | a selective map keeps the length, rewrites the selected slots and leaves every other slot unchanged |
| Lists.RemoveWhereAfterMapWhere | src/Hooks/useItems.jsx:61-78 | filtering after a selective map that rewrites only filtered-out elements, and keeps them filtered out, equals filtering the original |
| Lists.SumByAppend | src/Hooks/usePurchase.jsx:74-77 | a left-to-right sum over a concatenation is the sum of the two sums |
| Lists.SumBySplit | src/Hooks/usePurchase.jsx:74-77 | an element contributes to the sum exactly once, wherever it sits |
| Lists.SumByReplaceAt | src/Hooks/usePurchase.jsx:74-77 | replacing the element at k changes the sum by the difference of the old and new terms |
| Lists.FlatMapFromAt | src/Pages/Reports.jsx:136-149 | in an indexed `flatMap`, element j of block k sits right after all elements of the earlier blocks, and the block is built with index start + k |
| Purchase.FindCatalogItem | src/Hooks/usePurchase.jsx:43 | `find` returns nothing exactly when no entry has the id, and otherwise the first entry with it |
| Purchase.AddItem | src/Hooks/usePurchase.jsx:34-55 | an empty id, an id already in the cart, or an id missing from the catalog leave the cart unchanged; otherwise exactly one line is appended with quantity 1 and the catalog's name and price, and the earlier lines are untouched |
| Purchase.ChangeQuantity | src/Hooks/usePurchase.jsx:57-68 | q ≤ 0 leaves the cart unchanged; otherwise only lines with the id get quantity q, and length, order and every other field are kept |
| Purchase.RemoveItem | src/Hooks/usePurchase.jsx:70-72 | no remaining line has the id, and every line with another id survives |
| Purchase.RemoveAbsentIsNoOp | src/Hooks/usePurchase.jsx:70-72 | removing an id that no line has leaves any cart unchanged |
| Purchase.RemoveItemExact | src/Hooks/usePurchase.jsx:70-72 | with distinct ids, removal drops exactly the line with the id and keeps the rest in order; an absent id is a no-op |
| Purchase.Total | src/Hooks/usePurchase.jsx:74-77 | an empty cart totals 0, a one-line cart totals that line's price × quantity, and a well-formed cart with no negative price never totals below 0 |
| Purchase.TotalAppend | src/Hooks/usePurchase.jsx:74-77 | the total of a concatenation is the sum of the totals |
| Purchase.ComputeTotal | src/Hooks/usePurchase.jsx:74-77 | the left-to-right `reduce` equals the sum of price × quantity over the lines, and 0 for an empty cart |
| Purchase.TotalAfterAdd | src/Hooks/usePurchase.jsx:45-53 | adding a new catalog item raises the total by that item's price |
| Purchase.TotalAfterChange | src/Hooks/usePurchase.jsx:63-67 | a quantity edit swaps the line's old amount for its new amount in the total |
| Purchase.TotalAfterRemove | src/Hooks/usePurchase.jsx:70-72 | a removal lowers the total by the removed line's amount |
| Purchase.ChangeQuantitySplit | src/Hooks/usePurchase.jsx:63-67 | with distinct ids, a quantity edit rewrites exactly one slot |
| Purchase.ApplyPreservesWellFormed | src/Hooks/usePurchase.jsx:34-72 | every add, quantity edit and removal keeps ids pairwise distinct and quantities at least 1 |
| Purchase.AddKeepsWellFormed | src/Hooks/usePurchase.jsx:34-55 | an add never duplicates an id, and the new line starts at quantity 1 |
| Purchase.RemoveKeepsWellFormed | src/Hooks/usePurchase.jsx:70-72 | a removal keeps ids distinct and quantities positive |
| Purchase.ReachableCartsWellFormed | src/Hooks/usePurchase.jsx:34-72 | any sequence of edits from a well-formed cart yields a cart with distinct ids and positive quantities |
| Purchase.HandlePurchase | src/Hooks/usePurchase.jsx:79-114 | no request without a customer or with an empty cart, each with its own warning; the request carries the customer, the lines and their total; the customer and cart are cleared, with navigation, exactly on success; on failure the state is unchanged and the server's message or the fallback is shown |
| Purchase.HandlePurchaseKeepsWellFormed | src/Hooks/usePurchase.jsx:79-114 | a submission keeps distinct ids and positive quantities; a completed one leaves a cart totalling 0; the amount sent is never negative when no price is |
| SalesCart.AddToCart | src/Pages/Sales.jsx:53-67 | an id already present adds the quantity to that line and adds no line; a new id appends `{item, quantity}` at the end |
| SalesCart.OnQuantityInput | src/Pages/Sales.jsx:188-193 | a parsed value ≤ 0 changes nothing; a positive one is exactly `handleAddToCart` with that amount, and grows the total quantity by exactly that amount |
| SalesCart.AddSplit | src/Pages/Sales.jsx:58-63 | with distinct ids, a merge rewrites exactly the matching line |
| SalesCart.AddTotalQuantity | src/Pages/Sales.jsx:59-65 | on a cart with distinct ids, an add grows the total quantity by exactly the added amount |
| SalesCart.AddPreservesDistinct | src/Pages/Sales.jsx:53-67 | an add keeps item ids pairwise distinct |
| SalesCart.InputsKeepCartWellFormed | src/Pages/Sales.jsx:183-193 | under any sequence of quantity-box events the ids stay distinct and every quantity stays positive |
| SalesCart.HandleSubmit | src/Pages/Sales.jsx:69-86 | the request always carries the customer, cart and payment type; a 201 empties the cart, resets the customer to walk-in ("") and closes the modal; anything else leaves the state unchanged |
| SalesCart.HandleSubmitKeepsCartWellFormed | src/Pages/Sales.jsx:69-86 | submitting keeps ids distinct and quantities positive; after a 201 the cart holds no units |
| Reports.KindName | src/Pages/Reports.jsx:201-202 | the `reportType` values are "sales" and "customerLedger", the text the file names start with |
| Reports.Headers | src/Pages/Reports.jsx:112-132 | the sales header has 8 columns with Customer third; the ledger header has 7 and no Customer column |
| Reports.LedgerHeadersDropCustomer | src/Pages/Reports.jsx:112-132 | the ledger header is the sales header without its Customer column |
| Reports.BuildRow | src/Pages/Reports.jsx:136-148 | every row has exactly as many cells as its header |
| Reports.BuildRowColumns | src/Pages/Reports.jsx:50-61 | under each header sits what it names: the sequence number, date, customer and group total only on the group's first row and "" below it; item name ("Unknown Item" for a null item reference), quantity, price and subtotal = quantity × price on every row |
| Reports.LedgerRowDropsCustomer | src/Pages/Reports.jsx:81-90 | a ledger row is the sales row for the same line with the Customer cell removed |
| Reports.GroupRows | src/Pages/Reports.jsx:137 | a group yields one row per line item, in order |
| Reports.RowsFrom | src/Pages/Reports.jsx:136-149 | the row count is the sum of the groups' item counts |
| Reports.RowsFromWidth | src/Pages/Reports.jsx:136-149 | every flattened row has exactly as many cells as the header |
| Reports.RowsFromIsFlatMap | src/Pages/Reports.jsx:136-149 | the flattened report is the indexed `flatMap` of the per-group row builder |
| Reports.RowsFromGroupAt | src/Pages/Reports.jsx:136-149 | group gi's rows sit in order from row RowOffset(gi), built with sequence index start + gi |
| Reports.ReportRows | src/Pages/Reports.jsx:50-61 | the row count is the sum of the groups' item counts for every input, walk-in sales included, and every row has the header's width |
| Reports.RowsFromAt | src/Pages/Reports.jsx:136-149 | line j of group gi is row RowOffset(gi) + j, built with sequence number start + gi + 1 |
| Reports.ReportLayout | src/Pages/Reports.jsx:50-61 | groups and items keep input order; the first cell is gi + 1 on a group's first row and "" otherwise, so numbers count groups, not rows; date and total cells appear only on first rows |
| Reports.WithCurrency | src/Pages/Reports.jsx:57-59 | adding the currency prefix never turns an empty cell into a non-empty one or back |
| Reports.PdfRowsAreExcelRowsWithCurrency | src/Pages/Reports.jsx:50-61 | PDF and Excel rows have the same count and are equal cell for cell, except that Excel money cells become "INR"-prefixed PDF cells |
| Reports.Render | src/Pages/Reports.jsx:57-59 | an empty cell renders as "" and a PDF money cell as "INR " followed by the two-decimal amount |
| Reports.RenderWithCurrency | src/Pages/Reports.jsx:145-147 | rendered, a PDF money cell is its Excel twin with "INR " in front, and every other cell renders the same in both |
| Reports.ExcelSheet | src/Pages/Reports.jsx:164 | the sheet is the header row followed by all data rows, and every row has the header's width |
| Reports.PdfTitle | src/Pages/Reports.jsx:43-46 | the sales PDF is titled "Sales Report"; the ledger's title is "Customer Ledger - " followed by exactly the selected customer |
| Reports.PdfExport | src/Pages/Reports.jsx:41-109 | the document carries the kind's title, the kind's header as its head, and the PDF data rows as its body, each as wide as the head |
| Reports.PdfBodyIsExcelSheetWithCurrency | src/Pages/Reports.jsx:41-168 | the PDF table and the Excel sheet hold the same data: the sheet's first row is the PDF head, and each PDF body row is the matching sheet row with "INR " on its money cells |
| Reports.FileName | src/Pages/Reports.jsx:108 | the name is the report type, then `-report`, then `.pdf` or `.xlsx` |
| Reports.FileNamesDistinct | src/Pages/Reports.jsx:167 | the four exports are saved under four different names |
| Reports.GenerateDisabled | src/Pages/Reports.jsx:244-247 | Generate is enabled exactly for a sales report with both dates set, or a ledger with a customer selected |
| Reports.RowsFromAsWritten | src/Pages/Reports.jsx:136-149 | the export's `flatMap` with its null reads: when it does not throw, it yields one row per line item |
| Reports.AsWrittenFailsOnlyOnNullReads | src/Pages/Reports.jsx:50-61 | the export as written succeeds exactly when every line's item reference is non-null and, in a sales report, every non-empty sale has a customer; it then yields the model's rows |
| Reports.WalkInSaleBreaksExport | src/Pages/Reports.jsx:142 | a sales report with one walk-in sale fails as written, while the model exports one row labelled "Walk-in Customer" |
| Reports.DeletedItemBreaksExport | src/Pages/Reports.jsx:85 | a report whose one line refers to a deleted item fails as written for either kind, while the model exports one row whose item cell is "Unknown Item" |
| Customers.ValidateCustomer | src/Pages/Customers.jsx:55-64 | (the hook repeats the check at src/Hooks/useCustomers.jsx:27-36) a blank trimmed name or address, or an empty mobile number, is a missing field; otherwise a number that is not ten digits is bad; otherwise the form is valid |
| Customers.RequiredFieldsFirst | src/Pages/Customers.jsx:55-64 | a blank name is reported as a missing field even when the number is malformed too |
| Customers.MobileNumberExamples | src/Pages/Customers.jsx:60-64 | with the text fields filled, "98765", "98765432100" and "98765abcde" are rejected as bad numbers and "9876543210" is accepted |
| Customers.AddCustomer | src/Hooks/useCustomers.jsx:24-46 | an invalid form returns false with no request and no list change; a resolved call appends the returned customer at the end and returns true; a failed call keeps the list and returns false |
| Customers.HandleSave | src/Pages/Customers.jsx:53-81 | an invalid form changes nothing and makes no request; a valid one always closes the modal and appends the new customer only on a 201 |
| Customers.JsSlice | src/Pages/Customers.jsx:44-47 | `slice` never returns more elements than the array holds |
| Customers.CurrentCustomers | src/Pages/Customers.jsx:42-47 | page p ≥ 1 shows exactly the slice [(p-1)×10, p×10) clamped to the list, and no page holds more than 10 customers |
| Customers.PageCount | src/Pages/Customers.jsx:142 | the page count is ceil(n / 10): enough pages for n customers and no more |
| Customers.FirstPagesArePrefix | src/Pages/Customers.jsx:42-47 | pages 1..k concatenated are the first min(10k, n) customers |
| Customers.PagesCoverList | src/Pages/Customers.jsx:140-144 | pages 1..PageCount(n) concatenated are the whole list, and every later page is empty |
| Customers.AppendKeepsFullPages | src/Pages/Customers.jsx:72-75 | appending a customer leaves every full page before it unchanged |
| ItemList.CheckSigns | src/Hooks/useItems.jsx:32-35 | the form is rejected as negative exactly when its price or quantity is below zero |
| ItemList.ValidateAdd | src/Hooks/useItems.jsx:27-35 | a blank trimmed name or description, or an empty number box, is a missing field; otherwise a negative number is rejected; otherwise valid |
| ItemList.ValidateUpdate | src/Hooks/useItems.jsx:50-58 | the same checks with untrimmed text fields |
| ItemList.UpdateCheckIsWeaker | src/Hooks/useItems.jsx:27-50 | whatever add accepts, update accepts; a whitespace-only name passes update and fails add |
| ItemList.MergeForm | src/Hooks/useItems.jsx:63 | merging form fields into an item keeps its id |
| ItemList.UpdateWhereId | src/Hooks/useItems.jsx:61-65 | exactly the elements with the id are merged; length and order are kept |
| ItemList.RemoveId | src/Hooks/useItems.jsx:78 | no survivor has the id, and every element with another id survives |
| ItemList.RemoveIdKeepsOrder | src/Pages/Items.jsx:108 | deletion distributes over concatenation, so survivors keep their order, and deleting an absent id changes nothing |
| ItemList.DeleteAfterUpdate | src/Hooks/useItems.jsx:60-78 | deleting an id after updating it equals deleting it directly, so an update touches only elements with that id |
| ItemList.AddItem | src/Hooks/useItems.jsx:24-45 | an invalid form returns false with no request and no change; a resolved call appends the returned item at the end; a failed call keeps the list |
| ItemList.AddThenDelete | src/Hooks/useItems.jsx:24-45 | deleting the new item's id after a successful add restores the list when no item had that id; deleting any other id keeps the new item, last |
| ItemList.UpdateItem | src/Hooks/useItems.jsx:47-72 | an invalid form returns false with no request; a resolved call merges the form into every element with the id and only those, keeping length and order; a failed call keeps the list |
| ItemList.DeleteItem | src/Hooks/useItems.jsx:74-85 | a resolved call removes every element with the id; a failed call keeps the list and returns false |
| ItemList.MergeEdit | src/Pages/Items.jsx:90 | spreading the full edited copy over an item yields the edited copy |
| ItemList.HandleUpdate | src/Pages/Items.jsx:76-99 | on a 200, only elements whose id matches are replaced by the edit, length and order are kept, and the edit modal closes; otherwise nothing changes |
| ItemList.HandleUpdateAgreesWithHook | src/Pages/Items.jsx:76-99 | on a 200 with a valid edit, the page's patch is the list `updateItem` builds from the edited fields; deleting the edited id afterwards equals deleting it at once |
| ItemList.HandleDelete | src/Pages/Items.jsx:101-115 | on a 200, exactly the elements with the id are removed in order; on any outcome the confirmation state is reset |

## Left out

- HTTP transport (`src/services/*.jsx`, `axiosInstance.jsx`), including the 401 redirect: each request's result is a parameter (`Http.HttpOutcome`).
- Rendering, modals, toasts, `alert` and `console` output: toasts appear only as outcome tags where they decide behaviour (`Purchase.PurchaseNotice`).
- The `loading` flags and the initial fetches (`fetchData`, `fetchCustomers`, `fetchItems`, `fetchSales`, `fetchReport`): they only copy server data into state.
- Concurrency and effect scheduling: `Promise.all`, stale closures (`deleteItem` filters `items`, not the latest list), and the `[items]`-triggered refetch loop in `Items.jsx`.
- Floating point and locale formatting: money is integer minor units, and `toFixed(2)`, number-to-text and `toLocaleDateString("in")` are parameters of `Reports.Render`.
- `parseInt`/`parseFloat` edge cases: quantities and prices are integers, so a `NaN` from an empty quantity box is not represented.
- ItemList.ValidateAdd: a number box is modelled as empty or an entered integer, so its falsiness test is "is empty"; this assumes the values arrive as text-box strings, where "0" counts as filled.
- ItemList.ValidateUpdate: makes the same text-box assumption for `!quantity || !price` (`useItems.jsx:50`). If the fields arrive as numbers, as an item fetched from the server holds them, a numeric `0` is falsy and the source answers "All fields are required.", while the model accepts `Entered(0)`.
- ItemList.UpdateItem: inherits that assumption from `ItemList.ValidateUpdate`, so a numeric `0` quantity or price is sent as an update where the source would refuse it.
- `Items.jsx` `handleSave` (create without validation) and the Purchase and Sales list views are not modelled: they only post data or render it.
- The on-screen report tables (`src/Pages/Reports.jsx` from line 255) are not modelled as tables. They make the same `customer.name` and `item.item.name` reads as the export functions (lines 291, 296 and 363), and those reads throw during render first: the PDF and Excel buttons (lines 174-191) belong to the same render. Nothing in the front end catches a render error. The model's as-written members describe the export functions themselves.
- Purchase.HandlePurchase: the navigation to `/sales` is a boolean flag, not a route change.
- Customers.HandleSave: the form contents are not reset after saving, which the model keeps as is.

## Findings

| source | as written | input that shows it | evidently intended | confidence | as-written member | corrected member |
|---|---|---|---|---|---|---|
| src/Pages/Reports.jsx:54 | the sales PDF export reads `sale.customer.name` on each sale's first row (the Excel export at line 142), which throws for a walk-in sale whose `customer` is null, so the export function fails as a whole; the page's own table makes the same read while rendering (line 291), so with such data the Reports page throws before its export buttons can be used | a sales report containing one walk-in sale with one line item | export the sale like the sales list does, labelling its customer "Walk-in Customer" (src/Pages/Sales.jsx:125) | medium, not executed | Reports.WalkInSaleBreaksExport | Reports.ReportRows |
| src/Pages/Reports.jsx:55 | every export row reads `item.item.name` (also lines 85, 143 and 156), which throws when a line's item reference is null, as for an item deleted after the sale, so the export function fails as a whole; the page's tables make the same read while rendering (lines 296 and 363), so with such data the Reports page throws before its export buttons can be used | a customer ledger whose one entry has one line with a null item | export the line like the sales list does, labelling it "Unknown Item" (src/Pages/Sales.jsx:131) | low, not executed | Reports.DeletedItemBreaksExport | Reports.ReportRows |
