# InventoryAppR product store and client rules, in Dafny

InventoryAppR is an Android inventory app. A content provider, `ProductProvider`, sits in front of one SQLite table of products. The table is created by `ProductDbHelper` and has an auto-increment `_id` plus five NOT NULL columns: name, price, quantity, supplier name and supplier phone. Four screens talk to the provider:

- the add form inserts a product;
- the edit form sends the columns that changed;
- the details screen moves a quantity counter and writes it back, or deletes the product;
- the list's sell button takes one item off a row's quantity; the list's debug action seeds nine dummy products, and its menu deletes every product.

This project models that core and proves what it promises:

- **Store.** The table is a map from `_id` to a row, plus the AUTOINCREMENT sequence.
- **Provider.** A class whose `insert`, `update` and `delete` change the table and append to a log of change notifications. Its URI matching and sanity checks are pure functions. Exceptions are an `Outcome` value: `Returns` or `Throws`.
- **Screens.** The add, edit and details screens and a list row are classes holding the fields they update (the unsaved-changes flag, the attached text watchers, the quantity tracker, the loaded product, the shown quantity). The product list keeps no state of its own, so its row click is a function giving the item URI, and its seed and delete actions are module-level methods on the provider. The save, sell, seed and delete actions are methods proved against the provider's specification functions `UpdateResult` and `DeleteResult` and the table functions of `DbHelper`.
- **Java arithmetic.** `int` is `Int32` (−2^31 .. 2^31−1). Where the source can overflow, the wrap-around is written out: the sell button's `quantityInt - 1`, and the `getInt` that cuts a row's 64-bit `_id` to the `int` tag of its sell button. `length()` counts UTF-16 units, as Java does.

Modules: `Java` (`int`, `String.valueOf`, `Integer.parseInt`, `String.trim`), `Contract` (constants, URIs, `ContentValues`), `DbHelper` (schema and table operations), `Provider`, `ProductForm` (the checks the add and edit forms share), `QuantityColor`, `AddProduct`, `EditProduct`, `ProductDetails`, `CursorAdapter` and `ProductList`.

## Model

| member | source | states |
|---|---|---|
| Provider.Classify | app/src/main/java/com/example/android/inventoryappr/data/ProductProvider.java:42-49 | the URI matches PRODUCTS exactly when it is CONTENT_URI; it matches PRODUCT_ID exactly when it has the provider's authority and the path "products/<digits>" with a non-empty all-digit second segment (leading zeros included), and the id is that segment's decimal value; every other URI matches nothing |
| Provider.ClassifyAppendedId | app/src/main/java/com/example/android/inventoryappr/data/ProductProvider.java:48-49 | `withAppendedId(CONTENT_URI, id)` matches PRODUCT_ID with that same id for every id >= 0, and matches nothing for a negative id |
| Provider.GetType | app/src/main/java/com/example/android/inventoryappr/data/ProductProvider.java:106-116 | the list MIME type exactly for the collection URI, the item type exactly for an item URI, IllegalStateException exactly for an unmatched URI |
| Provider.Target | app/src/main/java/com/example/android/inventoryappr/data/ProductProvider.java:75-93 | the selection an operation runs with: the caller's on the collection, `_id = id` on an item; throws exactly for an unmatched URI (IllegalArgumentException) or an id beyond a long (NumberFormatException from parseId) |
| Provider.CollectionKeepsSelection | app/src/main/java/com/example/android/inventoryappr/data/ProductProvider.java:77-82 | on the collection URI the caller's selection reaches the same rows it would reach on its own |
| Provider.ItemIgnoresSelection | app/src/main/java/com/example/android/inventoryappr/data/ProductProvider.java:83-89 | on an item URI any two caller selections reach the same rows, at most the one row with the URI's id, so update and delete count at most 1 |
| Provider.UnknownUriRefused | app/src/main/java/com/example/android/inventoryappr/data/ProductProvider.java:90-93 | an unmatched URI makes getType throw IllegalStateException and every operation throw IllegalArgumentException naming that operation |
| Provider.InsertCheck | app/src/main/java/com/example/android/inventoryappr/data/ProductProvider.java:138-163 | insert checks in order (name, price, quantity, supplier name, "phone"), first failure wins: the failing check's column is not OK, all earlier ones are, and None means every check passed; only null is refused |
| Provider.InsertCheckIgnoresPhone | app/src/main/java/com/example/android/inventoryappr/data/ProductProvider.java:159-163 | the phone check reads supplier_name, so it never fails and the phone value has no effect on the checks |
| Provider.CheckedInsertNeedsPhone | app/src/main/java/com/example/android/inventoryappr/data/ProductProvider.java:159-175 | values that pass the checks satisfy NOT NULL exactly when a non-null phone is present; otherwise the database refuses the row |
| Provider.UpdateCheck | app/src/main/java/com/example/android/inventoryappr/data/ProductProvider.java:238-275 | update checks only the columns present, each on its own column, in the same order: None iff every present column is OK; a failure names a present, failing column with all earlier present columns OK |
| Provider.InsertKeepsInvariant | app/src/main/java/com/example/android/inventoryappr/data/ProductProvider.java:137-180 | a checked insert keeps the table valid, with every price and quantity a non-negative integer |
| Provider.UpdateKeepsInvariant | app/src/main/java/com/example/android/inventoryappr/data/ProductProvider.java:238-280 | checked update values hold no null and keep every row valid with non-negative price and quantity |
| Provider.ItemCountsZeroOrOne | app/src/main/java/com/example/android/inventoryappr/data/ProductProvider.java:197-201 | update and delete on an item URI count 1 when that row exists and 0 otherwise, whatever selection the caller passed |
| Provider.ProductProvider.constructor | app/src/main/java/com/example/android/inventoryappr/data/ProductProvider.java:56-59 | on first run, when `onCreate` has to create the database, the provider starts on the empty, valid table with no notifications (opening an existing database is the state the other members take as given) |
| Provider.ProductProvider.Query | app/src/main/java/com/example/android/inventoryappr/data/ProductProvider.java:67-98 | query throws exactly as Target does; on the collection it returns the rows the selection picks, on an item exactly that row or nothing |
| Provider.ProductProvider.Insert | app/src/main/java/com/example/android/inventoryappr/data/ProductProvider.java:123-131 | insert on any URI but the collection throws and changes nothing; on the collection it does what insertProduct does |
| Provider.ProductProvider.InsertProduct | app/src/main/java/com/example/android/inventoryappr/data/ProductProvider.java:137-181 | a failed check throws for that column and changes nothing; a database refusal returns null and changes nothing; otherwise the row is stored under the next id, the collection is notified, and the URI with the new id is returned |
| Provider.ProductProvider.Delete | app/src/main/java/com/example/android/inventoryappr/data/ProductProvider.java:187-213 | delete returns the count and leaves the table DeleteResult gives, notifying the URI exactly when the count is positive; when it throws, nothing changes |
| Provider.ProductProvider.Update | app/src/main/java/com/example/android/inventoryappr/data/ProductProvider.java:219-232 | update returns the count and leaves the table UpdateResult gives, notifying the URI exactly when the count is not zero; when it throws, nothing changes |
| Provider.ProductProvider.UpdateProduct | app/src/main/java/com/example/android/inventoryappr/data/ProductProvider.java:238-290 | a failing present column throws; values with no column throw (SQLiteDatabase.update); otherwise the selected rows are rewritten column by column, the count returned, and the URI notified exactly when the count is not zero |
| DbHelper.OnUpgrade | app/src/main/java/com/example/android/inventoryappr/data/ProductDbHelper.java:45-47 | upgrading from version 1 keeps every row and the sequence |
| DbHelper.RowOf | app/src/main/java/com/example/android/inventoryappr/data/ProductDbHelper.java:30-36 | a row built from all five values holds exactly those values and no null |
| DbHelper.InsertRow | app/src/main/java/com/example/android/inventoryappr/data/ProductDbHelper.java:30-36 | the database stores a row exactly when all five NOT NULL columns are given and ids are left |
| DbHelper.Select | app/src/main/java/com/example/android/inventoryappr/data/ProductProvider.java:77-89 | a WHERE clause picks exactly the rows it matches, with their stored contents |
| DbHelper.Apply | app/src/main/java/com/example/android/inventoryappr/data/ProductProvider.java:280 | an updated row takes the new value in every column named in the values and keeps its old value in every other column |
| DbHelper.UpdateRows | app/src/main/java/com/example/android/inventoryappr/data/ProductProvider.java:280 | update counts the selected rows, rewrites exactly those rows, and keeps the ids and the sequence |
| DbHelper.DeleteRows | app/src/main/java/com/example/android/inventoryappr/data/ProductProvider.java:195 | delete removes exactly the selected rows, keeps the others and the sequence, and counts what it removed |
| DbHelper.EmptyTableValid | app/src/main/java/com/example/android/inventoryappr/data/ProductDbHelper.java:28-39 | the table onCreate creates is valid and empty |
| DbHelper.InsertedIdIsFresh | app/src/main/java/com/example/android/inventoryappr/data/ProductDbHelper.java:31 | AUTOINCREMENT: a new id is above every present id and every id handed out before, and the table stays valid; the insert adds exactly that id with the inserted row and keeps every existing row unchanged |
| DbHelper.InsertThenSelect | app/src/main/java/com/example/android/inventoryappr/data/ProductDbHelper.java:31 | selecting a just-inserted id returns exactly the inserted row |
| DbHelper.SelectById | app/src/main/java/com/example/android/inventoryappr/data/ProductDbHelper.java:31 | `_id = k` selects the row with id k if it exists and nothing else, so at most one row |
| DbHelper.SelectAll | app/src/main/java/com/example/android/inventoryappr/data/ProductProvider.java:193-195 | a null selection selects every row |
| DbHelper.DeleteAll | app/src/main/java/com/example/android/inventoryappr/fragments/ProductListFragment.java:252 | a delete with a null selection empties the table, counts every row, and keeps the sequence |
| DbHelper.UpdateKeepsTableValid | app/src/main/java/com/example/android/inventoryappr/data/ProductDbHelper.java:32-36 | an update without nulls keeps every NOT NULL column filled |
| DbHelper.DeleteKeepsTableValid | app/src/main/java/com/example/android/inventoryappr/data/ProductDbHelper.java:30-36 | a delete keeps the table valid |
| DbHelper.IdsNeverReused | app/src/main/java/com/example/android/inventoryappr/data/ProductDbHelper.java:31 | over any run of inserts, updates and deletes, the ids handed out strictly increase and lie above every earlier id, so a deleted id never returns |
| Contract.AsString | app/src/main/java/com/example/android/inventoryappr/data/ProductProvider.java:140-141 | getAsString is non-null exactly when the key is present with a non-null value |
| Java.DigitsRoundTrip | app/src/main/java/com/example/android/inventoryappr/fragments/EditProductFragment.java:203-204 | the digits String.valueOf prints for a non-negative number denote that number |
| Java.DigitsLength | app/src/main/java/com/example/android/inventoryappr/fragments/ProductDetailsFragment.java:197-200 | a non-negative number prints in at most k digits exactly when it is below 10^k |
| Java.ParseInt | app/src/main/java/com/example/android/inventoryappr/fragments/AddProductFragment.java:167 | parseInt succeeds exactly for a non-empty digit string, or '+' or '-' followed by one, whose signed value fits an int; the value is the digits' decimal value, negated after '-' |
| Java.ParseIntOfDecimalString | app/src/main/java/com/example/android/inventoryappr/ProductCursorAdapter.java:118 | parseInt of what String.valueOf printed returns the same int |
| Java.ShortParseBound | app/src/main/java/com/example/android/inventoryappr/fragments/AddProductFragment.java:162-167 | a text of at most nine characters that parses lies in −99,999,999 .. 999,999,999 |
| Java.TrimEmptyIffBlank | app/src/main/java/com/example/android/inventoryappr/fragments/AddProductFragment.java:144-156 | a trimmed field is empty exactly when every char of it is at or below U+0020 |
| Java.TrimLeavesNoOuterSpace | app/src/main/java/com/example/android/inventoryappr/fragments/AddProductFragment.java:144-148 | trim leaves no trimmable char at either end |
| Java.TrimKeepsNoOuterSpace | app/src/main/java/com/example/android/inventoryappr/fragments/AddProductFragment.java:144-148 | trim returns a text with nothing to trim unchanged |
| Java.TrimIdempotent | app/src/main/java/com/example/android/inventoryappr/fragments/AddProductFragment.java:144-148 | trimming twice is trimming once |
| Java.Length | app/src/main/java/com/example/android/inventoryappr/fragments/AddProductFragment.java:162 | `length()` counts at least one and at most two UTF-16 units per char |
| Java.LengthOfBmp | app/src/main/java/com/example/android/inventoryappr/fragments/AddProductFragment.java:162 | `length()` equals the number of chars exactly when no char lies beyond U+FFFF |
| Java.ToInt32 | app/src/main/java/com/example/android/inventoryappr/ProductCursorAdapter.java:95 | the `(int)` cast of a long agrees with it modulo 2^32 and keeps every value in the int range |
| QuantityColor.ColorOf | app/src/main/java/com/example/android/inventoryappr/fragments/ProductDetailsFragment.java:400-428 | the pane colour is quantityTo10 exactly for texts whose `length()` is 0 or 1 and colorPrimary exactly for texts longer than 6 |
| QuantityColor.ColorOfQuantity | app/src/main/java/com/example/android/inventoryappr/ProductCursorAdapter.java:166-194 | for a printed non-negative quantity, the length bucket is the value bucket: below 10, 100, 1k, 10k, 100k, 1m, or more |
| ProductForm.Check | app/src/main/java/com/example/android/inventoryappr/fragments/AddProductFragment.java:142-182 | the form checks, first failure wins: blank fields iff some trimmed field is empty; invalid price iff the price is longer than nine UTF-16 units or negative; invalid quantity likewise after a valid price; a parseInt crash iff a short amount does not parse; accepted iff all pass, with the trimmed texts and amounts in 0 .. 999,999,999 |
| ProductForm.CheckAcceptsItsOwnValues | app/src/main/java/com/example/android/inventoryappr/fragments/EditProductFragment.java:202-206 | accepted values, shown again in the form as the edit screen shows them, are accepted again with the same values |
| ProductForm.RetypedIsAccepted | app/src/main/java/com/example/android/inventoryappr/fragments/EditProductFragment.java:233-271 | untrimmable non-empty texts and amounts in range, typed in, are accepted as themselves |
| ProductForm.CheckOfValid | app/src/main/java/com/example/android/inventoryappr/fragments/EditProductFragment.java:240-271 | fields that pass every check are accepted with their trimmed texts and parsed amounts |
| ProductForm.AmountRoundTrip | app/src/main/java/com/example/android/inventoryappr/fragments/EditProductFragment.java:203-204 | an accepted amount printed back is a valid amount that parses to itself and has nothing to trim |
| AddProduct.InsertValues | app/src/main/java/com/example/android/inventoryappr/fragments/AddProductFragment.java:185-190 | the values built from an accepted form fill all five columns |
| AddProduct.AcceptedFormPassesInsertChecks | app/src/main/java/com/example/android/inventoryappr/fragments/AddProductFragment.java:185-193 | whatever the add form accepts passes every provider insert check and every NOT NULL constraint |
| AddProduct.ChangedAfterIff | app/src/main/java/com/example/android/inventoryappr/fragments/AddProductFragment.java:283-293 | the form counts as changed exactly when it started so or some text change was not the one that clears a field |
| AddProduct.AddProductFragment.constructor | app/src/main/java/com/example/android/inventoryappr/fragments/AddProductFragment.java:69 | a new form is unchanged |
| AddProduct.AddProductFragment.OnTextChanged | app/src/main/java/com/example/android/inventoryappr/fragments/AddProductFragment.java:283-293 | the error label shows exactly for start 0 and before 1; every other change marks the form changed |
| AddProduct.AddProductFragment.OnBackPressed | app/src/main/java/com/example/android/inventoryappr/fragments/AddProductFragment.java:240-258 | the back press is intercepted exactly when the form changed |
| AddProduct.AddProductFragment.InsertProduct | app/src/main/java/com/example/android/inventoryappr/fragments/AddProductFragment.java:142-207 | a refused form returns false without touching the store (a non-number crashes); an accepted one is inserted on the collection URI, and the result is whether the provider returned a URI |
| AddProduct.AcceptedFormInserted | app/src/main/java/com/example/android/inventoryappr/fragments/AddProductFragment.java:193-205 | an accepted form is stored exactly when the table has ids left |
| EditProduct.Changes | app/src/main/java/com/example/android/inventoryappr/fragments/EditProductFragment.java:274-290 | the update values hold a column exactly when its entered value differs from the loaded one, with the entered value |
| EditProduct.ChangesPassUpdateCheck | app/src/main/java/com/example/android/inventoryappr/fragments/EditProductFragment.java:274-298 | the diff of an accepted form passes the provider's update checks |
| EditProduct.UntouchedFormHasNoChanges | app/src/main/java/com/example/android/inventoryappr/fragments/EditProductFragment.java:193-206 | for a loaded product whose texts are non-empty without outer blanks and whose price and quantity are non-negative with at most nine digits, saving the untouched form is accepted and finds nothing to update |
| EditProduct.UntouchedFormRefusesLongAmounts | app/src/main/java/com/example/android/inventoryappr/fragments/EditProductFragment.java:251-266 | a loaded price of ten or more digits makes the untouched form show the invalid-price refusal, and a valid price with such a quantity the invalid-quantity refusal: the edit screen refuses its own loaded values |
| EditProduct.EditProductFragment.constructor | app/src/main/java/com/example/android/inventoryappr/fragments/EditProductFragment.java:75-99 | a new edit form has its URI, nothing loaded, and no change |
| EditProduct.EditProductFragment.OnLoadFinished | app/src/main/java/com/example/android/inventoryappr/fragments/EditProductFragment.java:184-213 | a cursor's first row becomes the loaded product and adds one set of watchers; writing the fields fires the watchers already attached, so a load after the first marks the form changed; an empty cursor changes nothing |
| EditProduct.EditProductFragment.AfterTextChanged | app/src/main/java/com/example/android/inventoryappr/fragments/EditProductFragment.java:377-403 | once watchers are attached every change marks the form changed and the error label shows exactly when the field is empty; before that a change does nothing |
| EditProduct.EditProductFragment.OnBackPressed | app/src/main/java/com/example/android/inventoryappr/fragments/EditProductFragment.java:350-367 | the back press is intercepted exactly when the form changed |
| EditProduct.EditProductFragment.UpdateProduct | app/src/main/java/com/example/android/inventoryappr/fragments/EditProductFragment.java:231-315 | a refused form returns false with no store call (a non-number crashes); an empty diff returns true with no store call; otherwise the diff is updated on the product's URI with no selection, and the result is whether exactly one row changed |
| EditProduct.BuildChanges | app/src/main/java/com/example/android/inventoryappr/fragments/EditProductFragment.java:274-290 | the conditional puts build exactly the diff Changes describes |
| ProductDetails.ReportOf | app/src/main/java/com/example/android/inventoryappr/fragments/ProductDetailsFragment.java:287-302 | a count of 1 reports success, 0 failure, anything else an error |
| ProductDetails.ItemNeverUnexpected | app/src/main/java/com/example/android/inventoryappr/fragments/ProductDetailsFragment.java:284-302 | on an item URI the error report never happens: success exactly when the row exists |
| ProductDetails.TrackerBounds | app/src/main/java/com/example/android/inventoryappr/fragments/ProductDetailsFragment.java:322-343 | from a non-negative start the tracker stays non-negative, and n presses move it by at most n |
| ProductDetails.TrackerSaturates | app/src/main/java/com/example/android/inventoryappr/fragments/ProductDetailsFragment.java:322-343 | decreasing at 0 and increasing at Integer.MAX_VALUE leave the tracker where it is |
| ProductDetails.ProductDetailsFragment.constructor | app/src/main/java/com/example/android/inventoryappr/fragments/ProductDetailsFragment.java:67-95 | the screen starts with its URI, quantity 0 and tracker 0 |
| ProductDetails.ProductDetailsFragment.OnLoadFinished | app/src/main/java/com/example/android/inventoryappr/fragments/ProductDetailsFragment.java:185-200 | a loaded quantity becomes both the stored quantity and the tracker and colours the pane; no row changes nothing |
| ProductDetails.ProductDetailsFragment.DecreaseQuantity | app/src/main/java/com/example/android/inventoryappr/fragments/ProductDetailsFragment.java:322-330 | the tracker drops by one exactly when it was positive; otherwise it is unchanged and the press is refused |
| ProductDetails.ProductDetailsFragment.IncreaseQuantity | app/src/main/java/com/example/android/inventoryappr/fragments/ProductDetailsFragment.java:335-343 | the tracker rises by one exactly when it was below Integer.MAX_VALUE; otherwise it is unchanged and the press is refused |
| ProductDetails.ProductDetailsFragment.UpdateQuantity | app/src/main/java/com/example/android/inventoryappr/fragments/ProductDetailsFragment.java:347-385 | no store call unless the tracker moved, is non-negative and a URI exists; then exactly the quantity column is updated on that URI and the count reported |
| ProductDetails.ProductDetailsFragment.DeleteProduct | app/src/main/java/com/example/android/inventoryappr/fragments/ProductDetailsFragment.java:282-305 | with a URI, a delete with no selection and the report of its count; without one, nothing |
| ProductDetails.TrackedQuantityPassesUpdateCheck | app/src/main/java/com/example/android/inventoryappr/fragments/ProductDetailsFragment.java:351-356 | the quantity updateQuantity writes always passes the provider's update checks |
| CursorAdapter.SoldQuantity | app/src/main/java/com/example/android/inventoryappr/ProductCursorAdapter.java:124 | `quantityInt - 1` in `int` arithmetic: one less, except that Integer.MIN_VALUE wraps to Integer.MAX_VALUE |
| CursorAdapter.SaleValuesChecked | app/src/main/java/com/example/android/inventoryappr/ProductCursorAdapter.java:118-126 | the sale's values pass the update checks exactly when the shown quantity was positive or Integer.MIN_VALUE; from a positive q the new quantity is q − 1 >= 0 |
| CursorAdapter.ItemUri | app/src/main/java/com/example/android/inventoryappr/ProductCursorAdapter.java:129-130 | the row's URI matches PRODUCT_ID with the row's id for a non-negative id, and matches nothing for a negative one |
| CursorAdapter.ListItem.constructor | app/src/main/java/com/example/android/inventoryappr/ProductCursorAdapter.java:90-110 | bindView shows the cursor's quantity text and tags the button with `getInt` of the stored id, its low 32 bits as a signed int, which is the id itself when it fits an int; the quantity pane takes the colour of that quantity text |
| CursorAdapter.TagOfStoredId | app/src/main/java/com/example/android/inventoryappr/ProductCursorAdapter.java:95-130 | the sell button's URI names the row's own product exactly when the row's id fits an int; a larger id gives a URI that matches nothing or names a smaller id |
| CursorAdapter.ListItem.SellClick | app/src/main/java/com/example/android/inventoryappr/ProductCursorAdapter.java:112-156 | an unparsable quantity crashes and 0 makes no store call; otherwise the quantity one lower is updated on the row's item URI, and the shown quantity changes exactly when one row was updated, while the pane keeps the colour of the last bind |
| CursorAdapter.SaleOfStoredProduct | app/src/main/java/com/example/android/inventoryappr/ProductCursorAdapter.java:118-144 | selling a stored product with a positive quantity updates one row, lowers its stored quantity by exactly one and keeps its other columns |
| ProductList.ClickedRowIsQueried | app/src/main/java/com/example/android/inventoryappr/fragments/ProductListFragment.java:111-115 | clicking a stored row opens the item URI of its id, whose query returns exactly that row |
| ProductList.DummyValues | app/src/main/java/com/example/android/inventoryappr/fragments/ProductListFragment.java:273-278 | a dummy product fills all five columns, with the loop's quantity |
| ProductList.DummyPassesInsertCheck | app/src/main/java/com/example/android/inventoryappr/fragments/ProductListFragment.java:273-281 | every dummy product with a non-negative quantity passes the provider's insert checks |
| ProductList.Pow9Threshold | app/src/main/java/com/example/android/inventoryappr/fragments/ProductListFragment.java:271 | 9^k stays below 100,000,000 exactly for k < 9 and never exceeds 387,420,489, so the loop runs nine rounds without int overflow |
| ProductList.RoundQuantity | app/src/main/java/com/example/android/inventoryappr/fragments/ProductListFragment.java:271 | round k inserts the quantity 9^k, which is at least 1 |
| ProductList.SeededTable | app/src/main/java/com/example/android/inventoryappr/fragments/ProductListFragment.java:271-282 | after k rounds the table is valid, its sequence advanced by k (capped at the largest rowid), every old row kept, and round j's row stored under the j-th new id |
| ProductList.InsertOneDummy | app/src/main/java/com/example/android/inventoryappr/fragments/ProductListFragment.java:273-281 | one round inserts the dummy values on the collection URI: the row is stored and the collection notified exactly when ids were left |
| ProductList.InsertDummyProducts | app/src/main/java/com/example/android/inventoryappr/fragments/ProductListFragment.java:269-293 | the loop leaves the table the nine seeding rounds give, one collection notification per stored row, and reports success exactly when the last insert succeeded, which is when nine ids were left |
| ProductList.DeleteAllProducts | app/src/main/java/com/example/android/inventoryappr/fragments/ProductListFragment.java:251-264 | delete-all empties the table, keeps the sequence, notifies once if rows were deleted, and reports success exactly when there was a row |

## Left out

- The Android UI: views, menus, dialogs, toasts, ButterKnife, the keyboard and the error-label rendering. Only the values and flags the screens compute are modelled.
- Loaders and observers: CursorLoader background loading and `setNotificationUri` are not modelled. Notifications are a log of URIs, and a screen receives the cursor's first row as a parameter.
- Projection, sort order, SQL selection strings and selection arguments. A caller's selection on the collection URI is an abstract row predicate (`Where`) or "all rows"; row order is not modelled.
- URIs are reduced to authority and path segments. Scheme, query and fragment are not modelled, and `Uri.parse` of the fragments' "productUri" argument is taken as given.
- `Integer.parseInt` is modelled on ASCII digits only; Java also accepts other Unicode decimal digits there.
- SQLite type affinity: `getAsInteger` of a text value and the cursor's `getString`/`getInt` conversions of a stored value are modelled only for the values this app stores (texts and ints); the one 64-bit value read with `getInt`, the `_id` of a list row, is cut to 32 bits by `ToInt32`.
- `Log` calls, `callToSupplier` (a telephony intent) and InventoryActivity, which is fragment navigation only.
- Provider.ProductProvider.UpdateProduct: an update whose values set no column throws, as `SQLiteDatabase.update` does with empty values; the screens never send one.
- Java.ParseInt: non-numeric form input is a crash outcome (`NotANumber` / `Throws(NumberFormat)`) rather than a precondition, because the source lets the NumberFormatException escape.
- Delete with a null WHERE clause returns the real number of rows deleted, as SQLite does today, not the 0 some old SQLite versions returned.
- Concurrency between the UI thread and the loader threads is not modelled; each operation runs alone.
