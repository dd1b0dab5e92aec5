# Tienda-Online storefront: cart store, totals and product listing

A Dafny model of the logic inside the single page script of the Tienda-Online
storefront (`app.js`): the shopping cart the page keeps in memory, the totals it
displays and charges at checkout, and the category / search / sort pipeline
that decides which catalog products are listed and in what order.

- `wrappers.dfy` — `Option` and `Result`.
- `seqs.dfy` — the JavaScript array operations the script relies on, as
  functions on sequences: `findIndex`/`find` (`FindIndex`), `filter`
  (`Filter`, with the order-preserving subsequence relation `IsSubseq`) and
  `[...new Set(xs)]` (`Distinct`).
- `catalog.dfy` — the catalog `Product` record (prices in integer cents), the
  product lookup of `addToCart`, and the category list of
  `populateCategoryFilter`.
- `line_items.dfy` — the cart row `LineItem` and the three edits
  (`AddItem`, `RemoveItems`, `SetQuantity`) as functions from the old rows to
  the new rows, with what they guarantee: unique ids and positive quantities
  are kept, repeated adds count up, a removed-then-added product is a fresh
  snapshot.
- `totals.dfy` — the two `reduce` totals as left folds, proved equal to the
  sums they stand for, and how each edit moves them.
- `cart_store.dfy` — `Cart`, the mutable cart: a class whose `items` field the
  methods `LoadCart`, `AddToCart`, `RemoveFromCart`, `UpdateQuantity` and
  `Checkout` reassign, each specified by the functions above.
- `text.dfy` — `toLowerCase`, `trim` and `includes` for the search box.
- `product_filter.dfy` — `applyFiltersAndSort`: the staged filters, the four
  sort options as a stable sort, and the method that runs the pipeline.

The catalog is an input (`seq<Product>`) to the operations that read it; the
page loads it once over the network. Prices are integer cents, so no rounding
arises. A cart read back from storage may hold any rows, so the cart
invariant `WellFormed` (unique ids, quantities at least 1, prices not
negative) is stated as preserved by every edit rather than assumed.

The model follows the code: `removeFromCart` drops every row with the id, and
`updateQuantity` and `addToCart` change the first row with the id.

## Model

| member | source | states |
|---|---|---|
| Seqs.FindIndex | app.js:189 | the index returned is of the first element satisfying the predicate; None exactly when no element does |
| Seqs.Filter | app.js:217 | an element is in the result exactly when it is in the input and satisfies the predicate; the result is an order-preserving subsequence of the input |
| Seqs.FilterCount | app.js:217 | every occurrence of a kept element is kept and no occurrence of a dropped one; with the subsequence property of Filter this fixes the result |
| Seqs.FilterFilter | app.js:331-343 | filtering twice in a row equals filtering once by the conjunction of the two predicates |
| Seqs.Distinct | app.js:156 | the de-duplicated list has no repeated element and holds exactly the elements of the input |
| Seqs.DistinctFirstAppearance | app.js:156 | the de-duplicated list is ordered by the position of each element's first occurrence in the input |
| Catalog.FindProduct | app.js:185-186 | the product found has the requested id and no earlier catalog entry has it; None exactly when no catalog entry has the id |
| Catalog.Categories | app.js:156 | the mapped list has one category per product, position by position |
| Catalog.UniqueCategories | app.js:156 | the category options; specified by Catalog.UniqueCategoriesSpec |
| Catalog.UniqueCategoriesSpec | app.js:156 | every catalog category is offered once, nothing else is offered, in order of first appearance in the catalog |
| LineItems.FindItem | app.js:189 | the row found has the id and is the first such row; None exactly when no row has the id |
| LineItems.Clamp | app.js:231-232 | the quantity stored is the requested quantity when that is at least 1, and 1 otherwise |
| LineItems.AddItem | app.js:183-203 | the rows after `addToCart`; specified by LineItems.AddPreservesUniqueIds, LineItems.AddPreservesWellFormed, LineItems.RepeatedAdd, Totals.TotalsAfterAdd and the ensures of CartStore.Cart.AddToCart |
| LineItems.RemoveItems | app.js:217 | the rows after `removeFromCart`; specified by Seqs.Filter, Seqs.FilterCount, LineItems.RemoveDeletesRow, LineItems.RemoveAbsentIsNoOp and the preservation lemmas |
| LineItems.SetQuantity | app.js:228-237 | the rows after `updateQuantity`; specified by LineItems.SetQuantityPreservesUniqueIds, Totals.TotalsAfterSetQuantity and the ensures of CartStore.Cart.UpdateQuantity |
| LineItems.AddPreservesUniqueIds | app.js:189-202 | adding keeps ids unique, whatever the quantities and prices |
| LineItems.AddPreservesWellFormed | app.js:189-202 | adding keeps ids unique, quantities at least 1 and prices non-negative |
| LineItems.RemovePreservesUniqueIds | app.js:217 | removing keeps ids unique, whatever the quantities and prices |
| LineItems.RemovePreservesWellFormed | app.js:217 | removing keeps the cart well-formed and leaves no row with the removed id |
| LineItems.RemoveDeletesRow | app.js:217 | on a cart with unique ids, removing a present id deletes exactly that row and keeps the others in order |
| LineItems.RemoveAbsentIsNoOp | app.js:217 | removing an id no row has leaves the cart unchanged |
| LineItems.SetQuantityPreservesUniqueIds | app.js:228-237 | setting a quantity keeps ids unique |
| LineItems.SetQuantityPreservesWellFormed | app.js:228-237 | setting a quantity keeps the cart well-formed |
| LineItems.RepeatedAdd | app.js:189-202 | n >= 1 adds of a catalog product not in the cart leave the old rows untouched and exactly one new last row for it, the catalog snapshot with quantity n |
| LineItems.RemoveThenAdd | app.js:194-202 | removing a product and adding it again appends a fresh snapshot of the current catalog entry with quantity 1 |
| Totals.Reduce | app.js:268 | the `reduce` left fold; specified by Totals.ReduceIsSum |
| Totals.TotalPrice | app.js:268 | the cart total; specified by Totals.TotalsAreSums and Totals.WellFormedTotals |
| Totals.ItemCount | app.js:272 | the cart counter; specified by Totals.TotalsAreSums and Totals.WellFormedTotals |
| Totals.ReduceIsSum | app.js:268 | the reduce left fold from an initial value equals that value plus the sum over the rows |
| Totals.TotalsAreSums | app.js:268-272 | the total price is the sum of price times quantity, the item count the sum of quantities, both 0 for the empty cart |
| Totals.TotalsAfterAdd | app.js:189-202 | a known product raises the count by 1 and the total by the row's snapshot price (old row's price or catalog price); an unknown one changes neither |
| Totals.TotalsAfterRemove | app.js:217 | on a cart with unique ids, removing lowers the total and count by exactly the removed row's amounts |
| Totals.TotalsAfterSetQuantity | app.js:228-237 | setting a quantity moves the count by the quantity change and the total by price times that change |
| Totals.WellFormedTotals | app.js:272-275 | on a well-formed cart the total is not negative, the count is at least the number of rows, and the counter is shown exactly when the cart is not empty |
| CartStore.Cart.constructor | app.js:8 | the cart starts empty |
| CartStore.Cart.LoadCart | app.js:74-95 | no stored record leaves the cart alone; a stored array becomes the cart; unparsable or non-array data empties the cart and asks for the record to be discarded |
| CartStore.Cart.AddToCart | app.js:183-208 | unknown product: cart unchanged; product in cart: that row's quantity + 1, length, order and all other rows unchanged; otherwise the snapshot with quantity 1 appended; unique ids kept, well-formedness kept |
| CartStore.Cart.RemoveFromCart | app.js:215-220 | exactly the rows with other ids remain, each as often as before and in their order; unique ids kept, well-formedness kept; with unique ids exactly the one row goes |
| CartStore.Cart.UpdateQuantity | app.js:228-237 | no row with the id: no change; otherwise that row's quantity becomes q, or 1 when q < 1, all else unchanged; unique ids kept, well-formedness kept |
| CartStore.Cart.Checkout | app.js:282-299 | empty cart: refused with EmptyCart and left unchanged; otherwise reports the sum of price times quantity (the reduce total) and empties the cart |
| Text.Lower | app.js:337 | lowercasing keeps the length; specified further by Text.LowerIdempotent |
| Text.LowerIdempotent | app.js:337 | lowercasing twice is lowercasing once |
| Text.TrimStart | app.js:337 | what is left is a suffix not starting with white space and everything dropped is white space |
| Text.TrimEnd | app.js:337 | what is left is a prefix not ending with white space and everything dropped is white space |
| Text.Trim | app.js:337 | `trim`; specified by Text.TrimSpec and Text.TrimEnds |
| Text.TrimSpec | app.js:337 | trim yields a contiguous slice of its input and everything it cuts from the two ends is white space |
| Text.TrimEnds | app.js:337 | the trimmed text neither starts nor ends with white space |
| Text.Includes | app.js:341-342 | `includes`; specified by Text.IncludesIff |
| Text.IncludesIff | app.js:341-342 | includes holds exactly when the term occurs at some position of the text |
| Text.SearchTerm | app.js:337 | the search term, lowercased then trimmed; specified by Text.SearchTermIgnoresCase, Text.TrimSpec and Text.TrimEnds |
| Text.SearchTermIgnoresCase | app.js:337 | lowercasing the typed text first does not change the search term |
| ProductFilter.MatchesTerm | app.js:340-343 | the search filter's test; specified by ProductFilter.MatchesTermIff |
| ProductFilter.MatchesTermIff | app.js:340-343 | a product matches exactly when the term occurs in its lowercased title or its lowercased description; the empty term matches every product |
| ProductFilter.ParseSortKey | app.js:347-365 | the `switch` on the sort value; specified by ProductFilter.ParseSortKeyInverse |
| ProductFilter.ParseSortKeyInverse | app.js:347-365 | each sort key is chosen by its own option value and only by it; any other value chooses no sort |
| ProductFilter.Precedes | app.js:349-364 | the comparator of each key does not return a positive number; specified by ProductFilter.PrecedesTotal, ProductFilter.PrecedesTransitive and ProductFilter.TiedMeansEqualKey |
| ProductFilter.PrecedesTotal | app.js:349-364 | any two products are ordered one way or the other by each sort key |
| ProductFilter.PrecedesTransitive | app.js:349-364 | each sort key's order is transitive |
| ProductFilter.TiedMeansEqualKey | app.js:349-364 | two products compare as equal exactly when their prices (price sorts) or titles (name sorts) are equal |
| ProductFilter.Insert | app.js:348-365 | inserting adds exactly that product to the multiset of the list |
| ProductFilter.SortBy | app.js:348-365 | the sorted list is a permutation of its input |
| ProductFilter.SortBySorted | app.js:349-364 | the sorted list is ordered by the key: non-decreasing price for price-asc, non-increasing for price-desc, title order for the name sorts |
| ProductFilter.SortByStable | app.js:348-365 | products that compare equal keep their input order |
| ProductFilter.PriceSortExample | app.js:349-356 | prices 30, 10, 20 sort to 10, 20, 30 ascending and 30, 20, 10 descending |
| ProductFilter.StagedFilters | app.js:327-344 | the category stage (skipped for "all") followed by the search stage (skipped for an empty term) selects exactly the listed products |
| ProductFilter.ApplyFiltersAndSort | app.js:325-369 | the result is the order-preserving subsequence of listed products, stably sorted when a sort option is set; it holds exactly the catalog products of the category containing the term; with "all", no term and no sort it is the catalog itself |

## Left out

- Network fetch (`fetchProducts`): the catalog is an input sequence; a failed fetch, which leaves the catalog empty, is not modelled.
- Rendering and UI wiring: `renderProducts` (including its "no matches" message), the HTML of `updateCartUI`, `showLoader`, `openCart`/`closeCart`, every `alert`, the `console.error` logging in `fetchProducts`, `loadCart` and `saveCart` (app.js:59, 90, 107), and the event listeners. The checkout confirmation's text is replaced by the reported total.
- Storage writes (`saveCart`) and the warning shown when a write fails: in-memory state never depends on them. `LoadCart` takes the already-classified stored value; JSON parsing is not modelled, and a stored array is taken to hold rows of the `LineItem` shape. Removing the corrupt record is reported by the `discardRecord` result.
- Floating-point prices and `toFixed(2)`: prices are integer cents.
- `parseInt` coercion in `updateQuantity` and in the click handlers: ids and quantities are integers, so the not-a-number quantity that passes the `< 1` check unclamped does not arise.
- `localeCompare`: the name sorts use code-point lexicographic order of the titles instead of a locale's collation.
- `toLowerCase` lowercases ASCII letters only; `trim` removes the ECMAScript white-space and line-terminator code points but works on code points rather than UTF-16 units.
- Category label capitalisation in `populateCategoryFilter` is presentation only; the option values are modelled.
- `addToCart` and `updateQuantity` change a row object in place; the model replaces that row in the `items` sequence. No other reference to a row exists, so nothing observable differs.
- `Array.prototype.sort` sorts `filteredProducts` in place; the model sorts the sequence as a value. The array is a fresh copy of the catalog, so nothing else sees the change.
