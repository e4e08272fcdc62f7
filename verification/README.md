# Storefront and admin list state, in Dafny

This project models the client-side state of a small e-commerce front end and
its admin dashboard:

- the **catalog store** (`useProductsStore`): the product list, the filter
  criteria (search, category, price range), the filtered view, pagination,
  and create / update / optimistic delete with rollback;
- the **directory store** (`useUsersStore`): the user list with a six-field
  search and an id-parity status filter, paginated like the catalog;
- the **cart store** (`useCartStore`): line items keyed by product id, the
  cached item count, the cart and checkout sheets, and checkout;
- the **page-number strips**: the admin table's seven-slot
  `getPageNumbers`, and the storefront's filtered page links with an
  ellipsis before each gap, plus the Previous / Next targets of both;
- the **storefront views**: the home page's featured products, the category
  options and the quick price presets.

Every store action is a pure function from the state before the action to
the state once it has settled. An API call's result becomes an argument
(`ApiResult<T>`, either `Ok(value)` or `Failed(message)`), so success and
failure are both modelled paths.

Modules, one per file:

| file | module | what |
|---|---|---|
| outcomes.dfy | `Outcomes` | `Option`, `ApiResult` |
| seqs.dfy | `Seqs` | `Array.prototype.filter`, `new Set` de-duplication, stable numeric sort, subsequence facts |
| text.dfy | `Text` | `toLowerCase` (ASCII) and `includes` |
| paging.dfy | `Paging` | the pagination record, `Math.ceil` page counts, the `totalPages \|\| 1` clamp, `slice` |
| catalog.dfy | `Catalog` | the products store |
| directory.dfy | `Directory` | the users store |
| cart.dfy | `Cart` | the cart store |
| page_windows.dfy | `PageWindows` | page-number strips and Previous / Next |
| storefront.dfy | `Storefront` | featured products, category options, price presets |

Both list stores keep a derived view (`filteredProducts` / `filteredUsers`
and the counts in `pagination`). The predicate `Consistent` says that the
view agrees with the lists and the criteria. Every action of both stores is
proved to preserve it. The cart's `Valid` plays the same part: `itemCount`
is the sum of the quantities, each product has one line, and every line
holds at least one unit.

## Model

| member | source | states |
|---|---|---|
| Seqs.Filter | lib/products-store.ts:178-196 | A filter's result keeps the input's order, is no longer than the input, and holds each element exactly as often as the input when the predicate accepts it, and not at all otherwise |
| Seqs.FilterFuse | lib/products-store.ts:173-196 | Two successive filters equal one filter by the conjunction of their predicates |
| Seqs.StageFuse | lib/products-store.ts:175-196 | A step that filters only when its criterion is active, run after a filter, is one filter by the earlier predicate and the step's predicate |
| Seqs.Distinct | app/products/page.tsx:74 | `Array.from(new Set(xs))` holds exactly the elements of `xs`, none twice, in their order of first appearance: wherever a later element occurs in `xs`, every earlier one has already occurred |
| Seqs.SortBy | lib/products-store.ts:302-303 | The sort returns a permutation of its input whose keys never decrease |
| Text.Lower | lib/products-store.ts:177 | Lower-casing keeps the length, maps each character on its own, and leaves no upper-case ASCII letter |
| Text.LowerIdempotent | lib/products-store.ts:177 | Lower-casing an already lower-cased string changes nothing |
| Text.CaseBlind | lib/products-store.ts:177-182 | Lower-casing the field or the term before the comparison changes no outcome, so the match ignores case on both sides |
| Text.IncludesIff | lib/products-store.ts:179-181 | `includes` holds exactly when the term occurs at some offset of the string |
| Text.IncludesEmpty | lib/products-store.ts:176 | The empty term occurs in every string |
| Catalog.EmptySearchKeepsAll | lib/products-store.ts:176-183 | Running the search step with an empty term would keep every product, so skipping it for an empty term changes no view |
| Catalog.FilterProductsIsOneFilter | lib/products-store.ts:173-196 | The four narrowing steps equal a single `filter` by the whole criterion, order included, so the order of the steps does not matter |
| Paging.CeilDiv | lib/products-store.ts:199 | The page count is the least number of full pages that hold all records, and is 0 exactly when there are none |
| Paging.Recount | lib/products-store.ts:198-209 | The count becomes the view's length and the page count its ceiling. A current page in range is kept, and one past the end drops to `totalPages \|\| 1`. A page from 1 on stays from 1 on |
| Paging.Resize | lib/products-store.ts:144-153 | The new page size, page 1, the same record count, and a page count that is the ceiling over the new size |
| Paging.ResizeExample | lib/products-store.ts:144-153 | 25 records fill 3 pages of 10; switching to 5 per page gives 5 pages and page 1 |
| Paging.PageStart | components/products-table.tsx:61 | The first record's position is never negative on a page from 1 on |
| Paging.WindowSlice | components/products-table.tsx:62-63 | `slice(start, start + n)` yields at most `n` records. From a start of 0 on, it yields the records from `start` in order, as many as remain up to `n` |
| Paging.PageSlice | components/products-table.tsx:61-63 | The displayed page never holds more than a page of records. From page 1 on it is the run of filtered records that starts at `(currentPage - 1) * itemsPerPage` |
| Paging.ShowingMatchesSlice | app/products/page.tsx:69-84 | On a non-empty page, the "Showing a-b" caption names the 1-based positions of the first and last record displayed |
| Catalog.FilterProducts | lib/products-store.ts:173-196 | The view is an order-preserving subsequence of the list. It holds each product that passes every active criterion as often as the list does, and no other product |
| Catalog.FilterProductsMembership | lib/products-store.ts:173-196 | A product is in the view exactly when it is in the list and passes the criteria, so every dropped product fails some active criterion |
| Catalog.FilterProductsKeepsMatching | lib/products-store.ts:173-196 | A list whose products all pass comes through unchanged, so with no active criterion the view is the whole list |
| Catalog.FilterProductsIdempotent | lib/products-store.ts:173-196 | Filtering the view again with the same criteria changes nothing |
| Catalog.FilterProductsAppend | lib/products-store.ts:173-196 | The view of two lists joined is the two views joined |
| Catalog.FilterProductsSingle | lib/products-store.ts:173-196 | The view of one product is that product when it passes, and nothing otherwise |
| Catalog.SearchFindsInsideWord | lib/products-store.ts:176-183 | Search ignores case and matches inside words: "phone" finds "Smartphone case" |
| Catalog.SearchMissesAbsentTerm | lib/products-store.ts:176-183 | Example: the term "xyz123", which occurs in none of the title, description and category of the "Smartphone case" product, misses it |
| Catalog.PriceBoundsExample | lib/products-store.ts:191-196 | Price bounds are inclusive: 25 to 50 keeps 25.00 and 50.00 and drops 24.99 and 50.01 |
| Catalog.CrossedPriceBoundsEmpty | lib/products-store.ts:191-196 | A minimum above the maximum keeps no product |
| Catalog.InitialConsistent | lib/products-store.ts:64-87 | The initial store is consistent |
| Catalog.ApplyFilters | lib/products-store.ts:164-210 | Only the view and the pagination change. The view is the filtered list, the counts describe it, and the current page becomes `Math.min(currentPage, totalPages \|\| 1)`, so it lands in `1..(totalPages \|\| 1)` without ever moving up. A store whose two lists agree becomes consistent |
| Catalog.SetSearch | lib/products-store.ts:113-119 | The term is stored and the view is refiltered from page 1 with the page size kept. Only the criteria, the view and the pagination change: lists, loading flag and error stay. Consistency is kept |
| Catalog.SetCategory | lib/products-store.ts:121-127 | As for search, with the category criterion: only criteria, view and pagination change, page 1 with the page size kept |
| Catalog.SetPriceRange | lib/products-store.ts:129-135 | As for search, with both price bounds at once: only criteria, view and pagination change, page 1 with the page size kept |
| Catalog.SetPage | lib/products-store.ts:138-142 | The page is stored unclamped. Only the pagination changes, and within it only the page: counts and page size stay. Consistency is kept |
| Catalog.SetItemsPerPage | lib/products-store.ts:144-153 | Page 1 and a page count recomputed from the count already held, without refiltering. Only the pagination changes. Consistency is kept |
| Catalog.ResetFilters | lib/products-store.ts:155-161 | The initial criteria and pagination (page 1, 10 per page), and the whole list as the view with its page count. Lists, loading flag and error stay |
| Catalog.FetchProducts | lib/products-store.ts:89-111 | A loaded list becomes both lists and a consistent view under the same criteria, with the page clamped as `applyFilters` does. A failure only records its message |
| Catalog.AddProduct | lib/products-store.ts:213-233 | On success the server's record ends both lists. The criteria stay, the view is the pipeline's output on the new list, and the pagination is recounted. On a consistent store it joins the end of the view exactly when it passes the criteria. A failure changes only the error and loading flag |
| Catalog.UpdateProduct | lib/products-store.ts:235-264 | On success the products carrying the id are replaced in place by the server's record, and every other product keeps its value and position. The criteria stay, the view is the pipeline's output on the new list, and the pagination is recounted. A failure changes only the error and loading flag |
| Catalog.FindById | lib/products-store.ts:269 | `find` returns the first product with the id, and nothing exactly when no product has it |
| Catalog.WithoutId | lib/products-store.ts:278-279 | Every product with the id leaves the list; the rest keep their order and multiplicity |
| Catalog.RemoveOptimistically | lib/products-store.ts:277-285 | The optimistic step removes the id from both lists, clears the error, keeps the criteria and loading flag, recomputes the view from the shortened list, recounts the pagination, and keeps the store consistent |
| Catalog.RollBack | lib/products-store.ts:301-308 | The compensation adds the removed product back to both lists, leaves them sorted by id, records the error, keeps the criteria and loading flag, recomputes the view from the restored list, and recounts the pagination |
| Catalog.DeleteProduct | lib/products-store.ts:266-317 | An absent id changes nothing. A successful delete leaves both lists without the id and recounts the pagination from the page held before. A failed one holds the product again in both lists, sorted by id, with the error, and recounts the pagination from the optimistic step's pagination, so a page clamped there stays clamped. Every branch keeps the criteria, loading flag and page size, and recomputes the view from the new list. Consistency is kept throughout |
| Catalog.SortedByIdUnique | lib/products-store.ts:302-303 | A list sorted by id with the same products as a list strictly increasing in id is that list |
| Catalog.RollbackRestoresList | lib/products-store.ts:277-303 | Removing a product and then re-adding it and sorting by id restores a list strictly increasing in id |
| Catalog.DeleteRollbackRestores | lib/products-store.ts:266-317 | A failed delete on a consistent, id-sorted store gives back the lists, the view, the criteria and the counts, and records the error. The current page can only have moved down |
| Catalog.DeleteRollbackMovesPage | lib/products-store.ts:277-308 | As written, a failed delete can leave the user on another page: with two products at one per page on page 2, a failed delete of the second ends on page 1 |
| Catalog.DeleteProductRestoringPage | lib/products-store.ts:266-317 | The corrected delete has the same absent-id, success, list, error and view guarantees. A failed delete recounts the pagination from the pagination held before the delete, so the page the user was on comes back (clamped only if it is out of range) |
| Catalog.DeleteRestoringPageRollbackIsNoOp | lib/products-store.ts:266-317 | With the page put back, a failed delete on a consistent, id-sorted store with its page in range changes nothing but the error |
| Catalog.ClearError | lib/products-store.ts:319-321 | Only the error is cleared |
| Directory.JsRemTwo | lib/users-store.ts:183-185 | JavaScript's `id % 2` is 1 for odd ids from 0 on, -1 for negative odd ids, and 0 for even ids |
| Directory.StatusFilterAgreesWithTable | components/users-table.tsx:45-48 | "active" keeps exactly the users the table shows as active. Every user "inactive" keeps is shown inactive, with the converse from id 0 on. A negative odd id is shown inactive but kept by neither filter |
| Directory.FilterUsers | lib/users-store.ts:163-187 | The view is an order-preserving subsequence of the list. It holds each user that passes the search and status criteria as often as the list does, and no other user |
| Directory.FilterUsersKeepsMatching | lib/users-store.ts:163-187 | A list whose users all pass comes through unchanged |
| Directory.FilterUsersIdempotent | lib/users-store.ts:163-187 | Filtering the view again with the same criteria changes nothing |
| Directory.StatusPartition | lib/users-store.ts:179-187 | With no negative id, "active" and "inactive" split the users the search keeps: together they hold each one as often as "all" does, and no user is in both |
| Directory.ActiveExample | lib/users-store.ts:182-183 | "active" over users 1 to 5 keeps users 1, 3 and 5 in that order |
| Directory.InitialConsistent | lib/users-store.ts:64-84 | The initial store is consistent |
| Directory.ApplyFilters | lib/users-store.ts:154-201 | Only the view and pagination change. The counts describe the view, and the page becomes `Math.min(currentPage, totalPages \|\| 1)`, landing in `1..(totalPages \|\| 1)` without moving up |
| Directory.SetSearch | lib/users-store.ts:111-117 | The term is stored and the view refiltered from page 1 with the page size kept. Only criteria, view and pagination change. Consistency is kept |
| Directory.SetStatus | lib/users-store.ts:119-125 | The status is stored and the view refiltered from page 1 with the page size kept. Only criteria, view and pagination change. Consistency is kept |
| Directory.SetPage | lib/users-store.ts:128-132 | The page is stored unclamped. Only the pagination changes, and within it only the page. Consistency is kept |
| Directory.SetItemsPerPage | lib/users-store.ts:134-143 | Page 1 and a page count from the count already held, without refiltering. Only the pagination changes |
| Directory.ResetFilters | lib/users-store.ts:145-151 | Empty search, status "all", initial pagination, and the whole list as the view. Lists, loading flag and error stay |
| Directory.FetchUsers | lib/users-store.ts:87-108 | A loaded list becomes both lists and a consistent view under the same criteria, with the page clamped as `applyFilters` does. A failure only records its message |
| Directory.ClearError | lib/users-store.ts:203-205 | Only the error is cleared |
| Cart.InitialValid | lib/cart-store.ts:53-58 | The empty cart satisfies the invariant with count 0 |
| Cart.TotalSplit | lib/cart-store.ts:97-99 | The item count splits into one product's units plus everyone else's |
| Cart.Retally | lib/cart-store.ts:68-72 | Lines of the product take the new quantity; every other line stays as it is, in its place |
| Cart.RetallyTotal | lib/cart-store.ts:124-128 | With one line per product, retallying a product moves the total by exactly the change on its line |
| Cart.AddItem | lib/cart-store.ts:61-86 | A product already in the cart gets one more unit in place. A new product is appended with quantity 1. The count is recomputed and the sheets are untouched |
| Cart.AddItemCounts | lib/cart-store.ts:61-86 | Adding keeps the invariant, adds exactly one unit of that product and none of any other, and raises the count by one |
| Cart.RemoveItem | lib/cart-store.ts:94-114 | Every line of the product is dropped, the rest keep their order, and the count is recomputed |
| Cart.RemoveItemCounts | lib/cart-store.ts:94-114 | Removing keeps the invariant. It takes away all of the product's units and none of any other's, lowering the count by the product's quantity |
| Cart.UpdateQuantity | lib/cart-store.ts:117-137 | A quantity of 0 or less is a removal. Otherwise the product's lines take the quantity, and an absent product leaves the lines unchanged |
| Cart.UpdateQuantityCounts | lib/cart-store.ts:117-137 | Updating keeps the invariant. A positive quantity becomes the product's quantity when it has a line, the count moves by the difference, and no other product changes |
| Cart.SetQuantityCounts | lib/cart-store.ts:123-136 | Setting a positive quantity on valid lines keeps them valid and changes only that product's units |
| Cart.ClearCart | lib/cart-store.ts:140-143 | No lines, no units of any product, count 0, and sheets untouched |
| Cart.OpenCart | lib/cart-store.ts:146 | The cart sheet opens; nothing else changes |
| Cart.CloseCart | lib/cart-store.ts:147 | The cart sheet closes; nothing else changes |
| Cart.OpenCheckout | lib/cart-store.ts:148 | The checkout sheet opens and the cart sheet closes |
| Cart.CloseCheckout | lib/cart-store.ts:149 | The checkout sheet closes; nothing else changes |
| Cart.Checkout | lib/cart-store.ts:152-194 | An empty cart is refused and nothing changes. A successful payment empties the cart and closes both sheets. A failed one leaves the store as it was and reports the message |
| PageWindows.PageNumbers | components/products-table.tsx:66-100 | The strip has at most 7 slots and is empty exactly when there are no pages. It starts at page 1, ends at the last page, and lists every page when there are at most 7. Its links are pages of the list, and adjacent links are adjacent pages. An ellipsis stands only between links with a gap. The current page and its existing neighbours are always linked |
| PageWindows.StripAscending | components/products-table.tsx:66-100 | The links of a well-formed strip increase strictly |
| PageWindows.TablePrevious | components/products-table.tsx:216-218 | Previous moves back one page only from a page after the first. Its agreement with the storefront's button is stated in PageWindows.PrevNextAgree |
| PageWindows.TableNext | components/products-table.tsx:250-252 | Next moves on one page only from a page before the last. Its agreement with the storefront's button is stated in PageWindows.PrevNextAgree |
| PageWindows.VisiblePages | app/products/page.tsx:247-252 | The storefront lists pages of the list in strictly increasing order. A page is listed exactly when it is the first, the last, or within one of the current page |
| PageWindows.VisiblePagesShowsEnds | app/products/page.tsx:247-252 | The list starts at page 1, ends at the last page, and includes the current page's existing neighbours |
| PageWindows.EllipsisMarksHiddenPage | app/products/page.tsx:255 | After the first link, "..." precedes a link exactly when the page just before it is not listed |
| PageWindows.StorefrontWithinTable | app/products/page.tsx:247-252 | Every page the storefront lists is also linked by the table's strip |
| PageWindows.StorefrontPrevious | app/products/page.tsx:242 | The target is at least page 1 and never after the current page |
| PageWindows.StorefrontNext | app/products/page.tsx:270 | The target is at most the last page and at most one page on |
| PageWindows.PrevNextAgree | app/products/page.tsx:242-270 | On a page of the list, the table's and storefront's Previous buttons lead to the same page, and so do their Next buttons, always within the list. Past the last page the storefront's Next moves back while the table's stays put |
| Storefront.Featured | app/page.tsx:36-45 | The featured list holds at most 8 products, all qualifying (rate at least 4.0, at least 100 reviews), in non-increasing rate, drawn from the products. It holds as many as qualify up to 8. With no products the previous list is kept |
| Storefront.FeaturedIsTopRated | app/page.tsx:39-42 | A qualifying product left out is rated no higher than any featured one |
| Storefront.CategoryOptions | app/products/page.tsx:74 | The options are exactly the categories of the filtered products, none twice, in order of first appearance in the filtered list |
| Storefront.ApplyPreset | app/products/page.tsx:365-389 | A preset sets its price bounds, keeps the search and category, and returns to page 1 |
| Storefront.PresetKeepsBand | app/products/page.tsx:365-389 | A preset keeps exactly the products the other criteria keep whose price is in its inclusive band |
| Storefront.PresetBands | app/products/page.tsx:365-389 | Every price is in some band. The boundary prices 25, 50 and 100 each fall into two presets, and every other price into one |

## Left out

- Network and mock API: each request's settled result is an argument of the action. The `loading: true` state while a request is in flight is not modelled, and neither are delays or random failures and ids.
- Toasts, `console.warn`, the zustand `persist` middleware and the cart's `partialize`: UI and persistence only.
- Concurrency: two mutations in flight at once may interleave. The model runs actions one after another.
- The `Array.isArray` guard at the start of both `applyFilters`: every model state holds a sequence, so the guard's early return cannot happen.
- Text.Lower: only ASCII letters are lower-cased. The Unicode case mapping of `toLowerCase` is out of scope.
- Prices and ratings are `real` and are only compared. JavaScript float rounding is not modelled.
- The cart `total` with `Math.round(total * 100) / 100`: floating-point rounding. The model has no total field.
- Paging.Pos: the page size is positive. The views only offer 5, 10, 20 and 50; a size of 0 would make `Math.ceil` return Infinity.
- Seqs.SortBy: the contract states that the result is sorted and a permutation, but not the stability of `Array.prototype.sort`. The ties among equal ids or rates follow insertion order in the model.
- PageWindows.PageNumbers: the contract states the strip's shape properties, not the literal slot lists of the three cases above seven pages. Those lists are the function's body.
- Cart.Checkout: the `CheckoutData` form fields are not read by the store. The two-second delay and the random 10% failure are the `payment` argument, and the rethrown error is the `PaymentFailed` outcome.
- Catalog.AddProduct and Catalog.UpdateProduct: the server assigns ids and merges partial updates. The model takes the returned record as given.
- The storefront's `totalPages > 1` guard around its pagination, the `isActive` highlighting and all rendering: presentation only.
- `lib/axios.ts`, `lib/auth-store.ts`, `lib/schemas.ts`, the signup and add-product forms, the sidebar, layouts and badges are not part of this model: they are HTTP plumbing, browser storage, library validators or rendering.

## Findings

| source | as written | input that shows it | evidently intended | confidence | as-written member | corrected member |
|---|---|---|---|---|---|---|
| lib/products-store.ts:277-308 | The optimistic delete refilters, which clamps `currentPage` to the shrunken page count. The rollback refilters again, but does not restore the page held before | Two products shown one per page, page 2 open; deleting product 2 fails. Both products are back, but the store shows page 1 | A failed delete leaves the store as it was apart from the error message, the page included | low, not executed; the behaviour may be accepted as harmless | Catalog.DeleteRollbackMovesPage | Catalog.DeleteRestoringPageRollbackIsNoOp |
