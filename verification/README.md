# Flash-sale engine: stock debit and catalogue rules

This project models the service layer of the flash-sale engine. It has two parts.

- **Order placement.** `OrderService.create_order` locks a product row and checks, in this order, that the product exists, is active and has at least the requested stock. It then debits the stock, prices the order at `price * quantity` and records it as `PENDING`. The debit and the order are committed together, or both are rolled back.
- **Catalogue rules.** `ProductService` provides product creation, price changes, percentage discounts and stock updates. Each is guarded by its validation helpers. It also computes the arguments of the paginated product listing: page and limit bounds, the row offset, and the normalised search keywords.

The database is a `Db` value (`store.dfy`) with these parts:
- a map from product id to `Product`;
- an append-only log of `Order`s;
- the last values handed out by the two primary-key sequences.

Each service call is a pure function. It returns `Committed(db', row)` or `RolledBack(db, error)`. A raised `ValueError` followed by `session.rollback()` therefore becomes "the error outcome carries the unchanged store". The row-locked fetch `get_by_id_for_update` is a map lookup (`Store.LockForUpdate`). Each call is one atomic step.

Files:
- `models.dfy`: the `Product` and `Order` records and `OrderStatus`.
- `store.dfy`: the store, the outcome types, the invariants `Wf` and `Valid`, and the locked fetch.
- `options.dfy`: the optional value (Python's `None` or a present value).
- `search_text.dfy`: Python's `strip`, `lower` and `split()` on ASCII text, and the keyword normalisation.
- `product_service.dfy`: the validation helpers, `create_product`, `update_price`, `apply_discount`, `update_stock` and `get_products`.
- `order_service.dfy`: `create_order`, plus a variant of it that also validates the quantity.
- `ledger.dfy`: lemmas about sequences of calls:
  - stock conservation and no overselling;
  - preservation of the store invariant under any interleaving of calls;
  - the overselling that non-positive quantities allow.

The model follows the code, including three gaps:
- `create_order` never checks that `quantity` is positive.
- `update_stock` checks neither that the id is positive nor that the product is active.
- A search text made only of whitespace yields an empty keyword list, not no list.

Python `Decimal` values and `Numeric(10,2)` columns are modelled as exact reals; "## Left out" names the proved properties that depend on this.

## Model

| member | source | states |
|---|---|---|
| `Store.LockForUpdate` | app/repositories/product_repo.py:29-35 | The locked fetch finds a product exactly when its id is in the store, and returns the stored row. |
| `ProductService.ValidateName` | app/services/product_service.py:277-279 | A name passes exactly when it has at least 3 characters, so the empty name is refused. A failure raises the name error. |
| `ProductService.ValidatePrice` | app/services/product_service.py:282-284 | A price passes exactly when it is greater than zero. |
| `ProductService.ValidateStock` | app/services/product_service.py:287-289 | A stock level passes exactly when it is not negative. |
| `ProductService.ValidateProductId` | app/services/product_service.py:292-294 | An id passes exactly when it is at least 1. |
| `ProductService.ValidateDiscountPercentage` | app/services/product_service.py:297-302 | A percentage passes exactly when it lies strictly between 0 and 100. A percentage ≤ 0 raises the lower-bound error first; one ≥ 100 raises the upper-bound error. |
| `ProductService.GetProductOrFail` | app/services/product_service.py:259-271 | Returns the stored product when the id exists. Otherwise it raises "product not found". |
| `ProductService.CreateProduct` | app/services/product_service.py:36-77 | Commits exactly when the name has at least 3 characters, price > 0 and stock ≥ 0. Otherwise it rolls back with the first failing check's error. On commit it inserts an active product with exactly the given name, price and stock, under a fresh id from the products sequence, and changes nothing else. It preserves well-formedness and "all prices > 0, all stock ≥ 0". |
| `ProductService.UpdatePrice` | app/services/product_service.py:80-117 | Checks, in order: price > 0, id ≥ 1, the product exists, the new price differs from the current one. A failure rolls back with that check's error. On commit only that product's price changes, to the new price. It preserves the store invariant. |
| `ProductService.DiscountLowersPrice` | app/services/product_service.py:145-151 | A discount strictly between 0 and 100 per cent of a positive price gives a price that is still positive and strictly lower. |
| `ProductService.DiscountGuardFiresIff` | app/services/product_service.py:145-151 | Under a valid discount, the "discounted price must be > 0" guard fires exactly when the stored price was not positive. |
| `ProductService.ApplyDiscount` | app/services/product_service.py:131-163 | Checks, in order: id ≥ 1, the discount is above 0, the discount is below 100, the product exists, the discounted price is > 0. On commit the new price is (100 − d)/100 of the old, lies strictly between 0 and the old price, and nothing but that price changes. A failure rolls back. |
| `ProductService.DiscountExample` | app/services/product_service.py:145-154 | A 20 per cent discount on a product priced 100 commits and prices it at 80. |
| `ProductService.UpdateStock` | app/services/product_service.py:234-253 | Commits exactly when new_stock ≥ 0 and the product exists, with no id-sign or active check. On commit that product's stock becomes exactly new_stock and nothing else changes. A failure rolls back. It preserves "all stock ≥ 0". |
| `ProductService.GetProducts` | app/services/product_service.py:196-224 | Page and limit default to 1 and 10 and the search to none. Refuses page < 1 first, then any limit outside 1..50. Otherwise it passes the limit through unchanged. The offset is ≥ 0, is 0 on page 1, and the page ends after page × limit rows. The keywords are the normalised search. |
| `ProductService.DefaultListing` | app/services/product_service.py:196-224 | A call with no arguments asks for rows 0..9 with no keyword filter. |
| `ProductService.ConsecutivePagesAdjoin` | app/services/product_service.py:213 | The next page starts exactly where the current one ends, so pages neither overlap nor leave gaps. |
| `ProductService.WhitespaceSearchGivesEmptyKeywords` | app/services/product_service.py:215-218 | A non-empty search made only of whitespace reaches the query as an empty keyword list, not as no search. |
| `SearchText.Lower` | app/services/product_service.py:217 | Lower-casing keeps the length, turns each upper-case letter A..Z into the matching lower-case letter a..z, and changes no other character, so whitespace is preserved and no upper-case letter remains. |
| `SearchText.LowerIdempotent` | app/services/product_service.py:217 | Lower-casing twice is the same as lower-casing once. |
| `SearchText.Strip` | app/services/product_service.py:217 | The stripped text is a contiguous slice of the input. Only whitespace is cut on either side, and the result neither starts nor ends with whitespace. |
| `SearchText.StripIdempotent` | app/services/product_service.py:217 | Stripping twice is the same as stripping once. |
| `SearchText.Split` | app/services/product_service.py:218 | Every word produced by the whitespace split is non-empty and contains no whitespace. |
| `SearchText.SplitContents` | app/services/product_service.py:218 | The split loses only whitespace: the words concatenated are exactly the input's non-whitespace characters, in order. |
| `SearchText.SplitJoinRoundTrip` | app/services/product_service.py:218 | Splitting the single-space join of a list of non-empty, whitespace-free words gives back the list. |
| `SearchText.StripLowerNonSpace` | app/services/product_service.py:217 | Stripping before lower-casing removes no non-whitespace character. |
| `SearchText.Keywords` | app/services/product_service.py:215-218 | There are no keywords exactly when the search is absent or empty. Otherwise every keyword is non-empty, lower-case and free of whitespace, and together they hold exactly the non-whitespace characters of the lower-cased search. |
| `OrderService.CreateOrder` | app/services/order_service.py:18-71 | Missing product, then inactive product, then stock < quantity: each rolls back with its own error and leaves the store unchanged. Otherwise the stock and the order are committed together:<br>• the product's stock falls by exactly the quantity and stays ≥ 0;<br>• its other fields and every other product are untouched;<br>• exactly one order is appended, with the given user, product and quantity, total = price × quantity, status PENDING and the next order id;<br>• for every product, stock plus quantity ordered is unchanged, and the store invariant is preserved. |
| `OrderService.CreateOrderValidated` | app/services/order_service.py:43-48 | The corrected placement refuses a quantity below 1 and leaves the store unchanged. For any other quantity it behaves exactly like `create_order`, so every order it records has a positive quantity. |
| `Ledger.StockConservation` | app/services/order_service.py:43-65 | Over any sequence of `create_order` calls, a product's final stock plus the signed quantities of the orders created equals its initial stock. |
| `Ledger.StockStaysNonNegative` | app/services/order_service.py:43-48 | Starting from a stock ≥ 0, no sequence of order placements makes a product's stock negative. |
| `Ledger.OrderedNeverExceedsStock` | app/services/order_service.py:43-65 | Starting from a stock S ≥ 0, the signed total quantity ordered of a product over any sequence of `create_order` calls is at most S. Interleaved `update_stock` calls are not covered, and the signed total can hide overselling (see Findings). |
| `Ledger.StepPreserves` | app/services/product_service.py:36-253 | Any single write call keeps the store valid (positive prices, non-negative stock, well-formed ids and order references). The order log only grows, and only by PENDING orders. |
| `Ledger.RunPreserves` | app/services/order_service.py:51-65 | Any interleaving of product and order calls keeps the store valid, keeps the order log append-only, and leaves every order PENDING. |
| `Ledger.NegativeQuantityOversells` | app/services/order_service.py:43-48 | As written, an order of −5 followed by an order of 6 against a stock of 1 both commit, so 6 units are handed out of a stock of 1. |
| `Ledger.ValidatedNeverOversells` | app/services/order_service.py:43-65 | With the quantity check, the units handed out over any sequence of placements never exceed the initial stock. |

## Left out

- Row locking and concurrency: `with_for_update` only serialises concurrent buyers. Every service call is modelled as one atomic step, and interleavings within a call are not modelled.
- Sessions, flush, commit and `expire_on_commit`, and the repositories' query construction: these are abstracted as the `Db` value. The failure of a commit itself is not modelled.
- Database-assigned ids are modelled as sequences that advance only on commit. Every error the services raise themselves comes before the row is inserted, so such a rollback leaves the sequences alone. An insert refused by the database at flush time would already have advanced the sequence; that failure is not modelled (next line).
- Database constraint failures at flush time are not modelled. `orders.user_id` is a non-null foreign key to `users.id`, so on a database that enforces it `create_order` for an unknown user fails at the flush and rolls back; the model has no users table and commits. `stock` and `quantity` are 32-bit `Integer` columns, so a stock or quantity outside −2³¹..2³¹−1 is refused by the database; the model's integers are unbounded, and `update_stock(id, 2**31)` commits in it.
- `get_active_products_paginated` is called by `get_products` but its query semantics are not part of this model. Only the offset, limit and keywords handed to it are modelled.
- Decimal context precision and rounding in the discount division, and the `Numeric(10,2)` quantisation on commit: prices and totals are exact reals. The following proved properties depend on that, and do not hold once prices are stored to two decimals:
- `Store.Valid`: "every price > 0" fails under quantisation. `create_product("abc", Decimal("0.001"), 1)` passes the price check and stores 0.00, so the preservation claims of `ProductService.CreateProduct`, `Ledger.StepPreserves` and `Ledger.RunPreserves` hold only for exact prices.
- `ProductService.ApplyDiscount`: a 60 per cent discount on 0.01 gives 0.004, which passes the "> 0" guard and is stored as 0.00. The guard therefore stays reachable in the program, although over exact reals it fires only on a non-positive stored price.
- `ProductService.DiscountLowersPrice`: "the new price is strictly lower" fails under quantisation. A 10 per cent discount on 0.01 gives 0.009, which is stored as 0.01.
- The `String(255)` length bound on product names and the range of `Numeric(10,2)`: these are database constraints, not service rules.
- `created_at` server timestamps: they depend on the clock.
- Unicode behaviour of `str.lower`, `str.strip`, `str.split` and `len`: the model lower-cases only ASCII letters, and treats only the ASCII characters Python counts as whitespace as whitespace.
- HTTP routing, application start-up and settings, Pydantic schemas, password hashing and the database scripts: these are outside the service layer.
- Payments and order transitions: the `Payment` model has no logic, and no code moves an order to `PAID` or `FAILED`. Only the enum is modelled.
- Idempotency keys, reserved counters, reservation deadlines, expiry and payment reconciliation have no code, so they are not modelled.

## Findings

| source | as written | input that shows it | evidently intended | confidence | as-written member | corrected member |
|---|---|---|---|---|---|---|
| app/services/order_service.py:43-48 | `quantity` is never checked to be positive. A negative quantity passes `stock < quantity`, raises the stock and records an order with a negative total. Units handed to later buyers can then exceed the initial stock. | Stock 1: order −5 (stock becomes 6), then order 6. Both commit and 6 units are handed out. | Refuse a quantity below 1 before touching the product. | high; not executed | `Ledger.NegativeQuantityOversells` | `OrderService.CreateOrderValidated` |

The rest of the model keeps `OrderService.CreateOrder` as written: `Ledger.PlaceAll` and `Ledger.Step` describe what the code actually does. `Ledger.PlaceAllValidated` runs the corrected placement, and `Ledger.ValidatedNeverOversells` proves the intended bound for it.
