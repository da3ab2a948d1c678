/**
 * The transactional store the services work on, and the shape of a service
 * call's outcome.
 *
 * The database is abstracted as a map from product id to product, an
 * append-only log of orders, and the two primary-key sequences that hand out
 * fresh ids. A service call either commits (its writes become the new state)
 * or rolls back (the state is exactly what it was before the call).
 */
module Store {
  import opened Models

  /** The reasons a service call raises instead of committing. */
  datatype Error =
    | InvalidName
    | InvalidPrice
    | InvalidStock
    | InvalidProductId
    | DiscountNotPositive
    | DiscountTooLarge
    | ProductNotFound
    | ProductInactive
    | InsufficientStock
    | SamePrice
    | NonPositiveDiscountedPrice
    | InvalidPage
    | InvalidLimit
    | InvalidQuantity

  /** The state of the database. `productSeq` and `orderSeq` are the last
      values the primary-key sequences of the two tables have handed out. */
  datatype Db = Db(
    products: map<int, Product>,
    orders: seq<Order>,
    productSeq: nat,
    orderSeq: nat
  )

  /** The result of one transactional service call: the committed state and
      the returned row, or the rolled-back state and the raised error. */
  datatype Txn<T> =
    | Committed(db: Db, value: T)
    | RolledBack(db: Db, error: Error)

  /** The outcome of a validation helper: it passes, or it raises `error`. */
  datatype Check = Pass | Fail(error: Error)

  /** Structural well-formedness of the store: every product is filed under
      its own id, which the products sequence has already handed out; order
      ids were handed out by the orders sequence in increasing order; and
      every order refers to an existing product. */
  ghost predicate Wf(db: Db)
  {
    && (forall k :: k in db.products ==> 1 <= k <= db.productSeq && db.products[k].id == k)
    && (forall i :: 0 <= i < |db.orders| ==> 1 <= db.orders[i].id <= db.orderSeq)
    && (forall i, j :: 0 <= i < j < |db.orders| ==> db.orders[i].id < db.orders[j].id)
    && (forall i :: 0 <= i < |db.orders| ==> db.orders[i].productId in db.products)
  }

  /** The business invariant the validators exist to protect: every stored
      price is positive and every stored stock level is non-negative. */
  ghost predicate Valid(db: Db)
  {
    && Wf(db)
    && (forall k :: k in db.products ==> db.products[k].price > 0.0)
    && (forall k :: k in db.products ==> db.products[k].stock >= 0)
  }

  /** The row-locked fetch by primary key: the product filed under `id`, if any.
      The lock itself only serialises concurrent callers and is not modelled. */
  function LockForUpdate(db: Db, id: int): (r: Fetch)
    ensures r.Found? <==> id in db.products
    ensures r.Found? ==> r.product == db.products[id]
  {
    if id in db.products then Found(db.products[id]) else Missing
  }

  /** The row returned by a primary-key fetch, or none. */
  datatype Fetch = Found(product: Product) | Missing

  /** The result of a call that reads but does not write the store. */
  datatype Outcome<T> = Ok(value: T) | Err(error: Error)

  /** `after` differs from `before` at most in the product filed under `id`:
      the same products exist, every other product is as it was, and neither
      the order log nor the id sequences moved. */
  ghost predicate OnlyProductChanged(before: Db, after: Db, id: int)
  {
    && after.products.Keys == before.products.Keys
    && (forall k :: k in before.products && k != id ==> after.products[k] == before.products[k])
    && after.orders == before.orders
    && after.productSeq == before.productSeq
    && after.orderSeq == before.orderSeq
  }

  /** The store after replacing the product filed under `id`; the write every
      update performs on the row it locked. */
  function Put(db: Db, id: int, p: Product): (r: Db)
    requires id in db.products
    ensures OnlyProductChanged(db, r, id)
    ensures r.products[id] == p
  {
    db.(products := db.products[id := p])
  }
}
