/**
 * Flash-sale order placement: lock the product row, check that the product
 * exists, is active and has enough stock, debit the stock, price the order and
 * record it as pending — all in one transaction that either commits both the
 * debit and the order or neither.
 */
module OrderService {
  import opened Models
  import opened Store

  /** The signed total of the quantities ordered of product `pid` in `orders`. */
  function OrderedQty(orders: seq<Order>, pid: int): int
  {
    if orders == [] then 0
    else
      var last := orders[|orders| - 1];
      OrderedQty(orders[..|orders| - 1], pid) + (if last.productId == pid then last.quantity else 0)
  }

  /** Places an order for `quantity` units of a product. The quantity itself is
      not validated: zero and negative quantities pass every guard. */
  function CreateOrder(db: Db, userId: int, productId: int, quantity: int): (r: Txn<Order>)
    // Rollback: a failed call leaves the store exactly as it was.
    ensures r.RolledBack? ==> r.db == db
    // The guards, in the order they are checked.
    ensures r.Committed? <==>
      productId in db.products && db.products[productId].isActive && db.products[productId].stock >= quantity
    ensures productId !in db.products ==> r == RolledBack(db, ProductNotFound)
    ensures productId in db.products && !db.products[productId].isActive ==> r == RolledBack(db, ProductInactive)
    ensures productId in db.products && db.products[productId].isActive && db.products[productId].stock < quantity ==>
      r == RolledBack(db, InsufficientStock)
    // Commit: the stock debit and the new pending order persist together.
    ensures r.Committed? ==>
      && productId in db.products
      && r.db.products.Keys == db.products.Keys
      && r.db.products[productId] == db.products[productId].(stock := r.db.products[productId].stock)
      && r.db.products[productId].stock + quantity == db.products[productId].stock
      && r.db.products[productId].stock >= 0
      && (forall k :: k in db.products && k != productId ==> r.db.products[k] == db.products[k])
      && r.db.orders == db.orders + [r.value]
      && r.db.productSeq == db.productSeq
    ensures r.Committed? ==>
      && r.value.userId == userId && r.value.productId == productId && r.value.quantity == quantity
      && r.value.totalAmount == db.products[productId].price * quantity as real
      && r.value.status == Pending
      && r.value.id == db.orderSeq + 1 == r.db.orderSeq
    // Per-product conservation: stock plus everything ordered is unchanged.
    ensures forall pid :: pid in db.products ==>
      pid in r.db.products &&
      r.db.products[pid].stock + OrderedQty(r.db.orders, pid) == db.products[pid].stock + OrderedQty(db.orders, pid)
    ensures Wf(db) ==> Wf(r.db)
    ensures Valid(db) ==> Valid(r.db)
  {
    match LockForUpdate(db, productId)
    case Missing => RolledBack(db, ProductNotFound)
    case Found(p) =>
      if !p.isActive then RolledBack(db, ProductInactive)
      else if p.stock < quantity then RolledBack(db, InsufficientStock)
      else
        var debited := p.(stock := p.stock - quantity);
        var order := Order(db.orderSeq + 1, userId, productId, quantity, p.price * quantity as real, Pending);
        var orders' := db.orders + [order];
        assert orders'[..|orders'| - 1] == db.orders;
        Committed(Put(db, productId, debited).(orders := orders', orderSeq := order.id), order)
  }

  /** Order placement with the quantity check the code leaves out: a quantity
      below one is refused before the product row is touched. */
  function CreateOrderValidated(db: Db, userId: int, productId: int, quantity: int): (r: Txn<Order>)
    ensures r.RolledBack? ==> r.db == db
    ensures quantity < 1 ==> r == RolledBack(db, InvalidQuantity)
    ensures r.Committed? <==>
      quantity >= 1 && productId in db.products && db.products[productId].isActive
      && db.products[productId].stock >= quantity
    ensures r.Committed? ==> r.value.quantity >= 1 && r.db.orders == db.orders + [r.value]
    ensures quantity >= 1 ==> r == CreateOrder(db, userId, productId, quantity)
  {
    if quantity < 1 then RolledBack(db, InvalidQuantity)
    else CreateOrder(db, userId, productId, quantity)
  }
}
