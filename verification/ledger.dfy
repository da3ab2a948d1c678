/**
 * Sequences of service calls against one store, each call its own
 * transaction: the stock-conservation law behind "no overselling", the
 * invariants every call preserves, and the overselling that zero and negative
 * order quantities let through.
 */
module Ledger {
  import opened Models
  import opened Store
  import opened ProductService
  import opened OrderService

  datatype OrderRequest = OrderRequest(userId: int, productId: int, quantity: int)

  /** Serves the order requests one after another. */
  function PlaceAll(db: Db, reqs: seq<OrderRequest>): (r: Db)
    ensures r.products.Keys == db.products.Keys
    ensures |db.orders| <= |r.orders| && r.orders[..|db.orders|] == db.orders
    decreases |reqs|
  {
    if reqs == [] then db
    else PlaceAll(CreateOrder(db, reqs[0].userId, reqs[0].productId, reqs[0].quantity).db, reqs[1..])
  }

  /** The orders created by serving `reqs`. */
  function NewOrders(db: Db, reqs: seq<OrderRequest>): seq<Order>
  {
    var after := PlaceAll(db, reqs);
    after.orders[|db.orders|..]
  }

  lemma {:induction false} OrderedQtyAppend(xs: seq<Order>, ys: seq<Order>, pid: int)
    ensures OrderedQty(xs + ys, pid) == OrderedQty(xs, pid) + OrderedQty(ys, pid)
    decreases |ys|
  {
    if ys == [] {
      assert xs + ys == xs;
    } else {
      var zs := xs + ys;
      assert zs[..|zs| - 1] == xs + ys[..|ys| - 1];
      OrderedQtyAppend(xs, ys[..|ys| - 1], pid);
    }
  }

  /** Over any run of order placements, a product's stock falls by exactly the
      signed total ordered of it, whatever was accepted or refused. */
  lemma {:induction false} StockConservation(db: Db, reqs: seq<OrderRequest>, pid: int)
    requires pid in db.products
    ensures pid in PlaceAll(db, reqs).products
    ensures PlaceAll(db, reqs).products[pid].stock + OrderedQty(NewOrders(db, reqs), pid) == db.products[pid].stock
    decreases |reqs|
  {
    var after := PlaceAll(db, reqs);
    assert after.orders == db.orders + NewOrders(db, reqs);
    OrderedQtyAppend(db.orders, NewOrders(db, reqs), pid);
    StockPlusOrdered(db, reqs, pid);
  }

  lemma {:induction false} StockPlusOrdered(db: Db, reqs: seq<OrderRequest>, pid: int)
    requires pid in db.products
    ensures pid in PlaceAll(db, reqs).products
    ensures PlaceAll(db, reqs).products[pid].stock + OrderedQty(PlaceAll(db, reqs).orders, pid)
         == db.products[pid].stock + OrderedQty(db.orders, pid)
    decreases |reqs|
  {
    if reqs != [] {
      var next := CreateOrder(db, reqs[0].userId, reqs[0].productId, reqs[0].quantity).db;
      StockPlusOrdered(next, reqs[1..], pid);
    }
  }

  /** Starting from a non-negative stock level, no run of order placements
      drives it negative. */
  lemma {:induction false} StockStaysNonNegative(db: Db, reqs: seq<OrderRequest>, pid: int)
    requires pid in db.products && db.products[pid].stock >= 0
    ensures pid in PlaceAll(db, reqs).products && PlaceAll(db, reqs).products[pid].stock >= 0
    decreases |reqs|
  {
    if reqs != [] {
      var r := CreateOrder(db, reqs[0].userId, reqs[0].productId, reqs[0].quantity);
      assert pid in r.db.products && r.db.products[pid].stock >= 0;
      StockStaysNonNegative(r.db, reqs[1..], pid);
    }
  }

  /** No overselling, as far as the code guarantees it: the signed total
      ordered of a product never exceeds the stock it started with. */
  lemma OrderedNeverExceedsStock(db: Db, reqs: seq<OrderRequest>, pid: int)
    requires pid in db.products && db.products[pid].stock >= 0
    ensures OrderedQty(NewOrders(db, reqs), pid) <= db.products[pid].stock
  {
    StockConservation(db, reqs, pid);
    StockStaysNonNegative(db, reqs, pid);
  }

  // ---------------------------------------------------------------------
  // Arbitrary interleavings of all service calls

  /** One write-side service call. */
  datatype Command =
    | NewProduct(name: string, price: real, stock: int)
    | SetPrice(id: int, price: real)
    | Discount(id: int, percent: real)
    | SetStock(id: int, stock: int)
    | PlaceOrder(userId: int, productId: int, quantity: int)

  /** The store after one call, committed or rolled back. */
  function Step(db: Db, c: Command): Db
  {
    match c
    case NewProduct(name, price, stock) => CreateProduct(db, name, price, stock).db
    case SetPrice(id, price) => UpdatePrice(db, id, price).db
    case Discount(id, percent) => ApplyDiscount(db, id, percent).db
    case SetStock(id, stock) => UpdateStock(db, id, stock).db
    case PlaceOrder(userId, productId, quantity) => CreateOrder(db, userId, productId, quantity).db
  }

  function Run(db: Db, cmds: seq<Command>): Db
    decreases |cmds|
  {
    if cmds == [] then db else Run(Step(db, cmds[0]), cmds[1..])
  }

  predicate AllPending(orders: seq<Order>)
  {
    forall i :: 0 <= i < |orders| ==> orders[i].status == Pending
  }

  /** Every call preserves positive prices, non-negative stock, well-formed
      ids and order references, and the order log only grows, by pending
      orders: nothing moves an order out of PENDING. */
  lemma StepPreserves(db: Db, c: Command)
    requires Valid(db)
    ensures Valid(Step(db, c))
    ensures |db.orders| <= |Step(db, c).orders| && Step(db, c).orders[..|db.orders|] == db.orders
    ensures AllPending(db.orders) ==> AllPending(Step(db, c).orders)
  {
  }

  /** Any interleaving of calls keeps the store valid, keeps the order log
      append-only, and leaves every order it creates PENDING. */
  lemma {:induction false} RunPreserves(db: Db, cmds: seq<Command>)
    requires Valid(db)
    ensures Valid(Run(db, cmds))
    ensures |db.orders| <= |Run(db, cmds).orders| && Run(db, cmds).orders[..|db.orders|] == db.orders
    ensures AllPending(db.orders) ==> AllPending(Run(db, cmds).orders)
    decreases |cmds|
  {
    if cmds != [] {
      var next := Step(db, cmds[0]);
      StepPreserves(db, cmds[0]);
      RunPreserves(next, cmds[1..]);
      var final := Run(db, cmds);
      assert final.orders[..|next.orders|] == next.orders;
      assert final.orders[..|db.orders|] == final.orders[..|next.orders|][..|db.orders|];
    }
  }

  // ---------------------------------------------------------------------
  // Overselling through non-positive quantities

  /** The units actually handed to buyers of product `pid`: orders of zero or
      negative quantity hand out nothing. */
  function UnitsHandedOut(orders: seq<Order>, pid: int): nat
  {
    if orders == [] then 0
    else
      var last := orders[|orders| - 1];
      UnitsHandedOut(orders[..|orders| - 1], pid)
        + (if last.productId == pid && last.quantity > 0 then last.quantity else 0)
  }

  /** As written, an order of -5 units raises a stock of 1 to 6, after which
      an order of 6 units is accepted: 6 units are handed out of a stock of 1. */
  lemma NegativeQuantityOversells()
    ensures
      var db := Db(map[1 := Product(1, "Tee", 10.0, 1, true)], [], 1, 0);
      var reqs := [OrderRequest(7, 1, -5), OrderRequest(8, 1, 6)];
      UnitsHandedOut(NewOrders(db, reqs), 1) == 6 > db.products[1].stock
  {
  }

  /** Serves the order requests with the quantity check in place. */
  function PlaceAllValidated(db: Db, reqs: seq<OrderRequest>): (r: Db)
    ensures r.products.Keys == db.products.Keys
    ensures |db.orders| <= |r.orders| && r.orders[..|db.orders|] == db.orders
    decreases |reqs|
  {
    if reqs == [] then db
    else PlaceAllValidated(CreateOrderValidated(db, reqs[0].userId, reqs[0].productId, reqs[0].quantity).db, reqs[1..])
  }

  lemma {:induction false} UnitsHandedOutAppend(xs: seq<Order>, ys: seq<Order>, pid: int)
    ensures UnitsHandedOut(xs + ys, pid) == UnitsHandedOut(xs, pid) + UnitsHandedOut(ys, pid)
    decreases |ys|
  {
    if ys == [] {
      assert xs + ys == xs;
    } else {
      var zs := xs + ys;
      assert zs[..|zs| - 1] == xs + ys[..|ys| - 1];
      UnitsHandedOutAppend(xs, ys[..|ys| - 1], pid);
    }
  }

  lemma {:induction false} ValidatedRunConserves(db: Db, reqs: seq<OrderRequest>, pid: int)
    requires pid in db.products && db.products[pid].stock >= 0
    ensures pid in PlaceAllValidated(db, reqs).products
    ensures PlaceAllValidated(db, reqs).products[pid].stock >= 0
    ensures PlaceAllValidated(db, reqs).products[pid].stock + UnitsHandedOut(PlaceAllValidated(db, reqs).orders, pid)
         == db.products[pid].stock + UnitsHandedOut(db.orders, pid)
    decreases |reqs|
  {
    if reqs != [] {
      var q := reqs[0];
      var r := CreateOrderValidated(db, q.userId, q.productId, q.quantity);
      if r.Committed? {
        assert r.db.orders[..|r.db.orders| - 1] == db.orders;
        assert r.db.products[pid].stock + UnitsHandedOut(r.db.orders, pid)
            == db.products[pid].stock + UnitsHandedOut(db.orders, pid);
      }
      ValidatedRunConserves(r.db, reqs[1..], pid);
    }
  }

  /** With the quantity check in place, the units handed out of a product by
      any run of order placements never exceed the stock it started with. */
  lemma ValidatedNeverOversells(db: Db, reqs: seq<OrderRequest>, pid: int)
    requires pid in db.products && db.products[pid].stock >= 0
    ensures var after := PlaceAllValidated(db, reqs);
      UnitsHandedOut(after.orders[|db.orders|..], pid) <= db.products[pid].stock
  {
    var after := PlaceAllValidated(db, reqs);
    ValidatedRunConserves(db, reqs, pid);
    assert after.orders == db.orders + after.orders[|db.orders|..];
    UnitsHandedOutAppend(db.orders, after.orders[|db.orders|..], pid);
  }
}
