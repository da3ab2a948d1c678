/**
 * The persistent records of the flash-sale engine: catalogue products and the
 * orders placed against them. Monetary columns (`Numeric(10,2)` in the
 * database, `Decimal` in the service code) are modelled as exact reals; the
 * server-side `created_at` timestamps are not modelled.
 */
module Models {

  /** One row of the `products` table. */
  datatype Product = Product(
    id: int,
    name: string,
    price: real,
    stock: int,
    isActive: bool
  )

  /** The states an order can be in. Only `Pending` is ever written by the services. */
  datatype OrderStatus = Pending | Paid | Failed

  /** One row of the `orders` table. */
  datatype Order = Order(
    id: int,
    userId: int,
    productId: int,
    quantity: int,
    totalAmount: real,
    status: OrderStatus
  )

}
