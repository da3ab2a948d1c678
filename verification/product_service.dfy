/**
 * The catalogue business rules: creating a product, changing its price,
 * discounting it, setting its stock, and computing the arguments of the
 * paginated, keyword-filtered product listing.
 *
 * Each call validates its arguments in the order the service does, fetches
 * the product row under lock where it needs one, and either commits its single
 * write or rolls back leaving the store as it was.
 */
module ProductService {
  import opened Models
  import opened Store
  import opened Options
  import opened SearchText

  // ---------------------------------------------------------------------
  // Validation helpers

  /** A product name needs at least three characters (the empty name included). */
  function ValidateName(name: string): (r: Check)
    ensures r.Pass? <==> |name| >= 3
    ensures r.Fail? ==> r.error == InvalidName
  {
    if name == [] || |name| < 3 then Fail(InvalidName) else Pass
  }

  function ValidatePrice(price: real): (r: Check)
    ensures r.Pass? <==> price > 0.0
    ensures r.Fail? ==> r.error == InvalidPrice
  {
    if price <= 0.0 then Fail(InvalidPrice) else Pass
  }

  function ValidateStock(stock: int): (r: Check)
    ensures r.Pass? <==> stock >= 0
    ensures r.Fail? ==> r.error == InvalidStock
  {
    if stock < 0 then Fail(InvalidStock) else Pass
  }

  function ValidateProductId(id: int): (r: Check)
    ensures r.Pass? <==> id >= 1
    ensures r.Fail? ==> r.error == InvalidProductId
  {
    if id <= 0 then Fail(InvalidProductId) else Pass
  }

  /** A discount is a percentage strictly between 0 and 100; the lower bound
      is checked first, each bound with its own error. */
  function ValidateDiscountPercentage(percent: real): (r: Check)
    ensures r.Pass? <==> 0.0 < percent < 100.0
    ensures percent <= 0.0 ==> r == Fail(DiscountNotPositive)
    ensures percent > 0.0 && percent >= 100.0 ==> r == Fail(DiscountTooLarge)
  {
    if percent <= 0.0 then Fail(DiscountNotPositive)
    else if percent >= 100.0 then Fail(DiscountTooLarge)
    else Pass
  }

  /** The locked fetch that raises when the product does not exist. */
  function GetProductOrFail(db: Db, id: int): (r: Outcome<Product>)
    ensures r.Ok? <==> id in db.products
    ensures r.Ok? ==> r.value == db.products[id]
    ensures r.Err? ==> r.error == ProductNotFound
  {
    match LockForUpdate(db, id)
    case Found(p) => Ok(p)
    case Missing => Err(ProductNotFound)
  }

  // ---------------------------------------------------------------------
  // Writes

  /** Inserts a new active product under the next id of the products sequence. */
  function CreateProduct(db: Db, name: string, price: real, stock: int): (r: Txn<Product>)
    ensures r.RolledBack? ==> r.db == db
    ensures r.Committed? <==> |name| >= 3 && price > 0.0 && stock >= 0
    ensures |name| < 3 ==> r == RolledBack(db, InvalidName)
    ensures |name| >= 3 && price <= 0.0 ==> r == RolledBack(db, InvalidPrice)
    ensures |name| >= 3 && price > 0.0 && stock < 0 ==> r == RolledBack(db, InvalidStock)
    ensures r.Committed? ==>
      && r.value.name == name && r.value.price == price && r.value.stock == stock && r.value.isActive
      && r.value.id == db.productSeq + 1 == r.db.productSeq
      && r.db.products.Keys == db.products.Keys + {r.value.id}
      && r.db.products[r.value.id] == r.value
      && (forall k :: k in db.products && k != r.value.id ==> r.db.products[k] == db.products[k])
      && r.db.orders == db.orders && r.db.orderSeq == db.orderSeq
    ensures r.Committed? && Wf(db) ==> r.value.id !in db.products
    ensures Wf(db) ==> Wf(r.db)
    ensures Valid(db) ==> Valid(r.db)
  {
    if ValidateName(name).Fail? then RolledBack(db, ValidateName(name).error)
    else if ValidatePrice(price).Fail? then RolledBack(db, ValidatePrice(price).error)
    else if ValidateStock(stock).Fail? then RolledBack(db, ValidateStock(stock).error)
    else
      var id := db.productSeq + 1;
      var p := Product(id, name, price, stock, true);
      Committed(db.(products := db.products[id := p], productSeq := id), p)
  }

  /** Changes the price of an existing product to a different positive price. */
  function UpdatePrice(db: Db, id: int, newPrice: real): (r: Txn<Product>)
    ensures r.RolledBack? ==> r.db == db
    ensures r.Committed? <==> newPrice > 0.0 && id >= 1 && id in db.products && db.products[id].price != newPrice
    ensures newPrice <= 0.0 ==> r == RolledBack(db, InvalidPrice)
    ensures newPrice > 0.0 && id <= 0 ==> r == RolledBack(db, InvalidProductId)
    ensures newPrice > 0.0 && id >= 1 && id !in db.products ==> r == RolledBack(db, ProductNotFound)
    ensures newPrice > 0.0 && id >= 1 && id in db.products && db.products[id].price == newPrice ==> r.RolledBack? && r.error == SamePrice
    ensures r.Committed? ==>
      && id in db.products
      && OnlyProductChanged(db, r.db, id)
      && r.value == r.db.products[id]
      && r.value == db.products[id].(price := newPrice)
    ensures Wf(db) ==> Wf(r.db)
    ensures Valid(db) ==> Valid(r.db)
  {
    if ValidatePrice(newPrice).Fail? then RolledBack(db, ValidatePrice(newPrice).error)
    else if ValidateProductId(id).Fail? then RolledBack(db, ValidateProductId(id).error)
    else match GetProductOrFail(db, id)
      case Err(e) => RolledBack(db, e)
      case Ok(p) =>
        if p.price == newPrice then RolledBack(db, SamePrice)
        else
          var p' := p.(price := newPrice);
          Committed(Put(db, id, p'), p')
  }

  /** The price after taking `percent` per cent off. */
  function Discounted(price: real, percent: real): real
  {
    price - price * percent / 100.0
  }

  /** A valid discount on a positive price gives a smaller, still positive price. */
  lemma DiscountLowersPrice(price: real, percent: real)
    requires price > 0.0
    requires 0.0 < percent < 100.0
    ensures 0.0 < Discounted(price, percent) < price
  {
    assert Discounted(price, percent) == price * (100.0 - percent) / 100.0;
  }

  /** Under a valid discount the "discounted price must be positive" guard fires
      exactly when the stored price was not positive to begin with. */
  lemma DiscountGuardFiresIff(price: real, percent: real)
    requires 0.0 < percent < 100.0
    ensures Discounted(price, percent) <= 0.0 <==> price <= 0.0
  {
    assert Discounted(price, percent) == price * (100.0 - percent) / 100.0;
    if price > 0.0 {
      DiscountLowersPrice(price, percent);
    }
  }

  /** Takes a percentage off the price of an existing product. */
  function ApplyDiscount(db: Db, id: int, percent: real): (r: Txn<Product>)
    ensures r.RolledBack? ==> r.db == db
    ensures r.Committed? <==>
      id >= 1 && 0.0 < percent < 100.0 && id in db.products && db.products[id].price > 0.0
    ensures id <= 0 ==> r == RolledBack(db, InvalidProductId)
    ensures id >= 1 && percent <= 0.0 ==> r == RolledBack(db, DiscountNotPositive)
    ensures id >= 1 && percent >= 100.0 ==> r == RolledBack(db, DiscountTooLarge)
    ensures id >= 1 && 0.0 < percent < 100.0 && id !in db.products ==> r == RolledBack(db, ProductNotFound)
    ensures id >= 1 && 0.0 < percent < 100.0 && id in db.products && db.products[id].price <= 0.0 ==>
      r == RolledBack(db, NonPositiveDiscountedPrice)
    ensures r.Committed? ==>
      && id in db.products
      && OnlyProductChanged(db, r.db, id)
      && r.value == r.db.products[id]
      && r.value == db.products[id].(price := r.value.price)
      && 0.0 < r.value.price < db.products[id].price
      && r.value.price * 100.0 == db.products[id].price * (100.0 - percent)
    ensures Wf(db) ==> Wf(r.db)
    ensures Valid(db) ==> Valid(r.db)
  {
    if ValidateProductId(id).Fail? then RolledBack(db, ValidateProductId(id).error)
    else if ValidateDiscountPercentage(percent).Fail? then RolledBack(db, ValidateDiscountPercentage(percent).error)
    else match GetProductOrFail(db, id)
      case Err(e) => RolledBack(db, e)
      case Ok(p) =>
        var discounted := Discounted(p.price, percent);
        DiscountGuardFiresIff(p.price, percent);
        if discounted <= 0.0 then RolledBack(db, NonPositiveDiscountedPrice)
        else
          DiscountLowersPrice(p.price, percent);
          var p' := p.(price := discounted);
          Committed(Put(db, id, p'), p')
  }

  /** Sets the stock level of an existing product. Neither the sign of the id
      nor whether the product is active is checked. */
  function UpdateStock(db: Db, id: int, newStock: int): (r: Txn<Product>)
    ensures r.RolledBack? ==> r.db == db
    ensures r.Committed? <==> newStock >= 0 && id in db.products
    ensures newStock < 0 ==> r == RolledBack(db, InvalidStock)
    ensures newStock >= 0 && id !in db.products ==> r == RolledBack(db, ProductNotFound)
    ensures r.Committed? ==>
      && id in db.products
      && OnlyProductChanged(db, r.db, id)
      && r.value == r.db.products[id]
      && r.value == db.products[id].(stock := newStock)
    ensures Wf(db) ==> Wf(r.db)
    ensures Valid(db) ==> Valid(r.db)
  {
    if newStock < 0 then RolledBack(db, InvalidStock)
    else match LockForUpdate(db, id)
      case Missing => RolledBack(db, ProductNotFound)
      case Found(p) =>
        var p' := p.(stock := newStock);
        Committed(Put(db, id, p'), p')
  }

  // ---------------------------------------------------------------------
  // Listing

  /** The arguments the listing hands to the paginated query. */
  datatype PageQuery = PageQuery(offset: int, limit: int, keywords: Option<seq<string>>)

  /** The largest page size a caller may ask for. */
  const MaxLimit := 50

  /** Validates the paging arguments and computes the row offset of the page
      and the normalised search keywords. */
  function GetProducts(page: int := 1, limit: int := 10, search: Option<string> := None): (r: Outcome<PageQuery>)
    ensures r.Ok? <==> page >= 1 && 1 <= limit <= MaxLimit
    ensures page < 1 ==> r == Err(InvalidPage)
    ensures page >= 1 && !(1 <= limit <= MaxLimit) ==> r == Err(InvalidLimit)
    ensures r.Ok? ==>
      && r.value.limit == limit
      && r.value.offset >= 0
      && (page == 1 ==> r.value.offset == 0)
      && r.value.offset + limit == page * limit
      && r.value.keywords == Keywords(search)
  {
    if page < 1 then Err(InvalidPage)
    else if limit < 1 || limit > MaxLimit then Err(InvalidLimit)
    else Ok(PageQuery((page - 1) * limit, limit, Keywords(search)))
  }

  /** Called without arguments, the listing asks for the first ten rows and
      no keyword filter. */
  lemma DefaultListing()
    ensures GetProducts() == Ok(PageQuery(0, 10, None))
  {
  }

  /** Consecutive pages of the same size neither overlap nor leave a gap:
      the next page starts exactly where this one ends. */
  lemma ConsecutivePagesAdjoin(page: int, limit: int, search: Option<string>)
    requires page >= 1 && 1 <= limit <= MaxLimit
    ensures GetProducts(page + 1, limit, search).Ok?
    ensures GetProducts(page + 1, limit, search).value.offset
         == GetProducts(page, limit, search).value.offset + limit
  {
  }

  /** A search text made only of whitespace reaches the query as an empty
      keyword list rather than as no search at all. */
  lemma WhitespaceSearchGivesEmptyKeywords(page: int, limit: int, text: string)
    requires page >= 1 && 1 <= limit <= MaxLimit
    requires text != [] && AllSpace(text)
    ensures GetProducts(page, limit, Some(text)) == Ok(PageQuery((page - 1) * limit, limit, Some([])))
  {
  }

  /** Discounting a product priced 100 by 20 per cent prices it at 80. */
  lemma DiscountExample(db: Db, id: int)
    requires id >= 1 && id in db.products && db.products[id].price == 100.0
    ensures ApplyDiscount(db, id, 20.0).Committed?
    ensures ApplyDiscount(db, id, 20.0).value.price == 80.0
  {
  }
}
