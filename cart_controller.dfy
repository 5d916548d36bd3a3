/** The cart controller: `add`, `list` and their helpers, as methods over
    the database.  Each call is one atomic step; the transaction of `add`
    is modelled by saving the cart tables and restoring them on error. */
module CartController {
  import opened Wrappers
  import opened Tables
  import opened CartStore

  /** One element of the `items` array the controller returns. */
  datatype CartLine = CartLine(
    id: int, productId: int, name: string, slug: string,
    quantity: int, unitPrice: int, stock: int, lineTotal: int)

  /** The controller's response: `cart_id` (null when there is no open cart)
      and the cart's lines. */
  datatype CartView = CartView(cartId: Option<int>, items: seq<CartLine>)

  datatype AddError = ProductIdRequired | ProductNotFound | InsufficientStock

  /** The output line built from a query row; its line total is the captured
      unit price times the quantity. */
  function ToCartLine(row: CartRow): (line: CartLine)
    ensures line.id == row.item.id && line.productId == row.item.productId
    ensures line.quantity == row.item.quantity && line.unitPrice == row.item.unitPrice
    ensures line.name == row.product.name && line.slug == row.product.slug && line.stock == row.product.stock
    ensures line.lineTotal == line.unitPrice * line.quantity
  {
    CartLine(row.item.id, row.item.productId, row.product.name, row.product.slug,
             row.item.quantity, row.item.unitPrice, row.product.stock,
             row.item.unitPrice * row.item.quantity)
  }

  /** `(int)($data['product_id'] ?? 0)`: a missing id reads as 0. */
  function RequestedProductId(input: Option<int>): (pid: int)
    ensures input.None? ==> pid == 0
    ensures input.Some? ==> pid == input.value
  {
    match input
    case None => 0
    case Some(p) => p
  }

  /** `max(1, (int)($data['quantity'] ?? 1))`: at least one unit. */
  function RequestedQuantity(input: Option<int>): (qty: int)
    ensures qty >= 1
    ensures input.Some? && input.value >= 1 ==> qty == input.value
    ensures input.None? || input.value < 1 ==> qty == 1
  {
    match input
    case None => 1
    case Some(q) => if q < 1 then 1 else q
  }

  /** The checks of `add` on the product row it reads: it must exist, and its
      stock must cover the requested quantity (the increment only, not the
      quantity the line will hold). */
  function CheckProduct(products: map<int, Product>, productId: int, qty: int): (e: Option<AddError>)
    ensures e.None? <==> productId in products && products[productId].stock >= qty
    ensures productId !in products ==> e == Some(ProductNotFound)
    ensures productId in products && products[productId].stock < qty ==> e == Some(InsufficientStock)
  {
    if productId !in products then Some(ProductNotFound)
    else if products[productId].stock < qty then Some(InsufficientStock)
    else None
  }

  /** The loop of `fetchCartItems`: one output line per query row, in the
      query's order (newest line first). */
  method FetchCartItems(db: Database, cartId: int) returns (lines: seq<CartLine>)
    ensures var rows := CartItemRows(db.cartItems, db.products, cartId);
      && |lines| == |rows|
      && forall k :: 0 <= k < |rows| ==> lines[k] == ToCartLine(rows[k])
  {
    var rows := CartItemRows(db.cartItems, db.products, cartId);
    lines := [];
    var i := 0;
    while i < |rows|
      invariant 0 <= i <= |rows|
      invariant |lines| == i
      invariant forall k :: 0 <= k < i ==> lines[k] == ToCartLine(rows[k])
    {
      lines := lines + [ToCartLine(rows[i])];
      i := i + 1;
    }
  }

  /** `getOrCreateOpenCartId`: the user's open cart if there is one, without
      any change; otherwise exactly one new open cart for the user. */
  method GetOrCreateOpenCartId(db: Database, userId: int) returns (cartId: int)
    requires db.Valid()
    modifies db`carts, db`nextCartId
    ensures db.Valid()
    ensures OpenCartId(old(db.carts), userId).Some? ==>
      cartId == OpenCartId(old(db.carts), userId).value
      && db.carts == old(db.carts) && db.nextCartId == old(db.nextCartId)
    ensures OpenCartId(old(db.carts), userId).None? ==>
      cartId == old(db.nextCartId)
      && db.carts == old(db.carts) + [Cart(cartId, userId, Open)]
      && db.nextCartId == old(db.nextCartId) + 1
    ensures OpenCartId(db.carts, userId) == Some(cartId)
  {
    var open := OpenCartId(db.carts, userId);
    if open.Some? {
      return open.value;
    }
    NewCartKeepsTablesValid(db.products, db.carts, db.cartItems, db.orders, db.orderItems,
                            db.nextCartId, db.nextCartItemId, db.nextOrderId, db.nextOrderItemId, userId);
    cartId := db.nextCartId;
    db.carts := db.carts + [Cart(cartId, userId, Open)];
    db.nextCartId := db.nextCartId + 1;
  }

  /** `add`: validate the request, find or create the open cart, check the
      product and its stock against the requested increment, then upsert the
      (cart, product) line and return the cart.  Any error after the
      transaction began restores the cart tables; the cart id counter is not
      restored (InnoDB keeps auto-increment values across a rollback). */
  method Add(db: Database, userId: int, productIdIn: Option<int>, quantityIn: Option<int>)
    returns (r: Result<CartView, AddError>)
    requires db.Valid()
    modifies db`carts, db`cartItems, db`nextCartId, db`nextCartItemId
    ensures db.Valid()
    ensures var pid := RequestedProductId(productIdIn);
      var qty := RequestedQuantity(quantityIn);
      && (pid <= 0 ==> r == Failure(ProductIdRequired))
      && (pid > 0 && pid !in db.products ==> r == Failure(ProductNotFound))
      && (pid > 0 && pid in db.products && db.products[pid].stock < qty ==> r == Failure(InsufficientStock))
      && (r.Success? <==> pid > 0 && pid in db.products && db.products[pid].stock >= qty)
    ensures r.Failure? ==>
      && db.carts == old(db.carts) && db.cartItems == old(db.cartItems)
      && db.nextCartItemId == old(db.nextCartItemId)
      && db.nextCartId == old(db.nextCartId) +
           (if RequestedProductId(productIdIn) > 0 && OpenCartId(old(db.carts), userId).None? then 1 else 0)
    ensures r.Success? ==>
      var pid := RequestedProductId(productIdIn);
      var qty := RequestedQuantity(quantityIn);
      var open := OpenCartId(old(db.carts), userId);
      var cartId := if open.Some? then open.value else old(db.nextCartId);
      && r.value.cartId == Some(cartId)
      && db.carts == (if open.Some? then old(db.carts) else old(db.carts) + [Cart(cartId, userId, Open)])
      && db.cartItems == Upsert(old(db.cartItems), cartId, pid, qty, db.products[pid].price, old(db.nextCartItemId))
      && db.nextCartItemId == old(db.nextCartItemId) + (if FindLine(old(db.cartItems), cartId, pid).None? then 1 else 0)
      && db.nextCartId == old(db.nextCartId) + (if open.Some? then 0 else 1)
      && var rows := CartItemRows(db.cartItems, db.products, cartId);
         |r.value.items| == |rows| && forall k :: 0 <= k < |rows| ==> r.value.items[k] == ToCartLine(rows[k])
  {
    var pid := RequestedProductId(productIdIn);
    var qty := RequestedQuantity(quantityIn);
    if pid <= 0 {
      return Failure(ProductIdRequired);
    }
    r := AddInTransaction(db, userId, pid, qty);
  }

  /** The transaction of `add`, once the product id is known to be positive:
      find or create the open cart, check the product, upsert the line; a
      failed check restores the cart tables but not the cart id counter. */
  method AddInTransaction(db: Database, userId: int, pid: int, qty: int)
    returns (r: Result<CartView, AddError>)
    requires db.Valid() && qty >= 1
    modifies db`carts, db`cartItems, db`nextCartId, db`nextCartItemId
    ensures db.Valid()
    ensures r.Failure? <==> pid !in db.products || db.products[pid].stock < qty
    ensures r.Failure? ==> r.error == CheckProduct(db.products, pid, qty).value
    ensures r.Failure? ==>
      && db.carts == old(db.carts) && db.cartItems == old(db.cartItems)
      && db.nextCartItemId == old(db.nextCartItemId)
      && db.nextCartId == old(db.nextCartId) + (if OpenCartId(old(db.carts), userId).None? then 1 else 0)
    ensures r.Success? ==>
      var open := OpenCartId(old(db.carts), userId);
      var cartId := if open.Some? then open.value else old(db.nextCartId);
      && r.value.cartId == Some(cartId)
      && db.carts == (if open.Some? then old(db.carts) else old(db.carts) + [Cart(cartId, userId, Open)])
      && db.cartItems == Upsert(old(db.cartItems), cartId, pid, qty, db.products[pid].price, old(db.nextCartItemId))
      && db.nextCartItemId == old(db.nextCartItemId) + (if FindLine(old(db.cartItems), cartId, pid).None? then 1 else 0)
      && db.nextCartId == old(db.nextCartId) + (if open.Some? then 0 else 1)
      && var rows := CartItemRows(db.cartItems, db.products, cartId);
         |r.value.items| == |rows| && forall k :: 0 <= k < |rows| ==> r.value.items[k] == ToCartLine(rows[k])
  {
    var savedCarts, savedItems := db.carts, db.cartItems;
    var cartId := GetOrCreateOpenCartId(db, userId);
    r := CheckAndAddLine(db, cartId, pid, qty, savedCarts, savedItems, old(db.nextCartId));
  }

  /** The rest of the transaction of `add`, once the cart is known: check
      the product and its stock, then roll back or upsert the line. */
  method CheckAndAddLine(db: Database, cartId: int, pid: int, qty: int,
                         savedCarts: seq<Cart>, savedItems: seq<CartItem>, ghost savedNextCartId: int)
    returns (r: Result<CartView, AddError>)
    requires db.Valid() && qty >= 1
    requires TablesValid(db.products, savedCarts, savedItems, db.orders, db.orderItems,
                         savedNextCartId, db.nextCartItemId, db.nextOrderId, db.nextOrderItemId)
    requires savedNextCartId <= db.nextCartId
    modifies db`carts, db`cartItems, db`nextCartItemId
    ensures db.Valid()
    ensures r.Failure? <==> pid !in db.products || db.products[pid].stock < qty
    ensures r.Failure? ==> r.error == CheckProduct(db.products, pid, qty).value
    ensures r.Failure? ==>
      db.carts == savedCarts && db.cartItems == savedItems && db.nextCartItemId == old(db.nextCartItemId)
    ensures r.Success? ==>
      && r.value.cartId == Some(cartId)
      && db.carts == old(db.carts)
      && db.cartItems == Upsert(old(db.cartItems), cartId, pid, qty, db.products[pid].price, old(db.nextCartItemId))
      && db.nextCartItemId == old(db.nextCartItemId) + (if FindLine(old(db.cartItems), cartId, pid).None? then 1 else 0)
      && var rows := CartItemRows(db.cartItems, db.products, cartId);
         |r.value.items| == |rows| && forall k :: 0 <= k < |rows| ==> r.value.items[k] == ToCartLine(rows[k])
  {
    var failure := CheckProduct(db.products, pid, qty);
    if failure.Some? {
      Rollback(db, savedCarts, savedItems, savedNextCartId);
      return Failure(failure.value);
    }
    var view := AddLine(db, cartId, pid, qty);
    r := Success(view);
  }

  /** `rollback`: the cart tables go back to what they were when the
      transaction began; the cart id counter keeps its value. */
  method Rollback(db: Database, carts: seq<Cart>, cartItems: seq<CartItem>, ghost nextCartId: int)
    requires TablesValid(db.products, carts, cartItems, db.orders, db.orderItems,
                         nextCartId, db.nextCartItemId, db.nextOrderId, db.nextOrderItemId)
    requires nextCartId <= db.nextCartId
    modifies db`carts, db`cartItems
    ensures db.Valid()
    ensures db.carts == carts && db.cartItems == cartItems
  {
    CartCounterRaised(db.products, carts, cartItems, db.orders, db.orderItems,
                      nextCartId, db.nextCartId, db.nextCartItemId, db.nextOrderId, db.nextOrderItemId);
    db.carts, db.cartItems := carts, cartItems;
  }

  /** The successful end of `add`: upsert the line at the product's current
      price and return the cart with its lines. */
  method AddLine(db: Database, cartId: int, productId: int, qty: int) returns (view: CartView)
    requires db.Valid() && qty >= 1 && productId in db.products
    modifies db`cartItems, db`nextCartItemId
    ensures db.Valid()
    ensures db.cartItems == Upsert(old(db.cartItems), cartId, productId, qty, db.products[productId].price, old(db.nextCartItemId))
    ensures db.nextCartItemId == old(db.nextCartItemId) + (if FindLine(old(db.cartItems), cartId, productId).None? then 1 else 0)
    ensures view.cartId == Some(cartId)
    ensures var rows := CartItemRows(db.cartItems, db.products, cartId);
      |view.items| == |rows| && forall k :: 0 <= k < |rows| ==> view.items[k] == ToCartLine(rows[k])
  {
    UpsertLine(db, cartId, productId, qty, db.products[productId].price);
    var items := FetchCartItems(db, cartId);
    view := CartView(Some(cartId), items);
  }

  /** The upsert step of `add`: the SELECT of the (cart, product) line, then
      its UPDATE (quantity summed, unit price overwritten) or the INSERT of a
      new line.  The statements of the two branches are those of the
      function `CartStore.Upsert`, which states the step on values. */
  method UpsertLine(db: Database, cartId: int, productId: int, qty: int, price: int)
    requires db.Valid() && qty >= 1
    modifies db`cartItems, db`nextCartItemId
    ensures db.Valid()
    ensures db.cartItems == Upsert(old(db.cartItems), cartId, productId, qty, price, old(db.nextCartItemId))
    ensures db.nextCartItemId == old(db.nextCartItemId) + (if FindLine(old(db.cartItems), cartId, productId).None? then 1 else 0)
  {
    UpsertKeepsTablesValid(db.products, db.carts, db.cartItems, db.orders, db.orderItems,
                           db.nextCartId, db.nextCartItemId, db.nextOrderId, db.nextOrderItemId,
                           cartId, productId, qty, price);
    var items, next := db.cartItems, db.nextCartItemId;
    var existing := FindLine(items, cartId, productId);
    match existing {
      case Some(i) =>
        var line := items[i];
        items := items[i := line.(quantity := line.quantity + qty, unitPrice := price)];
      case None =>
        items := items + [CartItem(next, cartId, productId, qty, price)];
        next := next + 1;
    }
    db.cartItems, db.nextCartItemId := items, next;
  }

  /** `list`: no open cart gives a null cart id and no lines; otherwise the
      open cart's lines, newest first. */
  method List(db: Database, userId: int) returns (view: CartView)
    ensures view.cartId == OpenCartId(db.carts, userId)
    ensures view.cartId.None? ==> view.items == []
    ensures view.cartId.Some? ==>
      var rows := CartItemRows(db.cartItems, db.products, view.cartId.value);
      |view.items| == |rows| && forall k :: 0 <= k < |rows| ==> view.items[k] == ToCartLine(rows[k])
  {
    var cartId := OpenCartId(db.carts, userId);
    if cartId.None? {
      return CartView(None, []);
    }
    var items := FetchCartItems(db, cartId.value);
    view := CartView(cartId, items);
  }

  /** The stock check of `add` compares the stock with the increment only:
      when the cart already holds some units, a request that passes the
      check can leave the line holding more than the stock. */
  lemma MergedQuantityMayExceedStock(products: map<int, Product>, items: seq<CartItem>, cartId: int,
                                     pid: int, qty: int, price: int, newId: int)
    requires CheckProduct(products, pid, qty).None?
    requires LineQuantity(items, cartId, pid) + qty > products[pid].stock
    ensures LineQuantity(Upsert(items, cartId, pid, qty, price, newId), cartId, pid) > products[pid].stock
  {
    UpsertAddsQuantity(items, cartId, pid, qty, price, newId);
  }

  /** Such a request exists: 4 units in the cart, 3 more requested against a
      stock of 5; the check passes and the line holds 7. */
  lemma MergedQuantityExample()
    ensures var products := map[1 := Product("Mouse", "mouse", 100, 5)];
      var items := [CartItem(1, 1, 1, 4, 100)];
      && CheckProduct(products, 1, 3).None?
      && LineQuantity(items, 1, 1) + 3 > products[1].stock
      && LineQuantity(Upsert(items, 1, 1, 3, 100, 2), 1, 1) == 7
  {
    var items := [CartItem(1, 1, 1, 4, 100)];
    assert FindLine(items, 1, 1) == Some(0);
    UpsertAddsQuantity(items, 1, 1, 3, 100, 2);
  }
}
