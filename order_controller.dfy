/** The order controller: `create` (checkout) and `list` with its helper
    `fetchOrderItems`, as methods over the database.  `create` runs as one
    transaction: every error is raised before its first write, so a
    rollback leaves every table and counter as it was. */
module OrderController {
  import opened Wrappers
  import opened Tables
  import opened CartStore
  import opened OrderStore

  datatype CheckoutError = NoOpenCart | InsufficientStock | EmptyCart

  /** The response of a successful checkout: `order_id` and `total`. */
  datatype Receipt = Receipt(orderId: int, total: int)

  /** One element of an order's `items` array. */
  datatype OrderLine = OrderLine(productId: int, name: string, slug: string, quantity: int, unitPrice: int, lineTotal: int)

  /** One element of the order history. */
  datatype OrderView = OrderView(id: int, total: int, status: string, createdAt: int, items: seq<OrderLine>)

  /** The while loop of `create` over its item rows: every row's stock must
      cover its quantity; meanwhile it copies the rows and sums their line
      totals. */
  method CollectLines(rows: seq<CartRow>) returns (items: seq<CartRow>, total: int, inStock: bool)
    ensures inStock <==> AllInStock(rows)
    ensures inStock ==> items == rows && total == Total(rows)
  {
    items, total := [], 0;
    var i := 0;
    while i < |rows|
      invariant 0 <= i <= |rows|
      invariant items == rows[..i]
      invariant total == Total(rows[..i])
      invariant AllInStock(rows[..i])
    {
      if rows[i].product.stock < rows[i].item.quantity {
        return items, total, false;
      }
      assert rows[..i + 1][..i] == rows[..i];
      items := items + [rows[i]];
      total := total + rows[i].item.unitPrice * rows[i].item.quantity;
      i := i + 1;
    }
    assert rows[..i] == rows;
    inStock := true;
  }

  /** The foreach of `create`: one order item per row, and each row's product
      stock decremented by the row's quantity. */
  method InsertOrderItems(db: Database, orderId: int, items: seq<CartRow>)
    modifies db`orderItems, db`nextOrderItemId, db`products
    ensures db.orderItems == old(db.orderItems) + NewOrderItems(items, orderId, old(db.nextOrderItemId))
    ensures db.nextOrderItemId == old(db.nextOrderItemId) + |items|
    ensures db.products == Decremented(old(db.products), items)
  {
    var j := 0;
    while j < |items|
      invariant 0 <= j <= |items|
      invariant db.orderItems == old(db.orderItems) + NewOrderItems(items[..j], orderId, old(db.nextOrderItemId))
      invariant db.nextOrderItemId == old(db.nextOrderItemId) + j
      invariant db.products == Decremented(old(db.products), items[..j])
    {
      assert items[..j + 1][..j] == items[..j];
      var it := items[j].item;
      db.orderItems := db.orderItems + [OrderItem(db.nextOrderItemId, orderId, it.productId, it.quantity, it.unitPrice)];
      db.nextOrderItemId := db.nextOrderItemId + 1;
      if it.productId in db.products {
        var p := db.products[it.productId];
        db.products := db.products[it.productId := p.(stock := p.stock - it.quantity)];
      }
      j := j + 1;
    }
    assert items[..j] == items;
  }

  /** `create`: turn the user's open cart into an order.  Errors, in the
      order they are checked: no open cart, a row whose stock is below its
      quantity, no rows.  On success the order is created with the total of
      the captured prices, one order item per row, the stock decremented,
      the cart marked ordered and its lines deleted. */
  method Create(db: Database, userId: int, now: int) returns (r: Result<Receipt, CheckoutError>)
    requires db.Valid()
    modifies db
    ensures db.Valid()
    ensures OpenCartId(old(db.carts), userId).None? ==> r == Failure(NoOpenCart)
    ensures OpenCartId(old(db.carts), userId).Some? ==>
      var rows := CheckoutRows(old(db.cartItems), old(db.products), OpenCartId(old(db.carts), userId).value);
      && (!AllInStock(rows) ==> r == Failure(InsufficientStock))
      && (AllInStock(rows) && rows == [] ==> r == Failure(EmptyCart))
      && (AllInStock(rows) && rows != [] ==> r.Success?)
    ensures r.Failure? ==> unchanged(db)
    ensures r.Success? ==>
      var cartId := OpenCartId(old(db.carts), userId).value;
      var rows := CheckoutRows(old(db.cartItems), old(db.products), cartId);
      var orderId := old(db.nextOrderId);
      && r.value == Receipt(orderId, Total(rows))
      && db.orders == old(db.orders) + [Order(orderId, userId, Total(rows), CreatedStatus, now)]
      && db.nextOrderId == orderId + 1
      && db.orderItems == old(db.orderItems) + NewOrderItems(rows, orderId, old(db.nextOrderItemId))
      && db.nextOrderItemId == old(db.nextOrderItemId) + |rows|
      && db.products == Decremented(old(db.products), rows)
      && db.carts == MarkOrdered(old(db.carts), cartId)
      && db.cartItems == DeleteCartItems(old(db.cartItems), cartId)
      && db.nextCartId == old(db.nextCartId) && db.nextCartItemId == old(db.nextCartItemId)
    ensures r.Success? ==>
      var cartId := OpenCartId(old(db.carts), userId).value;
      forall x :: x in old(db.cartItems) && x.cartId == cartId && x.productId !in old(db.products) ==>
        && x !in db.cartItems
        && forall k :: |old(db.orderItems)| <= k < |db.orderItems| ==> db.orderItems[k].productId != x.productId
  {
    var open := OpenCartId(db.carts, userId);
    if open.None? {
      return Failure(NoOpenCart);
    }
    var cartId := open.value;
    var rows := CheckoutRows(db.cartItems, db.products, cartId);
    var items, total, inStock := CollectLines(rows);
    if !inStock {
      return Failure(InsufficientStock);
    }
    if items == [] {
      return Failure(EmptyCart);
    }
    var orderId := WriteOrder(db, userId, cartId, items, total, now);
    CheckoutKeepsTablesValid(old(db.products), old(db.carts), old(db.cartItems), old(db.orders), old(db.orderItems),
                             old(db.nextCartId), old(db.nextCartItemId), old(db.nextOrderId), old(db.nextOrderItemId),
                             userId, cartId, total, now);
    forall x | x in old(db.cartItems) && x.cartId == cartId && x.productId !in old(db.products) {
      DanglingLineDropped(old(db.orderItems), old(db.cartItems), old(db.products), cartId, orderId,
                          old(db.nextOrderItemId), x);
    }
    r := Success(Receipt(orderId, total));
  }

  /** The writes of `create` once its checks passed: the order row, its
      items and stock decrements, then the cart marked ordered and its lines
      deleted. */
  method WriteOrder(db: Database, userId: int, cartId: int, rows: seq<CartRow>, total: int, now: int)
    returns (orderId: int)
    modifies db
    ensures orderId == old(db.nextOrderId)
    ensures db.orders == old(db.orders) + [Order(orderId, userId, total, CreatedStatus, now)]
    ensures db.nextOrderId == orderId + 1
    ensures db.orderItems == old(db.orderItems) + NewOrderItems(rows, orderId, old(db.nextOrderItemId))
    ensures db.nextOrderItemId == old(db.nextOrderItemId) + |rows|
    ensures db.products == Decremented(old(db.products), rows)
    ensures db.carts == MarkOrdered(old(db.carts), cartId)
    ensures db.cartItems == DeleteCartItems(old(db.cartItems), cartId)
    ensures db.nextCartId == old(db.nextCartId) && db.nextCartItemId == old(db.nextCartItemId)
  {
    orderId := db.nextOrderId;
    db.orders := db.orders + [Order(orderId, userId, total, CreatedStatus, now)];
    db.nextOrderId := db.nextOrderId + 1;
    InsertOrderItems(db, orderId, rows);
    db.carts := MarkOrdered(db.carts, cartId);
    db.cartItems := DeleteCartItems(db.cartItems, cartId);
  }

  /** The cart tables checkout writes stay well formed. */
  lemma CheckoutKeepsCartTablesValid(carts: seq<Cart>, items: seq<CartItem>, products: map<int, Product>,
                                     nextItemId: int, userId: int, cartId: int)
    requires OneOpenCartPerUser(carts) && forall i, j :: 0 <= i < j < |carts| ==> carts[i].id < carts[j].id
    requires OpenCartId(carts, userId) == Some(cartId)
    requires CartItemIdsBelow(items, nextItemId) && UniqueLines(items)
    requires PositiveQuantities(items)
    requires StockNonNegative(products)
    requires AllInStock(CheckoutRows(items, products, cartId))
    ensures var products' := Decremented(products, CheckoutRows(items, products, cartId));
      var items' := DeleteCartItems(items, cartId);
      && OneOpenCartPerUser(MarkOrdered(carts, cartId))
      && StockNonNegative(products')
      && CartItemIdsBelow(items', nextItemId) && UniqueLines(items')
      && PositiveQuantities(items')
  {
    CheckoutClosesCart(carts, userId, cartId);
    CheckoutKeepsStockNonNegative(items, products, cartId);
    DecrementedStock(products, CheckoutRows(items, products, cartId));
    DeleteCartItemsKeepsTableValid(items, nextItemId, cartId);
  }

  /** Checkout as a whole keeps every table well formed. */
  lemma CheckoutKeepsTablesValid(products: map<int, Product>, carts: seq<Cart>, items: seq<CartItem>,
                                 orders: seq<Order>, orderItems: seq<OrderItem>,
                                 nextCartId: int, nextItemId: int, nextOrderId: int, nextOrderItemId: int,
                                 userId: int, cartId: int, total: int, now: int)
    requires TablesValid(products, carts, items, orders, orderItems, nextCartId, nextItemId, nextOrderId, nextOrderItemId)
    requires OpenCartId(carts, userId) == Some(cartId)
    requires AllInStock(CheckoutRows(items, products, cartId))
    ensures var rows := CheckoutRows(items, products, cartId);
      TablesValid(Decremented(products, rows), MarkOrdered(carts, cartId), DeleteCartItems(items, cartId),
                  orders + [Order(nextOrderId, userId, total, CreatedStatus, now)],
                  orderItems + NewOrderItems(rows, nextOrderId, nextOrderItemId),
                  nextCartId, nextItemId, nextOrderId + 1, nextOrderItemId + |rows|)
  {
    var rows := CheckoutRows(items, products, cartId);
    CheckoutKeepsCartTablesValid(carts, items, products, nextItemId, userId, cartId);
    MarkOrderedKeepsIds(carts, cartId, nextCartId);
    NewOrderIdBelow(orders, Order(nextOrderId, userId, total, CreatedStatus, now), nextOrderId);
    NewOrderItemIdsBelow(orderItems, rows, nextOrderId, nextOrderItemId);
  }

  /** Closing a cart changes no cart id. */
  lemma MarkOrderedKeepsIds(carts: seq<Cart>, cartId: int, next: int)
    requires CartIdsBelow(carts, next)
    ensures CartIdsBelow(MarkOrdered(carts, cartId), next)
  {
  }

  /** Appending the order with the counter's id keeps the orders ids
      ascending and below the advanced counter. */
  lemma NewOrderIdBelow(orders: seq<Order>, order: Order, next: int)
    requires OrderIdsBelow(orders, next) && 0 < next && order.id == next
    ensures OrderIdsBelow(orders + [order], next + 1)
  {
  }

  /** Appending the new order items keeps the order_items ids ascending and
      below the advanced counter. */
  lemma NewOrderItemIdsBelow(orderItems: seq<OrderItem>, rows: seq<CartRow>, orderId: int, firstId: int)
    requires OrderItemIdsBelow(orderItems, firstId)
    requires 0 < firstId
    ensures OrderItemIdsBelow(orderItems + NewOrderItems(rows, orderId, firstId), firstId + |rows|)
  {
  }

  /** `fetchOrderItems`' loop: one output line per query row, oldest item
      first, with the line total. */
  method FetchOrderItems(db: Database, orderId: int) returns (lines: seq<OrderLine>)
    ensures var rows := OrderItemRows(db.orderItems, db.products, orderId);
      && |lines| == |rows|
      && forall k :: 0 <= k < |rows| ==> lines[k] == ToOrderLine(rows[k])
  {
    var rows := OrderItemRows(db.orderItems, db.products, orderId);
    lines := [];
    var i := 0;
    while i < |rows|
      invariant 0 <= i <= |rows|
      invariant |lines| == i
      invariant forall k :: 0 <= k < i ==> lines[k] == ToOrderLine(rows[k])
    {
      lines := lines + [ToOrderLine(rows[i])];
      i := i + 1;
    }
  }

  /** The output line built from an order item row; its line total is the
      recorded unit price times the quantity. */
  function ToOrderLine(row: OrderItemRow): (line: OrderLine)
    ensures line.productId == row.item.productId && line.quantity == row.item.quantity
    ensures line.unitPrice == row.item.unitPrice
    ensures line.name == row.product.name && line.slug == row.product.slug
    ensures line.lineTotal == line.unitPrice * line.quantity
  {
    OrderLine(row.item.productId, row.product.name, row.product.slug, row.item.quantity, row.item.unitPrice,
              row.item.unitPrice * row.item.quantity)
  }

  /** A view shows an order with its items as `fetchOrderItems` lists them. */
  ghost predicate Shows(view: OrderView, order: Order, rows: seq<OrderItemRow>) {
    && view.id == order.id && view.total == order.total
    && view.status == order.status && view.createdAt == order.createdAt
    && |view.items| == |rows|
    && forall m :: 0 <= m < |rows| ==> view.items[m] == ToOrderLine(rows[m])
  }

  /** `list`: the user's orders, newest first, each with its items. */
  method List(db: Database, userId: int) returns (views: seq<OrderView>)
    ensures var orders := UserOrderRows(db.orders, userId);
      && |views| == |orders|
      && forall k :: 0 <= k < |orders| ==>
           Shows(views[k], orders[k], OrderItemRows(db.orderItems, db.products, orders[k].id))
  {
    var orders := UserOrderRows(db.orders, userId);
    views := [];
    var i := 0;
    while i < |orders|
      invariant 0 <= i <= |orders|
      invariant |views| == i
      invariant forall k :: 0 <= k < i ==>
        Shows(views[k], orders[k], OrderItemRows(db.orderItems, db.products, orders[k].id))
    {
      var o := orders[i];
      var items := FetchOrderItems(db, o.id);
      views := views + [OrderView(o.id, o.total, o.status, o.createdAt, items)];
      i := i + 1;
    }
  }
}
