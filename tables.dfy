/** The relational state shared by the cart and order controllers: the
    products, carts, cart_items, orders and order_items tables, each with
    its own auto-increment counter.  Rows of an id-keyed table are kept in
    insertion order, which is ascending id order because ids come from the
    table's counter. */
module Tables {

  /** A catalog row; `price` is in integer cents. */
  datatype Product = Product(name: string, slug: string, price: int, stock: int)

  datatype CartStatus = Open | Ordered

  datatype Cart = Cart(id: int, userId: int, status: CartStatus)

  datatype CartItem = CartItem(id: int, cartId: int, productId: int, quantity: int, unitPrice: int)

  datatype Order = Order(id: int, userId: int, total: int, status: string, createdAt: int)

  datatype OrderItem = OrderItem(id: int, orderId: int, productId: int, quantity: int, unitPrice: int)

  /** The status string written by checkout. */
  const CreatedStatus: string := "created"

  ghost predicate CartIdsBelow(carts: seq<Cart>, next: int) {
    && (forall i :: 0 <= i < |carts| ==> 0 < carts[i].id < next)
    && (forall i, j :: 0 <= i < j < |carts| ==> carts[i].id < carts[j].id)
  }

  ghost predicate CartItemIdsBelow(items: seq<CartItem>, next: int) {
    && (forall i :: 0 <= i < |items| ==> 0 < items[i].id < next)
    && (forall i, j :: 0 <= i < j < |items| ==> items[i].id < items[j].id)
  }

  ghost predicate OrderIdsBelow(orders: seq<Order>, next: int) {
    && (forall i :: 0 <= i < |orders| ==> 0 < orders[i].id < next)
    && (forall i, j :: 0 <= i < j < |orders| ==> orders[i].id < orders[j].id)
  }

  ghost predicate OrderItemIdsBelow(items: seq<OrderItem>, next: int) {
    && (forall i :: 0 <= i < |items| ==> 0 < items[i].id < next)
    && (forall i, j :: 0 <= i < j < |items| ==> items[i].id < items[j].id)
  }

  /** Restoring the cart rows after a rollback keeps them below the counter,
      which a rollback does not move back. */
  lemma CartIdsBelowRaised(carts: seq<Cart>, next: int, next': int)
    requires CartIdsBelow(carts, next) && next <= next'
    ensures CartIdsBelow(carts, next')
  {
  }

  predicate IsOpenCartOf(c: Cart, userId: int) {
    c.userId == userId && c.status == Open
  }

  /** No user has two open carts. */
  ghost predicate OneOpenCartPerUser(carts: seq<Cart>) {
    forall i, j :: 0 <= i < j < |carts| && carts[i].status == Open && carts[j].status == Open ==>
      carts[i].userId != carts[j].userId
  }

  /** At most one cart line per (cart, product) pair. */
  ghost predicate UniqueLines(items: seq<CartItem>) {
    forall i, j :: 0 <= i < j < |items| ==>
      items[i].cartId != items[j].cartId || items[i].productId != items[j].productId
  }

  /** Every cart line holds at least one unit. */
  ghost predicate PositiveQuantities(items: seq<CartItem>) {
    forall i :: 0 <= i < |items| ==> items[i].quantity >= 1
  }

  ghost predicate StockNonNegative(products: map<int, Product>) {
    forall pid :: pid in products ==> products[pid].stock >= 0
  }

  /** The well-formedness the schema and the controllers keep: ids below
      their counters and ascending, one open cart per user, one line per
      (cart, product) pair, positive line quantities and no negative stock.
      A cart line may name a product row that no longer exists: nothing
      deletes cart lines when a product goes. */
  ghost predicate TablesValid(products: map<int, Product>, carts: seq<Cart>, cartItems: seq<CartItem>,
                              orders: seq<Order>, orderItems: seq<OrderItem>,
                              nextCartId: int, nextCartItemId: int, nextOrderId: int, nextOrderItemId: int)
  {
    && CartIdsBelow(carts, nextCartId)
    && CartItemIdsBelow(cartItems, nextCartItemId)
    && OrderIdsBelow(orders, nextOrderId)
    && OrderItemIdsBelow(orderItems, nextOrderItemId)
    && 0 < nextCartId && 0 < nextCartItemId && 0 < nextOrderId && 0 < nextOrderItemId
    && OneOpenCartPerUser(carts)
    && UniqueLines(cartItems)
    && PositiveQuantities(cartItems)
    && StockNonNegative(products)
  }

  /** Raising the cart id counter keeps the tables valid: the counter only
      has to stay above every cart id. */
  lemma CartCounterRaised(products: map<int, Product>, carts: seq<Cart>, cartItems: seq<CartItem>,
                          orders: seq<Order>, orderItems: seq<OrderItem>,
                          nextCartId: int, nextCartId': int, nextCartItemId: int, nextOrderId: int, nextOrderItemId: int)
    requires TablesValid(products, carts, cartItems, orders, orderItems, nextCartId, nextCartItemId, nextOrderId, nextOrderItemId)
    requires nextCartId <= nextCartId'
    ensures TablesValid(products, carts, cartItems, orders, orderItems, nextCartId', nextCartItemId, nextOrderId, nextOrderItemId)
  {
    CartIdsBelowRaised(carts, nextCartId, nextCartId');
  }

  class Database {
    var products: map<int, Product>
    var carts: seq<Cart>
    var cartItems: seq<CartItem>
    var orders: seq<Order>
    var orderItems: seq<OrderItem>
    var nextCartId: int
    var nextCartItemId: int
    var nextOrderId: int
    var nextOrderItemId: int

    ghost predicate Valid()
      reads this
    {
      TablesValid(products, carts, cartItems, orders, orderItems,
                  nextCartId, nextCartItemId, nextOrderId, nextOrderItemId)
    }

    /** A store with a provisioned catalog and empty cart and order tables. */
    constructor (catalog: map<int, Product>)
      requires StockNonNegative(catalog)
      ensures Valid()
      ensures products == catalog && carts == [] && cartItems == [] && orders == [] && orderItems == []
      ensures nextCartId == 1 && nextCartItemId == 1 && nextOrderId == 1 && nextOrderItemId == 1
    {
      products := catalog;
      carts, cartItems, orders, orderItems := [], [], [], [];
      nextCartId, nextCartItemId, nextOrderId, nextOrderItemId := 1, 1, 1, 1;
    }
  }
}
