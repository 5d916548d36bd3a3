/** The queries and the upsert of the cart controller, as functions over the
    tables, with the properties the controller relies on. */
module CartStore {
  import opened Wrappers
  import opened Tables

  /** The open cart `getOpenCartId` selects: the highest id among the user's
      carts whose status is open (`ORDER BY id DESC LIMIT 1`), or none. */
  function OpenCartId(carts: seq<Cart>, userId: int): (r: Option<int>)
    ensures r.None? <==> forall i :: 0 <= i < |carts| ==> !IsOpenCartOf(carts[i], userId)
    ensures r.Some? ==> exists i :: 0 <= i < |carts| && IsOpenCartOf(carts[i], userId) && carts[i].id == r.value
    ensures r.Some? ==> forall i :: 0 <= i < |carts| && IsOpenCartOf(carts[i], userId) ==> carts[i].id <= r.value
  {
    if |carts| == 0 then None
    else
      var rest := OpenCartId(carts[1..], userId);
      assert forall i :: 1 <= i < |carts| ==> carts[i] == carts[1..][i - 1];
      if IsOpenCartOf(carts[0], userId) && (rest.None? || rest.value < carts[0].id) then Some(carts[0].id)
      else rest
  }

  /** When a user has at most one open cart, that cart is the one selected. */
  lemma OpenCartIsTheOnlyOne(carts: seq<Cart>, userId: int, i: int)
    requires OneOpenCartPerUser(carts)
    requires 0 <= i < |carts| && IsOpenCartOf(carts[i], userId)
    ensures OpenCartId(carts, userId) == Some(carts[i].id)
  {
    var r := OpenCartId(carts, userId);
    var j :| 0 <= j < |carts| && IsOpenCartOf(carts[j], userId) && carts[j].id == r.value;
    assert j == i;
  }

  /** A row of `fetchCartItems`' query: a cart line joined with its product. */
  datatype CartRow = CartRow(item: CartItem, product: Product)

  /** The rows of `fetchCartItems`' query: the lines of `cartId` whose product
      exists (an inner join), newest first (`ORDER BY ci.id DESC`). */
  function CartItemRows(items: seq<CartItem>, products: map<int, Product>, cartId: int): (rows: seq<CartRow>)
    ensures |rows| <= |items|
  {
    if |items| == 0 then []
    else
      CartItemRows(items[1..], products, cartId) +
      (if items[0].cartId == cartId && items[0].productId in products
       then [CartRow(items[0], products[items[0].productId])] else [])
  }

  /** A row is returned exactly when it is a line of the cart joined with its
      product's current row. */
  lemma {:induction false} CartItemRowsMembers(items: seq<CartItem>, products: map<int, Product>, cartId: int, row: CartRow)
    ensures row in CartItemRows(items, products, cartId) <==>
      && row.item in items && row.item.cartId == cartId
      && row.item.productId in products && row.product == products[row.item.productId]
  {
    if |items| > 0 {
      CartItemRowsMembers(items[1..], products, cartId, row);
      assert items == [items[0]] + items[1..];
    }
  }

  /** Rows come out in strictly descending line id. */
  lemma {:induction false} CartItemRowsNewestFirst(items: seq<CartItem>, products: map<int, Product>, cartId: int)
    requires forall i, j :: 0 <= i < j < |items| ==> items[i].id < items[j].id
    ensures var rows := CartItemRows(items, products, cartId);
      forall k, m :: 0 <= k < m < |rows| ==> rows[k].item.id > rows[m].item.id
  {
    if |items| > 0 {
      var rest := CartItemRows(items[1..], products, cartId);
      CartItemRowsNewestFirst(items[1..], products, cartId);
      forall k | 0 <= k < |rest|
        ensures rest[k].item.id > items[0].id
      {
        CartItemRowsMembers(items[1..], products, cartId, rest[k]);
        var j :| 0 <= j < |items[1..]| && items[1..][j] == rest[k].item;
        assert items[j + 1] == rest[k].item;
      }
    }
  }

  /** The index of the line `add` finds for (cartId, productId): the first
      such line, or none. */
  function FindLine(items: seq<CartItem>, cartId: int, productId: int): (r: Option<nat>)
    ensures r.None? <==> forall i :: 0 <= i < |items| ==> !(items[i].cartId == cartId && items[i].productId == productId)
    ensures r.Some? ==> r.value < |items| && items[r.value].cartId == cartId && items[r.value].productId == productId
    ensures r.Some? ==> forall i :: 0 <= i < r.value ==> !(items[i].cartId == cartId && items[i].productId == productId)
  {
    if |items| == 0 then None
    else if items[0].cartId == cartId && items[0].productId == productId then Some(0)
    else
      match FindLine(items[1..], cartId, productId)
      case None => None
      case Some(k) => Some(k + 1)
  }

  /** The quantity the cart holds of a product: that of its line, or 0. */
  function LineQuantity(items: seq<CartItem>, cartId: int, productId: int): int {
    match FindLine(items, cartId, productId)
    case Some(i) => items[i].quantity
    case None => 0
  }

  /** The upsert of `add`: an existing (cartId, productId) line gets `qty` added
      to its quantity and its unit price overwritten with `price`; otherwise a
      new line with id `newId` is appended. */
  function Upsert(items: seq<CartItem>, cartId: int, productId: int, qty: int, price: int, newId: int): (r: seq<CartItem>)
    ensures |r| == |items| + (if FindLine(items, cartId, productId).None? then 1 else 0)
    ensures FindLine(items, cartId, productId).None? ==> r[..|items|] == items
  {
    match FindLine(items, cartId, productId)
    case Some(i) => items[i := items[i].(quantity := items[i].quantity + qty, unitPrice := price)]
    case None => items + [CartItem(newId, cartId, productId, qty, price)]
  }

  /** After the upsert the pair has a line whose quantity is the old quantity
      plus `qty` and whose price is `price`; a row is added only when the pair
      had none. */
  lemma UpsertAddsQuantity(items: seq<CartItem>, cartId: int, productId: int, qty: int, price: int, newId: int)
    ensures var r := Upsert(items, cartId, productId, qty, price, newId);
      && FindLine(r, cartId, productId).Some?
      && r[FindLine(r, cartId, productId).value].quantity == LineQuantity(items, cartId, productId) + qty
      && r[FindLine(r, cartId, productId).value].unitPrice == price
  {
    var r := Upsert(items, cartId, productId, qty, price, newId);
    match FindLine(items, cartId, productId)
    case Some(i) =>
      assert r[i].cartId == cartId && r[i].productId == productId;
      var k := FindLine(r, cartId, productId).value;
      assert k == i;
    case None =>
      assert r[|items|].cartId == cartId && r[|items|].productId == productId;
      var k := FindLine(r, cartId, productId).value;
      assert k == |items|;
  }

  /** Lines of other (cart, product) pairs keep their position and content;
      any appended line is of the upserted pair. */
  lemma UpsertLeavesOtherLines(items: seq<CartItem>, cartId: int, productId: int, qty: int, price: int, newId: int)
    ensures var r := Upsert(items, cartId, productId, qty, price, newId);
      && |items| <= |r|
      && (forall k :: 0 <= k < |items| && !(items[k].cartId == cartId && items[k].productId == productId) ==> r[k] == items[k])
      && (forall k :: 0 <= k < |r| ==> r[k].id == (if k < |items| then items[k].id else newId))
      && (forall k :: |items| <= k < |r| ==> r[k] == CartItem(newId, cartId, productId, qty, price))
  {
  }

  /** The upsert never creates a second line for a pair. */
  lemma UpsertKeepsLinesUnique(items: seq<CartItem>, cartId: int, productId: int, qty: int, price: int, newId: int)
    requires UniqueLines(items)
    ensures UniqueLines(Upsert(items, cartId, productId, qty, price, newId))
  {
    var r := Upsert(items, cartId, productId, qty, price, newId);
    forall i, j | 0 <= i < j < |r|
      ensures r[i].cartId != r[j].cartId || r[i].productId != r[j].productId
    {
      if j == |items| {
        assert !(items[i].cartId == cartId && items[i].productId == productId);
      } else {
        assert r[i].cartId == items[i].cartId && r[i].productId == items[i].productId;
        assert r[j].cartId == items[j].cartId && r[j].productId == items[j].productId;
      }
    }
  }

  /** The upsert keeps the cart_items table well formed: ids ascending and
      below the counter (advanced when a row was inserted), one line per
      pair, positive quantities. */
  lemma UpsertKeepsTableValid(items: seq<CartItem>, next: int,
                              cartId: int, productId: int, qty: int, price: int)
    requires CartItemIdsBelow(items, next) && UniqueLines(items)
    requires PositiveQuantities(items)
    requires 0 < next && qty >= 1
    ensures var r := Upsert(items, cartId, productId, qty, price, next);
      var next' := next + (if FindLine(items, cartId, productId).None? then 1 else 0);
      && CartItemIdsBelow(r, next') && UniqueLines(r)
      && PositiveQuantities(r)
  {
    UpsertKeepsLinesUnique(items, cartId, productId, qty, price, next);
    UpsertLeavesOtherLines(items, cartId, productId, qty, price, next);
  }

  /** Opening a cart for a user who has none, with the counter's id, keeps
      every table valid, and the new cart is the user's open cart. */
  lemma NewCartKeepsTablesValid(products: map<int, Product>, carts: seq<Cart>, items: seq<CartItem>,
                                orders: seq<Order>, orderItems: seq<OrderItem>,
                                nextCartId: int, nextItemId: int, nextOrderId: int, nextOrderItemId: int,
                                userId: int)
    requires TablesValid(products, carts, items, orders, orderItems, nextCartId, nextItemId, nextOrderId, nextOrderItemId)
    requires OpenCartId(carts, userId).None?
    ensures TablesValid(products, carts + [Cart(nextCartId, userId, Open)], items, orders, orderItems,
                        nextCartId + 1, nextItemId, nextOrderId, nextOrderItemId)
    ensures OpenCartId(carts + [Cart(nextCartId, userId, Open)], userId) == Some(nextCartId)
  {
    var carts' := carts + [Cart(nextCartId, userId, Open)];
    assert OneOpenCartPerUser(carts');
    OpenCartIsTheOnlyOne(carts', userId, |carts'| - 1);
  }

  /** The upsert keeps every table valid. */
  lemma UpsertKeepsTablesValid(products: map<int, Product>, carts: seq<Cart>, items: seq<CartItem>,
                               orders: seq<Order>, orderItems: seq<OrderItem>,
                               nextCartId: int, nextItemId: int, nextOrderId: int, nextOrderItemId: int,
                               cartId: int, productId: int, qty: int, price: int)
    requires TablesValid(products, carts, items, orders, orderItems, nextCartId, nextItemId, nextOrderId, nextOrderItemId)
    requires qty >= 1
    ensures TablesValid(products, carts, Upsert(items, cartId, productId, qty, price, nextItemId), orders, orderItems,
                        nextCartId, nextItemId + (if FindLine(items, cartId, productId).None? then 1 else 0),
                        nextOrderId, nextOrderItemId)
  {
    UpsertKeepsTableValid(items, nextItemId, cartId, productId, qty, price);
  }

}
