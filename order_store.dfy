/** The queries and statements of the order controller, as functions over
    the tables, with the properties checkout and the order history rely on. */
module OrderStore {
  import opened Wrappers
  import opened Tables
  import opened CartStore

  /** The rows of `create`'s item query: the cart's lines joined with their
      product (an inner join, so a line whose product row is missing is not
      returned), in table order. */
  function CheckoutRows(items: seq<CartItem>, products: map<int, Product>, cartId: int): (rows: seq<CartRow>)
    ensures |rows| <= |items|
  {
    if |items| == 0 then []
    else
      var last := items[|items| - 1];
      CheckoutRows(items[..|items| - 1], products, cartId) +
      (if last.cartId == cartId && last.productId in products then [CartRow(last, products[last.productId])] else [])
  }

  /** A row is returned exactly when it is a line of the cart joined with its
      product's current row. */
  lemma {:induction false} CheckoutRowsMembers(items: seq<CartItem>, products: map<int, Product>, cartId: int, row: CartRow)
    ensures row in CheckoutRows(items, products, cartId) <==>
      && row.item in items && row.item.cartId == cartId
      && row.item.productId in products && row.product == products[row.item.productId]
  {
    if |items| > 0 {
      CheckoutRowsMembers(items[..|items| - 1], products, cartId, row);
      assert items == items[..|items| - 1] + [items[|items| - 1]];
    }
  }

  /** The line total of a row: captured unit price times quantity. */
  function LineTotal(row: CartRow): int {
    row.item.unitPrice * row.item.quantity
  }

  /** The total `create` accumulates over its rows. */
  function Total(rows: seq<CartRow>): (t: int)
    ensures (forall k :: 0 <= k < |rows| ==> LineTotal(rows[k]) >= 0) ==> t >= 0
  {
    if |rows| == 0 then 0 else Total(rows[..|rows| - 1]) + LineTotal(rows[|rows| - 1])
  }

  /** Every row's product has at least the line's quantity in stock. */
  predicate AllInStock(rows: seq<CartRow>) {
    forall k :: 0 <= k < |rows| ==> rows[k].product.stock >= rows[k].item.quantity
  }

  /** The value of a cart, summed directly over the cart_items table: the
      captured unit price times the quantity of each line of the cart whose
      product exists.  Catalog prices play no part. */
  function CartValue(items: seq<CartItem>, products: map<int, Product>, cartId: int): int {
    if |items| == 0 then 0
    else
      (if items[0].cartId == cartId && items[0].productId in products then items[0].unitPrice * items[0].quantity else 0)
      + CartValue(items[1..], products, cartId)
  }

  lemma {:induction false} CartValueAppend(items: seq<CartItem>, products: map<int, Product>, cartId: int, x: CartItem)
    ensures CartValue(items + [x], products, cartId) ==
      CartValue(items, products, cartId) + (if x.cartId == cartId && x.productId in products then x.unitPrice * x.quantity else 0)
  {
    if |items| > 0 {
      assert (items + [x])[1..] == items[1..] + [x];
      CartValueAppend(items[1..], products, cartId, x);
    }
  }

  /** The checkout total is the cart's value at its captured prices. */
  lemma {:induction false} TotalIsCartValue(items: seq<CartItem>, products: map<int, Product>, cartId: int)
    ensures Total(CheckoutRows(items, products, cartId)) == CartValue(items, products, cartId)
  {
    if |items| > 0 {
      var init, last := items[..|items| - 1], items[|items| - 1];
      TotalIsCartValue(init, products, cartId);
      assert items == init + [last];
      CartValueAppend(init, products, cartId, last);
      var rows := CheckoutRows(items, products, cartId);
      var rest := CheckoutRows(init, products, cartId);
      if last.cartId == cartId && last.productId in products {
        assert rows == rest + [CartRow(last, products[last.productId])];
        assert rows[..|rows| - 1] == rest;
      } else {
        assert rows == rest;
      }
    }
  }

  /** Changing catalog prices (same products, same stock) does not change
      the checkout total. */
  lemma TotalIgnoresCatalogPrices(items: seq<CartItem>, products: map<int, Product>, products': map<int, Product>, cartId: int)
    requires products.Keys == products'.Keys
    ensures Total(CheckoutRows(items, products, cartId)) == Total(CheckoutRows(items, products', cartId))
  {
    TotalIsCartValue(items, products, cartId);
    TotalIsCartValue(items, products', cartId);
    CartValueSameKeys(items, products, products', cartId);
  }

  lemma {:induction false} CartValueSameKeys(items: seq<CartItem>, products: map<int, Product>, products': map<int, Product>, cartId: int)
    requires products.Keys == products'.Keys
    ensures CartValue(items, products, cartId) == CartValue(items, products', cartId)
  {
    if |items| > 0 {
      CartValueSameKeys(items[1..], products, products', cartId);
    }
  }

  /** The order items `create` inserts: one per row, with consecutive ids
      from `firstId`, copying product, quantity and unit price. */
  function NewOrderItems(rows: seq<CartRow>, orderId: int, firstId: int): (r: seq<OrderItem>)
    ensures |r| == |rows|
    ensures forall k :: 0 <= k < |rows| ==>
      r[k] == OrderItem(firstId + k, orderId, rows[k].item.productId, rows[k].item.quantity, rows[k].item.unitPrice)
  {
    if |rows| == 0 then []
    else
      var n := |rows| - 1;
      NewOrderItems(rows[..n], orderId, firstId) +
      [OrderItem(firstId + n, orderId, rows[n].item.productId, rows[n].item.quantity, rows[n].item.unitPrice)]
  }

  /** The value of a list of order items. */
  function ItemsValue(items: seq<OrderItem>): int {
    if |items| == 0 then 0 else ItemsValue(items[..|items| - 1]) + items[|items| - 1].unitPrice * items[|items| - 1].quantity
  }

  /** An order's total equals the value of the order items created with it. */
  lemma {:induction false} OrderTotalMatchesItems(rows: seq<CartRow>, orderId: int, firstId: int)
    ensures ItemsValue(NewOrderItems(rows, orderId, firstId)) == Total(rows)
  {
    if |rows| > 0 {
      var n := |rows| - 1;
      OrderTotalMatchesItems(rows[..n], orderId, firstId);
      var ois := NewOrderItems(rows, orderId, firstId);
      assert ois[..n] == NewOrderItems(rows[..n], orderId, firstId);
    }
  }

  /** No product appears on two rows. */
  ghost predicate DistinctProducts(rows: seq<CartRow>) {
    forall k, m :: 0 <= k < m < |rows| ==> rows[k].item.productId != rows[m].item.productId
  }

  /** Under one line per (cart, product), the checkout rows name distinct
      products. */
  lemma CheckoutRowsDistinctProducts(items: seq<CartItem>, products: map<int, Product>, cartId: int)
    requires UniqueLines(items)
    requires forall i, j :: 0 <= i < j < |items| ==> items[i].id < items[j].id
    ensures DistinctProducts(CheckoutRows(items, products, cartId))
  {
    var rows := CheckoutRows(items, products, cartId);
    CheckoutRowsAscending(items, products, cartId);
    forall k, m | 0 <= k < m < |rows|
      ensures rows[k].item.productId != rows[m].item.productId
    {
      CheckoutRowsMembers(items, products, cartId, rows[k]);
      CheckoutRowsMembers(items, products, cartId, rows[m]);
      var i :| 0 <= i < |items| && items[i] == rows[k].item;
      var j :| 0 <= j < |items| && items[j] == rows[m].item;
      assert i != j;
      if i < j {} else {}
    }
  }

  /** Rows come out in strictly ascending line id. */
  lemma {:induction false} CheckoutRowsAscending(items: seq<CartItem>, products: map<int, Product>, cartId: int)
    requires forall i, j :: 0 <= i < j < |items| ==> items[i].id < items[j].id
    ensures forall k, m :: 0 <= k < m < |CheckoutRows(items, products, cartId)| ==>
      CheckoutRows(items, products, cartId)[k].item.id < CheckoutRows(items, products, cartId)[m].item.id
  {
    if |items| > 0 {
      var init, last := items[..|items| - 1], items[|items| - 1];
      var rest := CheckoutRows(init, products, cartId);
      CheckoutRowsAscending(init, products, cartId);
      var rows := CheckoutRows(items, products, cartId);
      if last.cartId == cartId && last.productId in products {
        assert rows == rest + [CartRow(last, products[last.productId])];
        forall k | 0 <= k < |rest|
          ensures rest[k].item.id < last.id
        {
          CheckoutRowsMembers(init, products, cartId, rest[k]);
          var j :| 0 <= j < |init| && init[j] == rest[k].item;
          assert items[j] == rest[k].item;
        }
      } else {
        assert rows == rest;
      }
    }
  }

  ghost predicate CoversLines(ois: seq<OrderItem>, items: seq<CartItem>, products: map<int, Product>, cartId: int) {
    forall i :: 0 <= i < |items| && items[i].cartId == cartId && items[i].productId in products ==>
      exists k :: 0 <= k < |ois| && ois[k].productId == items[i].productId
        && ois[k].quantity == items[i].quantity && ois[k].unitPrice == items[i].unitPrice
  }

  /** Every line of the cart whose product exists has an order item
      copying its product, quantity and captured price. */
  lemma OrderItemsCoverLines(items: seq<CartItem>, products: map<int, Product>, cartId: int, orderId: int, firstId: int)
    ensures CoversLines(NewOrderItems(CheckoutRows(items, products, cartId), orderId, firstId), items, products, cartId)
  {
    var rows := CheckoutRows(items, products, cartId);
    var ois := NewOrderItems(rows, orderId, firstId);
    forall i | 0 <= i < |items| && items[i].cartId == cartId && items[i].productId in products
      ensures exists k :: (0 <= k < |ois| && ois[k].productId == items[i].productId
                             && ois[k].quantity == items[i].quantity && ois[k].unitPrice == items[i].unitPrice)
    {
      var row := CartRow(items[i], products[items[i].productId]);
      CheckoutRowsMembers(items, products, cartId, row);
      var k :| 0 <= k < |rows| && rows[k] == row;
      assert ois[k].productId == items[i].productId;
    }
    assert CoversLines(ois, items, products, cartId);
  }

  /** Every order item belongs to the new order and copies a line of the
      cart. */
  lemma OrderItemsCopyLines(items: seq<CartItem>, products: map<int, Product>, cartId: int, orderId: int, firstId: int)
    ensures var ois := NewOrderItems(CheckoutRows(items, products, cartId), orderId, firstId);
      forall k :: 0 <= k < |ois| ==>
        ois[k].orderId == orderId &&
        exists i :: 0 <= i < |items| && items[i].cartId == cartId && items[i].productId == ois[k].productId
          && items[i].quantity == ois[k].quantity && items[i].unitPrice == ois[k].unitPrice
  {
    var rows := CheckoutRows(items, products, cartId);
    var ois := NewOrderItems(rows, orderId, firstId);
    forall k | 0 <= k < |ois|
      ensures exists i :: (0 <= i < |items| && items[i].cartId == cartId && items[i].productId == ois[k].productId
                             && items[i].quantity == ois[k].quantity && items[i].unitPrice == ois[k].unitPrice)
    {
      CheckoutRowsMembers(items, products, cartId, rows[k]);
    }
  }

  /** No product is ordered twice by one checkout. */
  lemma OrderItemsDistinctProducts(items: seq<CartItem>, products: map<int, Product>, cartId: int, orderId: int, firstId: int)
    requires UniqueLines(items)
    requires forall i, j :: 0 <= i < j < |items| ==> items[i].id < items[j].id
    ensures var ois := NewOrderItems(CheckoutRows(items, products, cartId), orderId, firstId);
      forall k, m :: 0 <= k < m < |ois| ==> ois[k].productId != ois[m].productId
  {
    CheckoutRowsDistinctProducts(items, products, cartId);
  }

  /** Stock after decrementing by one line (`UPDATE products SET stock =
      stock - ? WHERE id = ?`; no row changes when the product is absent). */
  function DecrementOne(products: map<int, Product>, item: CartItem): (r: map<int, Product>)
    ensures r.Keys == products.Keys
  {
    if item.productId in products
    then products[item.productId := products[item.productId].(stock := products[item.productId].stock - item.quantity)]
    else products
  }

  /** The products table after `create`'s decrements, in row order. */
  function Decremented(products: map<int, Product>, rows: seq<CartRow>): (r: map<int, Product>)
    ensures r.Keys == products.Keys
  {
    if |rows| == 0 then products
    else DecrementOne(Decremented(products, rows[..|rows| - 1]), rows[|rows| - 1].item)
  }

  /** The total quantity the rows take of a product. */
  function QuantityOrdered(rows: seq<CartRow>, productId: int): int {
    if |rows| == 0 then 0
    else
      var last := rows[|rows| - 1];
      QuantityOrdered(rows[..|rows| - 1], productId) + (if last.item.productId == productId then last.item.quantity else 0)
  }

  /** Each product's stock drops by exactly the quantity ordered of it; its
      other columns and the set of products do not change. */
  lemma {:induction false} DecrementedStock(products: map<int, Product>, rows: seq<CartRow>)
    ensures forall pid :: pid in products ==>
      Decremented(products, rows)[pid] == products[pid].(stock := products[pid].stock - QuantityOrdered(rows, pid))
  {
    if |rows| > 0 {
      DecrementedStock(products, rows[..|rows| - 1]);
    }
  }

  /** With distinct products, the quantity ordered of a product is that of
      its one row, or 0 when no row names it. */
  lemma {:induction false} QuantityOrderedDistinct(rows: seq<CartRow>, productId: int)
    requires DistinctProducts(rows)
    ensures forall k :: 0 <= k < |rows| && rows[k].item.productId == productId ==> QuantityOrdered(rows, productId) == rows[k].item.quantity
    ensures (forall k :: 0 <= k < |rows| ==> rows[k].item.productId != productId) ==> QuantityOrdered(rows, productId) == 0
  {
    if |rows| > 0 {
      QuantityOrderedDistinct(rows[..|rows| - 1], productId);
    }
  }

  /** Checkout's decrements leave every stock non-negative when each row's
      stock (read in the same transaction) covered its quantity and no
      product appears on two rows. */
  lemma CheckoutKeepsStockNonNegative(items: seq<CartItem>, products: map<int, Product>, cartId: int)
    requires StockNonNegative(products) && UniqueLines(items)
    requires forall i, j :: 0 <= i < j < |items| ==> items[i].id < items[j].id
    requires AllInStock(CheckoutRows(items, products, cartId))
    ensures StockNonNegative(Decremented(products, CheckoutRows(items, products, cartId)))
  {
    var rows := CheckoutRows(items, products, cartId);
    DecrementedStock(products, rows);
    CheckoutRowsDistinctProducts(items, products, cartId);
    forall pid | pid in products
      ensures products[pid].stock - QuantityOrdered(rows, pid) >= 0
    {
      QuantityOrderedDistinct(rows, pid);
      if k :| 0 <= k < |rows| && rows[k].item.productId == pid {
        CheckoutRowsMembers(items, products, cartId, rows[k]);
      }
    }
  }

  /** `UPDATE carts SET status = 'ordered' WHERE id = cartId`. */
  function MarkOrdered(carts: seq<Cart>, cartId: int): (r: seq<Cart>)
    ensures |r| == |carts|
    ensures forall k :: 0 <= k < |carts| ==> r[k].id == carts[k].id && r[k].userId == carts[k].userId
    ensures forall k :: 0 <= k < |carts| ==> r[k].status == (if carts[k].id == cartId then Ordered else carts[k].status)
  {
    if |carts| == 0 then []
    else [if carts[0].id == cartId then carts[0].(status := Ordered) else carts[0]] + MarkOrdered(carts[1..], cartId)
  }

  /** Two cart tables in which the same carts are open for a user select
      the same open cart. */
  lemma {:induction false} OpenCartIdSameOpenCarts(a: seq<Cart>, b: seq<Cart>, userId: int)
    requires |a| == |b|
    requires forall k :: 0 <= k < |a| ==> a[k].id == b[k].id && IsOpenCartOf(a[k], userId) == IsOpenCartOf(b[k], userId)
    ensures OpenCartId(a, userId) == OpenCartId(b, userId)
  {
    if |a| > 0 {
      OpenCartIdSameOpenCarts(a[1..], b[1..], userId);
    }
  }

  /** Closing the user's open cart leaves the user with no open cart and
      every other user's open cart as it was, and keeps at most one open cart
      per user. */
  lemma CheckoutClosesCart(carts: seq<Cart>, userId: int, cartId: int)
    requires OneOpenCartPerUser(carts)
    requires forall i, j :: 0 <= i < j < |carts| ==> carts[i].id < carts[j].id
    requires OpenCartId(carts, userId) == Some(cartId)
    ensures OneOpenCartPerUser(MarkOrdered(carts, cartId))
    ensures OpenCartId(MarkOrdered(carts, cartId), userId).None?
    ensures forall u :: u != userId ==> OpenCartId(MarkOrdered(carts, cartId), u) == OpenCartId(carts, u)
  {
    var i :| 0 <= i < |carts| && IsOpenCartOf(carts[i], userId) && carts[i].id == cartId;
    forall u | u != userId
      ensures OpenCartId(MarkOrdered(carts, cartId), u) == OpenCartId(carts, u)
    {
      MarkOrderedKeepsOtherUser(carts, cartId, i, u);
    }
    MarkOrderedClosesOpenCart(carts, userId, cartId);
    MarkOrderedKeepsOneOpen(carts, cartId);
  }

  /** Closing a cart opens none, so at most one open cart per user remains. */
  lemma MarkOrderedKeepsOneOpen(carts: seq<Cart>, cartId: int)
    requires OneOpenCartPerUser(carts)
    ensures OneOpenCartPerUser(MarkOrdered(carts, cartId))
  {
  }

  /** Closing cart `cartId`, which sits at index `i` and is not `u`'s, leaves
      `u`'s open cart as it was: ids are unique, so no other cart changes. */
  lemma MarkOrderedKeepsOtherUser(carts: seq<Cart>, cartId: int, i: int, u: int)
    requires forall i, j :: 0 <= i < j < |carts| ==> carts[i].id < carts[j].id
    requires 0 <= i < |carts| && carts[i].id == cartId && carts[i].userId != u
    ensures OpenCartId(MarkOrdered(carts, cartId), u) == OpenCartId(carts, u)
  {
    var r := MarkOrdered(carts, cartId);
    forall k | 0 <= k < |carts|
      ensures IsOpenCartOf(r[k], u) == IsOpenCartOf(carts[k], u)
    {
      if carts[k].id == cartId {
        assert k == i by {
          if k < i {} else if k > i {}
        }
      }
    }
    OpenCartIdSameOpenCarts(r, carts, u);
  }

  /** Closing the user's only open cart leaves the user none. */
  lemma MarkOrderedClosesOpenCart(carts: seq<Cart>, userId: int, cartId: int)
    requires OneOpenCartPerUser(carts)
    requires OpenCartId(carts, userId) == Some(cartId)
    ensures OpenCartId(MarkOrdered(carts, cartId), userId).None?
  {
    var r := MarkOrdered(carts, cartId);
    forall k | 0 <= k < |carts|
      ensures !IsOpenCartOf(r[k], userId)
    {
      if carts[k].id != cartId && IsOpenCartOf(carts[k], userId) {
        OpenCartIsTheOnlyOne(carts, userId, k);
      }
    }
  }

  /** `DELETE FROM cart_items WHERE cart_id = cartId`. */
  function DeleteCartItems(items: seq<CartItem>, cartId: int): (r: seq<CartItem>)
    ensures |r| <= |items|
  {
    if |items| == 0 then []
    else (if items[0].cartId == cartId then [] else [items[0]]) + DeleteCartItems(items[1..], cartId)
  }

  /** Exactly the lines of other carts remain. */
  lemma {:induction false} DeleteCartItemsMembers(items: seq<CartItem>, cartId: int, x: CartItem)
    ensures x in DeleteCartItems(items, cartId) <==> x in items && x.cartId != cartId
  {
    if |items| > 0 {
      DeleteCartItemsMembers(items[1..], cartId, x);
      assert items == [items[0]] + items[1..];
    }
  }

  /** Deleting keeps the remaining lines in ascending id. */
  lemma {:induction false} DeleteCartItemsAscending(items: seq<CartItem>, cartId: int)
    requires forall i, j :: 0 <= i < j < |items| ==> items[i].id < items[j].id
    ensures var r := DeleteCartItems(items, cartId);
      forall k, m :: 0 <= k < m < |r| ==> r[k].id < r[m].id
  {
    if |items| > 0 {
      var rest := DeleteCartItems(items[1..], cartId);
      DeleteCartItemsAscending(items[1..], cartId);
      forall k | 0 <= k < |rest|
        ensures rest[k].id > items[0].id
      {
        DeleteCartItemsMembers(items[1..], cartId, rest[k]);
        var j :| 0 <= j < |items[1..]| && items[1..][j] == rest[k];
        assert items[j + 1] == rest[k];
      }
    }
  }

  /** Deleting keeps at most one line per (cart, product). */
  lemma {:induction false} DeleteCartItemsUnique(items: seq<CartItem>, cartId: int)
    requires UniqueLines(items)
    ensures UniqueLines(DeleteCartItems(items, cartId))
  {
    if |items| > 0 {
      var rest := DeleteCartItems(items[1..], cartId);
      DeleteCartItemsUnique(items[1..], cartId);
      forall k | 0 <= k < |rest|
        ensures rest[k].cartId != items[0].cartId || rest[k].productId != items[0].productId
      {
        DeleteCartItemsMembers(items[1..], cartId, rest[k]);
        var j :| 0 <= j < |items[1..]| && items[1..][j] == rest[k];
        assert items[j + 1] == rest[k];
      }
    }
  }

  /** Deleting a cart's lines keeps the cart_items table well formed. */
  lemma DeleteCartItemsKeepsTableValid(items: seq<CartItem>, next: int, cartId: int)
    requires CartItemIdsBelow(items, next) && UniqueLines(items)
    requires PositiveQuantities(items)
    ensures var r := DeleteCartItems(items, cartId);
      && CartItemIdsBelow(r, next) && UniqueLines(r)
      && PositiveQuantities(r)
  {
    var r := DeleteCartItems(items, cartId);
    DeleteCartItemsAscending(items, cartId);
    DeleteCartItemsUnique(items, cartId);
    forall k | 0 <= k < |r|
      ensures 0 < r[k].id < next && r[k].quantity >= 1
    {
      DeleteCartItemsMembers(items, cartId, r[k]);
    }
  }

  /** Checkout's writes drop a line whose product row is missing: the line
      is deleted with its cart, and none of the order items appended after
      `orderItems` carries its product. */
  lemma DanglingLineDropped(orderItems: seq<OrderItem>, items: seq<CartItem>, products: map<int, Product>,
                            cartId: int, orderId: int, firstId: int, x: CartItem)
    requires x in items && x.cartId == cartId && x.productId !in products
    ensures x !in DeleteCartItems(items, cartId)
    ensures var all := orderItems + NewOrderItems(CheckoutRows(items, products, cartId), orderId, firstId);
      forall k :: |orderItems| <= k < |all| ==> all[k].productId != x.productId
  {
    var rows := CheckoutRows(items, products, cartId);
    var added := NewOrderItems(rows, orderId, firstId);
    forall k | |orderItems| <= k < |orderItems + added|
      ensures (orderItems + added)[k].productId != x.productId
    {
      assert (orderItems + added)[k] == added[k - |orderItems|];
      CheckoutRowsMembers(items, products, cartId, rows[k - |orderItems|]);
    }
    DeleteCartItemsMembers(items, cartId, x);
  }

  /** A cart has no checkout rows exactly when none of its lines names an
      existing product; with every product row gone, checkout answers "Cart
      is empty". */
  lemma NoRowsIffNoProducts(items: seq<CartItem>, products: map<int, Product>, cartId: int)
    ensures CheckoutRows(items, products, cartId) == [] <==>
      forall x :: x in items && x.cartId == cartId ==> x.productId !in products
  {
    var rows := CheckoutRows(items, products, cartId);
    if rows != [] {
      CheckoutRowsMembers(items, products, cartId, rows[0]);
    }
    forall x | x in items && x.cartId == cartId && x.productId in products
      ensures rows != []
    {
      CheckoutRowsMembers(items, products, cartId, CartRow(x, products[x.productId]));
    }
  }

  /** A row of `fetchOrderItems`' query: an order item joined with its
      product. */
  datatype OrderItemRow = OrderItemRow(item: OrderItem, product: Product)

  /** The rows of `fetchOrderItems`' query: the order's items whose product
      exists, oldest first (`ORDER BY oi.id ASC`). */
  function OrderItemRows(items: seq<OrderItem>, products: map<int, Product>, orderId: int): (rows: seq<OrderItemRow>)
    ensures |rows| <= |items|
  {
    if |items| == 0 then []
    else
      var last := items[|items| - 1];
      OrderItemRows(items[..|items| - 1], products, orderId) +
      (if last.orderId == orderId && last.productId in products then [OrderItemRow(last, products[last.productId])] else [])
  }

  lemma {:induction false} OrderItemRowsMembers(items: seq<OrderItem>, products: map<int, Product>, orderId: int, row: OrderItemRow)
    ensures row in OrderItemRows(items, products, orderId) <==>
      && row.item in items && row.item.orderId == orderId
      && row.item.productId in products && row.product == products[row.item.productId]
  {
    if |items| > 0 {
      OrderItemRowsMembers(items[..|items| - 1], products, orderId, row);
      assert items == items[..|items| - 1] + [items[|items| - 1]];
    }
  }

  /** An order's items come out in strictly ascending id. */
  lemma {:induction false} OrderItemRowsAscending(items: seq<OrderItem>, products: map<int, Product>, orderId: int)
    requires forall i, j :: 0 <= i < j < |items| ==> items[i].id < items[j].id
    ensures forall k, m :: 0 <= k < m < |OrderItemRows(items, products, orderId)| ==>
      OrderItemRows(items, products, orderId)[k].item.id < OrderItemRows(items, products, orderId)[m].item.id
  {
    if |items| > 0 {
      var init, last := items[..|items| - 1], items[|items| - 1];
      var rest := OrderItemRows(init, products, orderId);
      OrderItemRowsAscending(init, products, orderId);
      var rows := OrderItemRows(items, products, orderId);
      if last.orderId == orderId && last.productId in products {
        assert rows == rest + [OrderItemRow(last, products[last.productId])];
        forall k | 0 <= k < |rest|
          ensures rest[k].item.id < last.id
        {
          OrderItemRowsMembers(init, products, orderId, rest[k]);
          var j :| 0 <= j < |init| && init[j] == rest[k].item;
          assert items[j] == rest[k].item;
        }
      } else {
        assert rows == rest;
      }
    }
  }

  /** The rows of `list`'s order query: the user's orders, newest first
      (`ORDER BY id DESC`). */
  function UserOrderRows(orders: seq<Order>, userId: int): (r: seq<Order>)
    ensures |r| <= |orders|
  {
    if |orders| == 0 then []
    else UserOrderRows(orders[1..], userId) + (if orders[0].userId == userId then [orders[0]] else [])
  }

  /** Exactly the user's orders are listed. */
  lemma {:induction false} UserOrderRowsMembers(orders: seq<Order>, userId: int, o: Order)
    ensures o in UserOrderRows(orders, userId) <==> o in orders && o.userId == userId
  {
    if |orders| > 0 {
      UserOrderRowsMembers(orders[1..], userId, o);
      assert orders == [orders[0]] + orders[1..];
    }
  }

  /** The user's orders come out in strictly descending id. */
  lemma {:induction false} UserOrderRowsNewestFirst(orders: seq<Order>, userId: int)
    requires forall i, j :: 0 <= i < j < |orders| ==> orders[i].id < orders[j].id
    ensures var rows := UserOrderRows(orders, userId);
      forall k, m :: 0 <= k < m < |rows| ==> rows[k].id > rows[m].id
  {
    if |orders| > 0 {
      var rest := UserOrderRows(orders[1..], userId);
      UserOrderRowsNewestFirst(orders[1..], userId);
      forall k | 0 <= k < |rest|
        ensures rest[k].id > orders[0].id
      {
        UserOrderRowsMembers(orders[1..], userId, rest[k]);
        var j :| 0 <= j < |orders[1..]| && orders[1..][j] == rest[k];
        assert orders[j + 1] == rest[k];
      }
    }
  }

  /** A worked checkout: 3 units captured at 1000 cents against a stock of 5
      give a total of 3000 cents, leave a stock of 2, and empty and close
      the cart. */
  lemma CheckoutExample()
    ensures var products := map[1 := Product("Mouse", "mouse", 1000, 5)];
      var carts := [Cart(1, 7, Open)];
      var items := [CartItem(1, 1, 1, 3, 1000)];
      var rows := CheckoutRows(items, products, 1);
      && OpenCartId(carts, 7) == Some(1)
      && AllInStock(rows) && rows != []
      && Total(rows) == 3000
      && Decremented(products, rows)[1].stock == 2
      && DeleteCartItems(items, 1) == []
      && MarkOrdered(carts, 1) == [Cart(1, 7, Ordered)]
  {
    var products := map[1 := Product("Mouse", "mouse", 1000, 5)];
    var items := [CartItem(1, 1, 1, 3, 1000)];
    var rows := CheckoutRows(items, products, 1);
    assert rows == [CartRow(items[0], products[1])];
    DecrementedStock(products, rows);
    assert QuantityOrdered(rows, 1) == 3;
    var closed := MarkOrdered([Cart(1, 7, Open)], 1);
    assert closed[0] == Cart(1, 7, Ordered);
  }
}
