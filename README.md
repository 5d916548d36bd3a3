# Carthage Tech shop backend: cart, checkout and bearer tokens in Dafny

This project models the core of the Carthage Tech shop backend: the shopping
cart, the checkout that turns a cart into an order, the order history, and
the bearer tokens the API uses to authenticate a user.

The database is one `Tables.Database` object. It holds five tables:

- `products`, a map keyed by product id;
- `carts`, `cart_items`, `orders` and `order_items`, each a sequence of rows
  in insertion order.

Each of the four sequence tables has its own auto-increment counter. A row's
id comes from that counter, so insertion order is ascending id order.
`TablesValid` states the well-formedness the controllers keep:

- ids are positive, ascending, and below their table's counter;
- no user has two open carts;
- a cart has at most one line per product;
- every cart line holds at least one unit;
- no stock is negative.

A cart line may name a product row that no longer exists, since nothing
deletes cart lines when a product goes. `Add`, `GetOrCreateOpenCartId`,
`Create` and the steps of `Add` require `TablesValid` of the database and
re-establish it; `Rollback` requires it of the saved tables it restores.
`WriteOrder` and `InsertOrderItems`, the writing steps of `Create`, are
stated without it: they give the exact new tables, and `Create` proves
those valid with `CheckoutKeepsTablesValid`. The listing methods require
nothing.

The SQL statements of the controllers are pure functions over the tables:

- `OpenCartId`, `CartItemRows`, `CheckoutRows`, `OrderItemRows` and
  `UserOrderRows` are the queries;
- `Upsert`, `MarkOrdered`, `DeleteCartItems` and `Decremented` are the writes.

The PHP loops are methods with loop invariants, proved against those
functions:

- `FetchCartItems`, `FetchOrderItems` and `OrderController.List`;
- `CollectLines`, the stock check and total of checkout;
- `InsertOrderItems`, which writes the order items and decrements stock.

The controllers' state-changing actions are methods that return a `Result`, with one error
kind per message the PHP code sends.

- Adding to the cart (`CartController.Add`):
  - The request is validated first.
  - The user's open cart is found or created.
  - The product must exist and have stock for the requested quantity.
  - The (cart, product) line is then inserted, or merged by adding the
    quantity and overwriting the unit price.
  - An error raised after the transaction began restores the cart tables.
    The cart id counter is not restored, because InnoDB does not give back
    auto-increment values on rollback.
- Checkout (`OrderController.Create`):
  - Errors are checked in this order: no open cart, a line whose stock is
    below its quantity, no lines. On any error the database is unchanged.
  - On success it appends an order with status `created` and the total of
    the captured unit prices.
  - It also appends one order item per line, decrements each product's
    stock by the line's quantity, marks the cart `ordered` and deletes its
    lines.

The proved properties include:

- the checkout total equals the value of the order items;
- the total ignores current catalog prices;
- each product's stock drops by exactly the quantity ordered and never
  becomes negative;
- checkout closes exactly the user's open cart;
- the listing queries return exactly the matching rows, in their
  `ORDER BY` order.

The token helpers:

- `GenerateToken` is the base64 text of `"<user id>:<time>"`.
- `ParseToken` is strict base64 decoding, then `explode(':')` and PHP's
  `(int)` cast of the first two fields.
- `GetBearerToken` is the trimmed text after a case-insensitive `"Bearer "`
  prefix of the trimmed header.
- `AuthenticatedUserId` is the token checks of `require_auth`.

Base64 follows section 4 of RFC 4648, with the strict decoder's treatment of
whitespace, padding and foreign characters. The proofs cover:

- the base64 round trip, and the decoder's rejection of foreign characters
  and of data after padding;
- the token round trip;
- the header round trip, for any spelling of the scheme and any trim
  characters around it.

`GeneratedTokenAccepted` proves that a generated token for a non-zero user is
accepted whatever its timestamp. The timestamp is never checked and the token
is not signed, so tokens never expire and anyone who knows a user id can mint
one.

Three behaviours of the code are stated as proved facts:

- `add` checks stock against the requested increment, not the merged
  quantity. Whenever the quantity already in the cart plus the increment
  exceeds the stock, a request that passes the check leaves the line
  holding more than the stock (`MergedQuantityMayExceedStock`). For example,
  4 in the cart plus 3 requested against a stock of 5 gives 7
  (`MergedQuantityExample`). Checkout then refuses the cart with
  `InsufficientStock`.
- Checkout's empty-cart check comes after its stock check. An empty cart
  trivially passes the stock check, so the order of the checks changes no
  outcome, and the model keeps the code's order.
- A cart line whose product row has disappeared is dropped by the inner join.
  It is not ordered, yet checkout deletes it (`DanglingLineDropped`, and the
  last postcondition of `Create`). A cart whose every line has lost its
  product has no checkout rows (`NoRowsIffNoProducts`), so checkout answers
  `EmptyCart`.

## Model

| member | source | states |
|---|---|---|
| Tables.CartCounterRaised | src/controllers/CartController.php:58-59 | a rollback that leaves the cart id counter advanced keeps the tables valid |
| CartStore.OpenCartId | src/controllers/CartController.php:73-81 | none exactly when the user has no open cart; otherwise the id of one of the user's open carts, and the largest such id |
| CartStore.OpenCartIsTheOnlyOne | src/controllers/CartController.php:74 | when users have at most one open cart, the query selects that cart |
| CartStore.CartItemRows | src/controllers/CartController.php:95-99 | the query returns no more rows than the table has lines |
| CartStore.CartItemRowsMembers | src/controllers/CartController.php:95-98 | a row is returned exactly when it is a line of the cart joined with its product's current row |
| CartStore.CartItemRowsNewestFirst | src/controllers/CartController.php:99 | the cart's lines come out in strictly descending line id |
| CartStore.FindLine | src/controllers/CartController.php:35-39 | none exactly when the cart has no line for the product; otherwise the index of the first such line |
| CartStore.Upsert | src/controllers/CartController.php:42-53 | one more row exactly when the pair had no line, and then the old rows are kept in front |
| CartStore.UpsertAddsQuantity | src/controllers/CartController.php:42-53 | after the upsert the pair's line holds the old quantity plus the increment at the new price |
| CartStore.UpsertLeavesOtherLines | src/controllers/CartController.php:42-53 | lines of other pairs keep their position and content; an appended line has the new id and the pair, quantity and price |
| CartStore.UpsertKeepsLinesUnique | src/controllers/CartController.php:35-53 | the upsert never creates a second line for a (cart, product) pair |
| CartStore.UpsertKeepsTableValid | src/controllers/CartController.php:35-53 | the upsert keeps line ids ascending and below the advanced counter, lines unique, quantities positive |
| CartStore.UpsertKeepsTablesValid | src/controllers/CartController.php:35-53 | the upsert keeps every table valid |
| CartStore.NewCartKeepsTablesValid | src/controllers/CartController.php:86-91 | opening a cart for a user with none keeps every table valid and makes the new cart the user's open cart |
| CartController.ToCartLine | src/controllers/CartController.php:106-115 | each output field is the row's column, and the line total is unit price times quantity |
| CartController.RequestedProductId | src/controllers/CartController.php:12 | a missing product id reads as 0, a present one as given |
| CartController.RequestedQuantity | src/controllers/CartController.php:13 | the quantity is at least 1: the given value when it is at least 1, else 1 |
| CartController.CheckProduct | src/controllers/CartController.php:23-30 | no error exactly when the product exists with stock for the quantity; otherwise product-not-found or insufficient-stock, in that order |
| CartController.FetchCartItems | src/controllers/CartController.php:94-119 | one output line per query row, in the query's order |
| CartController.GetOrCreateOpenCartId | src/controllers/CartController.php:83-92 | an existing open cart is returned with no change; otherwise exactly one open cart with the counter's id is appended; either way the result is the user's open cart and the tables stay valid |
| CartController.Add | src/controllers/CartController.php:10-62 | the error for each failed check in order (non-positive id, missing product, stock below the quantity), and success exactly when every check passes; on error the cart tables are restored and only the cart counter may have advanced; on success the exact new carts and cart_items tables and counters, and the returned view of the cart |
| CartController.AddInTransaction | src/controllers/CartController.php:17-61 | fails exactly when the product is missing or its stock is below the quantity; the state after a rollback, and after a commit, counters included |
| CartController.CheckAndAddLine | src/controllers/CartController.php:22-59 | with the cart known, fails exactly on the product checks and restores the saved cart tables; otherwise upserts the line and returns the cart |
| CartController.Rollback | src/controllers/CartController.php:58-59 | the cart tables go back to their saved contents and the tables stay valid |
| CartController.AddLine | src/controllers/CartController.php:34-56 | the line is upserted at the product's current price and the returned view lists the cart |
| CartController.UpsertLine | src/controllers/CartController.php:34-53 | cart_items becomes the upsert of the old table and the counter advances only on insert |
| CartController.MergedQuantityMayExceedStock | src/controllers/CartController.php:28-53 | when the product check passes but the quantity in the cart plus the increment exceeds the stock, the upserted line holds more than the stock |
| CartController.MergedQuantityExample | src/controllers/CartController.php:28-53 | 4 units in the cart and 3 requested against a stock of 5 pass the check, and the line then holds 7 |
| CartController.List | src/controllers/CartController.php:65-71 | the cart id is the user's open cart or null; no open cart gives no lines, otherwise one line per query row |
| OrderStore.CheckoutRows | src/controllers/OrderController.php:26 | the query returns no more rows than the table has lines |
| OrderStore.CheckoutRowsMembers | src/controllers/OrderController.php:26 | a row is returned exactly when it is a line of the cart joined with its product's current row |
| OrderStore.CheckoutRowsAscending | src/controllers/OrderController.php:26 | the checkout rows come out in strictly ascending line id |
| OrderStore.CheckoutRowsDistinctProducts | src/controllers/OrderController.php:26 | with one line per (cart, product), no product appears on two checkout rows |
| OrderStore.Total | src/controllers/OrderController.php:32-38 | the total is not negative when no line total is |
| OrderStore.TotalIsCartValue | src/controllers/OrderController.php:32-39 | the accumulated total is the cart's value at its captured unit prices |
| OrderStore.TotalIgnoresCatalogPrices | src/controllers/OrderController.php:38 | changing catalog prices does not change the checkout total |
| OrderStore.NewOrderItems | src/controllers/OrderController.php:52-59 | one order item per row, with consecutive ids, the order id, and the row's product, quantity and unit price |
| OrderStore.OrderTotalMatchesItems | src/controllers/OrderController.php:38-59 | the order's total equals the value of the order items written with it |
| OrderStore.OrderItemsCoverLines | src/controllers/OrderController.php:54-59 | every line of the cart whose product exists has an order item copying it |
| OrderStore.OrderItemsCopyLines | src/controllers/OrderController.php:54-59 | every order item belongs to the new order and copies a line of the cart |
| OrderStore.OrderItemsDistinctProducts | src/controllers/OrderController.php:54-59 | no product is ordered twice by one checkout |
| OrderStore.DecrementOne | src/controllers/OrderController.php:60-61 | one decrement keeps the set of products |
| OrderStore.Decremented | src/controllers/OrderController.php:53-61 | the decrements keep the set of products |
| OrderStore.DecrementedStock | src/controllers/OrderController.php:53-61 | each product's stock drops by exactly the quantity ordered of it, other columns unchanged |
| OrderStore.QuantityOrderedDistinct | src/controllers/OrderController.php:53-61 | with distinct products, the quantity ordered of a product is that of its one row, or 0 |
| OrderStore.CheckoutKeepsStockNonNegative | src/controllers/OrderController.php:33-61 | when every row's stock covered its quantity, no stock becomes negative |
| OrderStore.MarkOrdered | src/controllers/OrderController.php:67 | only the given cart's status changes, to ordered; ids and users stay |
| OrderStore.OpenCartIdSameOpenCarts | src/controllers/OrderController.php:15 | two cart tables with the same open carts for a user select the same open cart |
| OrderStore.CheckoutClosesCart | src/controllers/OrderController.php:67 | after checkout the user has no open cart, every other user keeps theirs, and users still have at most one open cart |
| OrderStore.MarkOrderedKeepsOneOpen | src/controllers/OrderController.php:67 | closing a cart opens none |
| OrderStore.MarkOrderedKeepsOtherUser | src/controllers/OrderController.php:67 | closing a cart of another user leaves a user's open cart as selected |
| OrderStore.MarkOrderedClosesOpenCart | src/controllers/OrderController.php:67 | closing the user's only open cart leaves the user none |
| OrderStore.DeleteCartItems | src/controllers/OrderController.php:68-70 | the delete leaves no more lines than there were |
| OrderStore.DeleteCartItemsMembers | src/controllers/OrderController.php:68-70 | exactly the lines of other carts remain |
| OrderStore.DeleteCartItemsAscending | src/controllers/OrderController.php:68-70 | the remaining lines stay in ascending id |
| OrderStore.DeleteCartItemsUnique | src/controllers/OrderController.php:68-70 | the remaining lines stay unique per (cart, product) |
| OrderStore.DeleteCartItemsKeepsTableValid | src/controllers/OrderController.php:68-70 | the cart_items table stays well formed |
| OrderStore.DanglingLineDropped | src/controllers/OrderController.php:26-70 | a line of the cart whose product is missing is deleted, and no order item written after the old ones carries its product |
| OrderStore.NoRowsIffNoProducts | src/controllers/OrderController.php:26-41 | a cart has no checkout rows exactly when none of its lines names an existing product |
| OrderStore.CheckoutExample | src/controllers/OrderController.php:26-71 | 3 units at 1000 cents against stock 5: in stock, total 3000, stock left 2, cart emptied and ordered |
| OrderStore.OrderItemRows | src/controllers/OrderController.php:103 | the query returns no more rows than the table has items |
| OrderStore.OrderItemRowsMembers | src/controllers/OrderController.php:103 | a row is returned exactly when it is an item of the order joined with its product's current row |
| OrderStore.OrderItemRowsAscending | src/controllers/OrderController.php:103 | an order's items come out in strictly ascending id |
| OrderStore.UserOrderRows | src/controllers/OrderController.php:84 | the query returns no more rows than the table has orders |
| OrderStore.UserOrderRowsMembers | src/controllers/OrderController.php:84 | exactly the user's orders are listed |
| OrderStore.UserOrderRowsNewestFirst | src/controllers/OrderController.php:84 | the user's orders come out in strictly descending id |
| OrderController.CollectLines | src/controllers/OrderController.php:31-39 | in stock exactly when every row's stock covers its quantity; then every row is copied and the total is the sum of line totals |
| OrderController.InsertOrderItems | src/controllers/OrderController.php:52-62 | order_items grows by one item per row with consecutive ids, the counter by the row count, and stock is decremented per row |
| OrderController.Create | src/controllers/OrderController.php:10-79 | the error for each failed check in order (no open cart, insufficient stock, empty cart) with the database unchanged; on success the receipt and the exact new state of every table and counter, all tables valid; a line of the cart whose product is missing is deleted and not ordered |
| OrderController.WriteOrder | src/controllers/OrderController.php:43-71 | the order row with status created, the order items, the stock decrements, the cart marked ordered and its lines deleted |
| OrderController.CheckoutKeepsCartTablesValid | src/controllers/OrderController.php:52-71 | after checkout's writes users have at most one open cart, stock is non-negative and cart_items is well formed |
| OrderController.CheckoutKeepsTablesValid | src/controllers/OrderController.php:43-71 | checkout as a whole keeps every table valid |
| OrderController.MarkOrderedKeepsIds | src/controllers/OrderController.php:67 | closing a cart changes no cart id |
| OrderController.NewOrderIdBelow | src/controllers/OrderController.php:44-48 | the new order's id keeps order ids ascending and below the advanced counter |
| OrderController.NewOrderItemIdsBelow | src/controllers/OrderController.php:52-59 | the new order items keep item ids ascending and below the advanced counter |
| OrderController.FetchOrderItems | src/controllers/OrderController.php:102-121 | one output line per query row, in the query's order |
| OrderController.ToOrderLine | src/controllers/OrderController.php:110-117 | each output field is the row's column, and the line total is unit price times quantity |
| OrderController.List | src/controllers/OrderController.php:82-100 | one view per order of the user, newest first, each with its order's fields and its items |
| PhpStrings.TrimLeft | src/routes/middleware.php:39 | the result is no longer than the input and does not start with a trim character |
| PhpStrings.TrimLeftDrops | src/routes/middleware.php:39 | the result is a suffix of the input and what was dropped is all trim characters |
| PhpStrings.TrimRight | src/routes/middleware.php:39 | the result is no longer than the input and does not end with a trim character |
| PhpStrings.TrimRightDrops | src/routes/middleware.php:39 | the result is a prefix of the input and what was dropped is all trim characters |
| PhpStrings.Trim | src/routes/middleware.php:39 | the result neither starts nor ends with a trim character |
| PhpStrings.TrimAround | src/routes/middleware.php:39 | trim characters around a core with non-trim ends are stripped to exactly that core |
| PhpStrings.TrimLeftAfter | src/routes/middleware.php:39 | left trimming skips exactly the leading trim characters |
| PhpStrings.TrimRightBefore | src/routes/middleware.php:39 | right trimming skips exactly the trailing trim characters |
| PhpStrings.LowerAscii | src/routes/middleware.php:46 | lower-casing keeps the length and lower-cases each character on its own |
| PhpStrings.Explode | src/routes/middleware.php:72 | at least one piece, and no piece holds a colon |
| PhpStrings.JoinExplode | src/routes/middleware.php:72 | joining the pieces with colons gives the string back |
| PhpStrings.ExplodeSplits | src/routes/middleware.php:72-73 | there are two pieces or more exactly when the string has a colon |
| PhpStrings.ExplodeField | src/routes/middleware.php:72-74 | a colon-free prefix before a colon is the first piece |
| PhpStrings.ExplodeWhole | src/routes/middleware.php:72 | a colon-free string is one piece |
| PhpStrings.DigitChar | src/routes/middleware.php:64 | a digit value gives a digit character |
| PhpStrings.Digits | src/routes/middleware.php:64 | a natural number's decimal text is a non-empty digit string |
| PhpStrings.DecimalOf | src/routes/middleware.php:64 | an int's decimal text is non-empty, colon-free, made of digits and '-' |
| PhpStrings.DigitPrefix | src/routes/middleware.php:74 | the prefix is all digits and no longer than the input |
| PhpStrings.DigitPrefixLongest | src/routes/middleware.php:74 | it is a prefix of the input and the next character is not a digit |
| PhpStrings.SkipLeadingSpace | src/routes/middleware.php:74 | the result does not start with leading whitespace |
| PhpStrings.SkipLeadingSpaceSuffix | src/routes/middleware.php:74 | the result is a suffix of the input, and what was skipped is all leading whitespace |
| PhpStrings.IntCast | src/routes/middleware.php:74 | the cast is negative only after a minus sign, and 0 for a blank string |
| PhpStrings.DigitsValueOfDigits | src/routes/middleware.php:64-74 | reading back a natural number's digits gives the number |
| PhpStrings.DigitPrefixOfDigits | src/routes/middleware.php:74 | a digit string is its own digit prefix |
| PhpStrings.IntCastDecimal | src/routes/middleware.php:64-74 | the `(int)` cast of an int's decimal text gives the int back |
| Base64.SextetChar | src/routes/middleware.php:64 | the alphabet character of a sextet decodes to that sextet |
| Base64.SextetValue | src/routes/middleware.php:70 | a value exactly for the 64 alphabet characters, and it is below 64 |
| Base64.Sextets | src/routes/middleware.php:64 | four sextets per three bytes, plus one more than the leftover bytes |
| Base64.GroupSextets | src/routes/middleware.php:64 | three bytes give four sextets |
| Base64.SextetChars | src/routes/middleware.php:64 | one character per sextet |
| Base64.Encode | src/routes/middleware.php:64 | four characters for every three bytes, rounded up |
| Base64.EncodedLength | src/routes/middleware.php:64 | the sextets and padding of n bytes fill exactly the groups of four the encoding has |
| Base64.SextetCharsValues | src/routes/middleware.php:64 | each character stands for the sextet at its position |
| Base64.Scan | src/routes/middleware.php:70 | a successful scan yields sextets and at least the padding counted so far |
| Base64.SextetsToBytes | src/routes/middleware.php:70 | the decoded text is no longer than the sextets |
| Base64.GroupBytes | src/routes/middleware.php:70 | four sextets give three bytes |
| Base64.SextetsToBytesAreBytes | src/routes/middleware.php:70 | the decoded text is a byte string |
| Base64.Decode | src/routes/middleware.php:70 | a successful decode yields a byte string |
| Base64.ScanPadding | src/routes/middleware.php:70 | scanning '=' characters adds them to the padding count |
| Base64.ScanData | src/routes/middleware.php:70 | an alphabet character in front adds its sextet in front |
| Base64.ScanChars | src/routes/middleware.php:64-70 | scanning encoded sextets and padding gives those sextets and that padding back |
| Base64.BytesOfSextets | src/routes/middleware.php:64-70 | decoding the sextets of a byte string gives the bytes back |
| Base64.BytesOfGroup | src/routes/middleware.php:64-70 | the first four sextets decode to the first three bytes |
| Base64.SextetsSplit | src/routes/middleware.php:64 | the sextets of three bytes or more are those of the first three, then those of the rest |
| Base64.BytesSplit | src/routes/middleware.php:70 | four sextets or more decode group by group |
| Base64.ThreeBytes | src/routes/middleware.php:64-70 | three bytes survive encoding to sextets and decoding |
| Base64.GroupRoundTrip | src/routes/middleware.php:64-70 | the bytes of the sextets of three bytes are those bytes |
| Base64.EncodedGroupsComplete | src/routes/middleware.php:64-70 | the encoder's sextets and padding pass the decoder's final checks |
| Base64.DecodeEncode | src/routes/middleware.php:64-70 | strict decoding undoes encoding |
| Base64.DecodeScanned | src/routes/middleware.php:70 | a scan with complete groups decodes to the bytes of its sextets |
| Base64.EncodedForm | src/routes/middleware.php:64 | encoded text has only alphabet characters and '=' |
| Base64.ScanRejectsForeignChar | src/routes/middleware.php:70 | a character outside the alphabet, '=' and whitespace makes the scan fail |
| Base64.DecodeRejectsForeignChar | src/routes/middleware.php:70-71 | strict decoding rejects such a character |
| Base64.ScanRejectsDataAfterPadding | src/routes/middleware.php:70 | an alphabet character after a '=' makes the scan fail |
| Base64.ScanDataAfterPadding | src/routes/middleware.php:70 | once padding is counted, any later alphabet character fails |
| Base64.DecodeRejectsDataAfterPadding | src/routes/middleware.php:70-71 | strict decoding rejects data after padding |
| Middleware.AuthorizationHeader | src/routes/middleware.php:39 | a value exactly when the raw header is truthy; the value has no trim character at either end |
| Middleware.BearerSchemeByChars | src/routes/middleware.php:46 | the scheme test passes exactly when each of the first seven characters, lower-cased, is that of "bearer " |
| Middleware.GetBearerToken | src/routes/middleware.php:39-48 | a token exactly when the header is truthy and its trimmed form starts with the scheme in any case; then the trimmed rest after seven characters |
| Middleware.EncodedUntrimmed | src/routes/middleware.php:64 | base64 text of a non-empty string has no trim character at either end |
| Middleware.BearerTokenRoundTrip | src/routes/middleware.php:39-48 | the scheme in any case and a token, with trim characters around and between, yield exactly the token |
| Middleware.TrimmedHeader | src/routes/middleware.php:39 | such a header trims to the scheme and the token, and the scheme is recognised |
| Middleware.TokenAfterSpace | src/routes/middleware.php:47 | trim characters before a token are stripped to the token |
| Middleware.SchemeInFront | src/routes/middleware.php:46-47 | the scheme in front is recognised and cutting seven characters leaves the rest |
| Middleware.BearerTokenOf | src/routes/middleware.php:44-48 | a header whose trimmed form is the scheme and the token yields the token |
| Middleware.GenerateToken | src/routes/middleware.php:62-66 | the token is a truthy string of at least four characters with no trim character at either end |
| Middleware.ParseToken | src/routes/middleware.php:68-76 | null exactly when strict decoding fails or the decoded text has no colon |
| Middleware.ParseTokenFields | src/routes/middleware.php:70-74 | a token decoding to a field, a colon and more parses to that field and the first field of the rest |
| Middleware.ParseGeneratedToken | src/routes/middleware.php:62-76 | a generated token parses back to its user id and time |
| Middleware.ParseTokenIgnoresExtraFields | src/routes/middleware.php:72-74 | anything after a second colon is ignored |
| Middleware.AuthenticatedUserId | src/routes/middleware.php:78-87 | missing token exactly when there is no truthy bearer token; invalid exactly when it does not parse or its user id is 0; otherwise the parsed non-zero user id |
| Middleware.GeneratedTokenAccepted | src/routes/middleware.php:62-87 | a token generated for a non-zero user is accepted whatever its time and however the scheme is spelled |
| Middleware.UserZeroTokenRejected | src/routes/middleware.php:85-86 | a token generated for user 0 is refused as invalid |

## Left out

- Prices and totals are integer cents. The source uses PHP floats and MySQL decimals; their rounding is not modelled.
- Concurrency, locking and isolation levels are not modelled. Each controller call is one atomic step on one database object.
- JSON input and output are not modelled: `get_json_input`, `send_json`, response messages and HTTP status codes. `Add` takes the decoded `product_id` and `quantity` as optional integers, and the error kinds stand for the messages.
- JSON values that are not integers, and PHP's `(int)` cast of them in `add`, are not modelled.
- `get_authorization_header`'s lookup through `getallheaders` and `$_SERVER` is not modelled. The raw header value is a parameter of `GetBearerToken`.
- `require_auth`'s lookup in the users table and its "User not found" answer are not modelled. `AuthenticatedUserId` stops at the user id that lookup would check.
- `time()` and the `created_at` column default are the parameter `now`.
- The `(int)` cast (`IntCast`) reads leading whitespace, an optional sign and the digits. Exponents, fractions and the saturation of out-of-range values at 64 bits are not modelled.
- `stripos` is modelled with ASCII lower case only, which is all the `"Bearer "` comparison needs.
- Strings are byte strings: one character per byte, code points below 256.
- Checkout's item query has no `ORDER BY`. The model returns rows in line id order. Under one line per product, the total, the stock outcome and the multiset of (product, quantity, unit price) of the order items do not depend on that order; the order item ids do, and so does the order in which `list` later shows the order's items, since it sorts them by id.
- Database failures (`StorageFailure`) and the rollback they trigger are not modelled. The statements of the model cannot fail.
- The rest of the repository is not part of this model: routing, `get_path`, product and auth controllers, and the connection setup.

