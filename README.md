# Shop orders and products, modelled in Dafny

This project models the order and product controllers of a small Express/Mongoose online shop,
together with the order schema.

- **Placing an order.** `placeOrder` walks the requested lines one at a time. For each line it
  looks the product up, checks that the stock covers the quantity, adds `price * quantity` to
  the total, and saves the product with its stock decreased. It then creates the order
  document, which Mongoose validates against the schema.
- **Other order endpoints.** An order can be read, its status can be overwritten, and the
  orders can be listed with a status filter and pagination.
- **Product endpoints.** A product can be read, listed, created, updated and reviewed. The
  listing applies a category filter, a price sort and pagination, and adds each product's
  average rating.

The database is a `Store` object (`shop.dfy`). It holds the three collections as maps from ids
to documents, and a counter that hands out fresh ids in increasing order. The model takes a
collection's natural order, the order `find` returns without a `sort`, to be ascending id. The endpoints that write are methods over this state. The
endpoints that only read are functions. Each endpoint is proved against the pure definitions
in the other modules:

- `Placement`: the loop as a recursive function `Run`. Its closed form is proved for all
  inputs.
- `OrderModel`: the order document and its validation, plus the status update and the status
  filter.
- `Catalog`: the product document, the update and create operations, and the listing pipeline.
- `Query`: `parseInt(x) || d` and the `skip`/`limit` window.
- `JsNumber`: JavaScript's `parseInt`, and `String(n)` on integers written in plain decimal digits.

The placement loop **does not roll back**. When a line fails, the stock decrements already
saved for earlier lines are kept. They are also kept when `Order.create` then rejects the
order, for example because of a quantity below 1. `Placement.RunFirstFailure` and
`Placement.ValidationAfterDecrement` prove this. The code runs no transaction, so a failed
order never restores the stock it has already taken.

## Model

| member | source | states |
|---|---|---|
| JsNumber.ParseInt | Controllers/orderController.js:89-90 | `parseInt(s)` with no radix: skip leading white space, read an optional sign, then a `0x`/`0X` prefix and hexadecimal digits or else decimal digits, as many as there are. No digit gives NaN (`None`). |
| JsNumber.ParseIntShape | Controllers/orderController.js:89-90 | `parseInt` gives a number only when a decimal digit comes first after the white space and an optional sign. It gives a negative number only after a `-`. |
| JsNumber.TrimStart | Controllers/orderController.js:89-90 | `parseInt` first skips leading white space. The result is a suffix of the input that does not start with white space. Everything dropped is white space. |
| JsNumber.DigitRun | Controllers/orderController.js:89-90 | The digit run `parseInt` reads is the longest prefix made of digits of the radix. |
| JsNumber.ParseDecimal | Controllers/productController.js:59 | `parseInt` reads back the integer that `String(n)` writes. This holds with any leading white space, and with any trailing text that cannot continue the number. |
| JsNumber.DecimalRoundTrip | Controllers/productController.js:59 | `parseInt(String(n)) == n` for every integer `n` that `String` writes in plain decimal digits. |
| JsNumber.NoDigitsIsNaN | Controllers/productController.js:23-24 | A string containing no hexadecimal digit parses to NaN, whatever its sign or spacing. |
| Query.IntOrDefault | Controllers/orderController.js:89-90 | `parseInt(q) \|\| d` gives `d` exactly when the parse is NaN or 0 (absent parameters included). Otherwise it gives the parsed, non-zero value. |
| Query.IntOrDefaultDecimal | Controllers/productController.js:23-24 | A parameter written as the decimal `n` gives `n`, except that "0" gives the default. |
| Query.Window | Controllers/orderController.js:94-97 | `skip(s).limit(l)` fails exactly when `s < 0`. Otherwise it returns documents `s`, `s+1`, … of the input, in order. There are at most `\|l\|` of them, or all the remaining ones when `l = 0`. |
| Query.PageWindow | Controllers/orderController.js:89-97 | Pagination with `skip = (page-1)*limit`. The limit is never 0. The result is rejected exactly when skip is negative. Otherwise it is the window from position `skip`: `min(\|limit\|, max(0, n - skip))` documents in order, where `n` is the listing's length. |
| Query.SkipOf | Controllers/orderController.js:91 | `skip = (page - 1) * limit`. Without a usable `page` the skip is 0. |
| Query.SkipSign | Controllers/orderController.js:89-97 | The skip is negative, so the listing is refused, exactly when the page is below 1 with a positive limit, or above 1 with a negative limit. |
| Query.DefaultPage | Controllers/productController.js:23-31 | With no usable `page` or `limit`, a listing is the first ten documents. |
| Query.PagesTile | Controllers/productController.js:23-31 | With page `p ≥ 1` and limit `l ≥ 1`, the page is exactly the slice `[(p-1)*l, p*l)` of the listing, so consecutive pages tile it. |
| Query.InIdOrder | Controllers/orderController.js:94 | The natural order of a collection: every stored document appears, once, by strictly ascending id. |
| Query.Truthy | Controllers/orderController.js:85-86 | `x ? { field: x } : {}`: the filter is on exactly when the parameter is present and non-empty, and then it uses that value. |
| Query.Matching | Controllers/productController.js:16-17 | `find(filter)`: every document returned is a document of the collection that passes the filter, and every document that passes it is returned. |
| Query.MatchingCount | Controllers/productController.js:16-17 | `find(filter)` returns each document that passes the filter as often as the collection holds it, and no document that fails it. The result's multiset is exactly the passing part of the collection's. |
| Query.MatchingAll | Controllers/orderController.js:85-86 | An empty filter `{}` returns the whole collection, in its order. |
| Query.MatchingAscending | Controllers/orderController.js:94 | Filtering keeps the natural order. |
| OrderModel.ValidLine | Models/orderModel.js:11-20 | An order line is valid when its `productId` is present and its `quantity` is at least 1. |
| OrderModel.ValidOrder | Models/orderModel.js:3-27 | An order is valid when name and e-mail are non-empty, every line is valid, the status is an enum value, and the total is at least 0. |
| OrderModel.CreateOrder | Models/orderModel.js:3-27 | `Order.create` succeeds exactly when name and e-mail are non-empty, every line has a product id and a quantity ≥ 1, and the total is ≥ 0. The stored order is the given data with status "Pending", and it is valid. Otherwise the result is a validation error. |
| OrderModel.WithStatus | Controllers/orderController.js:66-70 | The update sets the status to the given value and changes nothing else. |
| OrderModel.StatusUpdateValidity | Models/orderModel.js:21-25 | A valid order stays valid after a status update exactly when the new status is one of the enum's values. |
| OrderModel.OrdersWithStatus | Controllers/orderController.js:85-86 | `find(status ? { status } : {})`: the orders with that status, each as often as the table holds it. Every order when the parameter is absent or empty. Natural order is kept. |
| OrderModel.ListOrders | Controllers/orderController.js:83-107 | The listing is rejected exactly when skip is negative. Otherwise `data` is exactly the window of `OrdersWithStatus` from `skip = (page-1)*limit`: `min(\|limit\|, max(0, m - skip))` orders, the `i`-th being matching order `skip + i`. `results` counts them. Every order returned is in the table and has the filtered status. Natural order is kept. |
| Catalog.Patched | Controllers/productController.js:75-77 | `findByIdAndUpdate(id, body)` with a body of plain field values: each such field is overwritten and every other field is kept. An empty body changes nothing. |
| Catalog.PatchIdempotent | Controllers/productController.js:75-77 | Applying the same update twice equals applying it once. |
| Catalog.Filenames | Controllers/productController.js:52 | The images are the uploaded files' stored names, one per file, in upload order. |
| Catalog.NewProduct | Controllers/productController.js:50-61 | Creation succeeds exactly when `parseInt(stock)` is a number, and then stock is that number. The product carries the given fields and the files' names, and has no reviews. |
| Catalog.NewProductDecimalStock | Controllers/productController.js:59 | A stock field written as the decimal `n` is stored as `n`. |
| Catalog.Insert | Controllers/productController.js:29 | Inserting into a price-sorted listing keeps it sorted and adds exactly that one entry. |
| Catalog.SortByPrice | Controllers/productController.js:20 | `sort("price")` / `sort("-price")`: the result is sorted in the chosen direction and is a permutation of the input. |
| Catalog.ProductsInCategory | Controllers/productController.js:16-17 | `find(category ? { category } : {})`: the products of that category, each as often as the table holds it. The whole table, in its order, when the parameter is absent or empty. |
| Catalog.Catalogue | Controllers/productController.js:16-29 | `find(filter).sort(sortBy)` before the window: a price-sorted permutation of `ProductsInCategory`. With no category it is a permutation of the whole table. |
| Catalog.CataloguePage | Controllers/productController.js:16-31 | Every product on a page of the catalogue is in the table and in the category, and the page is sorted by price. |
| Catalog.Views | Controllers/productController.js:38-41 | Each item is its product together with that product's `averageRating`, in the same order. |
| Catalog.ListProducts | Controllers/productController.js:14-47 | The listing is rejected exactly when skip is negative. Otherwise `data` is exactly the window of the rated `Catalogue` from `skip = (page-1)*limit`: `min(\|limit\|, max(0, c - skip))` items, the `i`-th being catalogue entry `skip + i` with its average rating. `results` is the item count, which is at most `\|limit\|`. Items come from the table, carry their average rating and match a non-empty category. They are ordered by price ascending exactly when `sort` is "price", and descending otherwise. |
| Placement.Take | Controllers/orderController.js:46-47 | The save decreases the stock of one product by the quantity and changes nothing else. |
| Placement.Run | Controllers/orderController.js:32-48 | The loop never adds or removes a product. |
| Placement.RunStockOnly | Controllers/orderController.js:32-48 | The loop changes only stock counts. No other field of any product is altered. |
| Placement.RunAllAccepted | Controllers/orderController.js:32-48 | When every line passes its check against the stock left by the earlier lines, each product ends decreased by the sum of the quantities asked of it. The total is `Σ price*quantity` at the starting prices. |
| Placement.RunFirstFailure | Controllers/orderController.js:32-44 | When line `k` is the first to fail, the loop reports that line's error ("Product not found" or "Insufficient stock for product <name>"). The decrements of lines `0..k-1` remain: there is no rollback. |
| Placement.RunClosedForm | Controllers/orderController.js:32-48 | The whole loop in closed form. With `n` lines accepted, the table ends with exactly their decrements. The outcome is the full total, or the error of line `n`. |
| Placement.Outcome | Controllers/orderController.js:27-56 | `placeOrder`'s answer. A loop error is passed on unchanged. After a loop that succeeds, the only possible error is the validation error of `Order.create`. A created order has the user's data, the lines, status "Pending" and the loop's total, and it is valid. |
| Placement.OutcomeOk | Controllers/orderController.js:27-56 | `placeOrder` creates an order exactly when every line passes its stock check, the user's name and e-mail are non-empty, every quantity is ≥ 1, and the total is ≥ 0. That order has the user's data, the lines, status "Pending" and the total at the starting prices. |
| Placement.ValidationAfterDecrement | Controllers/orderController.js:45-56 | A quantity below 1 fails only at `Order.create`. By then every line's decrement has been saved. |
| Placement.StockFloor | Controllers/orderController.js:37-46 | No stock is taken below `min(its starting value, 0)`. |
| Placement.UntouchedProduct | Controllers/orderController.js:32-48 | A product no line names is left exactly as it was. |
| Placement.NoRollbackExample | Controllers/orderController.js:32-48 | An order of 2 Widgets (stock 5) and 1 Gadget (stock 0) fails on the Gadget, and the Widget stock stays at 3. |
| Placement.RepeatedProductExample | Controllers/orderController.js:32-48 | Two lines of 3 against a stock of 5: the second line sees 2 left and fails, and the stock stays at 2. |
| Placement.ZeroQuantityExample | Controllers/orderController.js:32-56 | Lines of quantity 1 then 0: the order is refused, yet one item has left the stock. |
| Shop.Store.GetOrderDetails | Controllers/orderController.js:13-25 | A stored order's lines and total, or "Order not found" (404) exactly when the id is not stored. |
| Shop.Store.TakeStock | Controllers/orderController.js:31-48 | The loop over the stored products ends with the table and outcome of `Run`. Nothing else in the store changes. |
| Shop.Store.PlaceOrder | Controllers/orderController.js:27-63 | The products end as `Run` leaves them, on every outcome. On success, the order that `Outcome` describes is stored under a fresh id and that id is returned. On failure, the error is that of `Outcome`, and no order is stored. |
| Shop.Store.UpdateOrderStatus | Controllers/orderController.js:65-81 | An existing order gets the body's status and is returned. A body without `status` leaves the order as stored and returns it. Otherwise the result is "Order not found". Products and reviews are untouched. |
| Shop.Store.GetAllOrders | Controllers/orderController.js:83-108 | The store must be consistent: every id is below the counter, so every stored order is listed. Rejected exactly when skip is negative. Otherwise the exact window, from `skip`, of the stored orders with the given status in ascending id order, with its exact length. The returned orders are stored orders with that status, and `results` counts them. |
| Shop.Store.GetOneProduct | Controllers/productController.js:8-13 | The stored product, or "Product not found" exactly when the id is not stored. |
| Shop.Store.GetProduct | Controllers/productController.js:14-48 | The store must be consistent: every id is below the counter, so every stored product is listed. Rejected exactly when skip is negative. Otherwise the exact window, from `skip`, of the rated catalogue of the stored products, with its exact length. Every item is a stored product in the category with its own average rating. The items are sorted by price in the requested direction, and `results` counts them. |
| Shop.Store.CreateProduct | Controllers/productController.js:50-72 | The product that `NewProduct` describes is stored under a fresh id. Otherwise the result is the validation error and nothing changes. |
| Shop.Store.UpdateProduct | Controllers/productController.js:74-88 | An existing product gets the update and is returned. Otherwise the result is "Product not found". Nothing else changes. |
| Shop.Store.AddReview | Controllers/productController.js:90-108 | The review is always created under a fresh id. The review's id is appended to the end of the product's `reviews` when the product exists. Otherwise products are unchanged. |

## Left out

- HTTP and Express: request parsing, response bodies, the `catchAsync` wrapper and the global
  error handler. An error is returned as an `Error` value. Mongoose validation errors and
  MongoDB query errors are the abstract `ValidationFailed` and `QueryRejected`, because their
  status codes come from an error handler that is not part of this model.
- The `if (!orders)`, `if (!products)` and `if (!product)` checks after `find` and
  `Product.create` cannot fire, because `find` always yields an array and `create` throws
  rather than returning nothing. They are not modelled.
- Authentication: `req.user` is an input `User`. `userId` is always present.
- The upload middleware: the uploaded files are an input list of names.
- `averageRating`: a virtual field of the product model, which is not part of this model. It is
  a parameter `Product -> real`.
- The product and review schemas are not part of this model, so their validation is not
  modelled. A product is refused only when its stock cannot be cast to a number. A review is
  always created.
- `populate("products.productId")` in `getAllOrders`: the model returns the stored order
  lines, not the populated products.
- Ids are natural numbers handed out by a counter. Casting a malformed ObjectId string, and
  the resulting cast error, are not modelled. A missing `productId` is `None`, which
  `findById` does not find.
- A missing or non-array `products` body field, and a non-numeric or missing `quantity`, are
  not modelled. Quantities and prices are integers, so JavaScript's floating point
  arithmetic, `NaN` comparisons and precision above 2^53 are not modelled.
- Concurrency: the awaits inside the loop are treated as one uninterrupted sequence, so
  interleaved requests racing on the same stock are not modelled.
- Query.InIdOrder: MongoDB does not promise any order for a `find` without `sort`. The model
  assumes ascending id, and the ascending-id clauses of Query.MatchingAscending,
  OrderModel.ListOrders and Shop.Store.GetAllOrders hold only under that assumption. Paging
  with `skip`/`limit` and no sort is not stable in MongoDB: the same page asked twice may hold
  different documents. The model does not capture that.
- Catalog.Patched: the body is modelled as plain field values only. Top-level update
  operators such as `$inc`, `$unset` or `$push`, which MongoDB applies as operators, are not
  modelled. Neither is a `null` value, which clears a field.
- Shop.Store.UpdateProduct: a body value that the product schema cannot cast, such as a
  non-numeric `price`, makes the update fail with a cast error. It is not an error path here,
  because the patch is typed.
- Query.IntOrDefault: a query parameter is at most one string. A repeated parameter such as
  `?page=2&page=3` arrives as an array, and so does a repeated `status` or `category` used as
  a filter. Neither case is modelled.
- Catalog.SortByPrice: the order among products of equal price is MongoDB's and unspecified. The
  model keeps them in id order and proves only sortedness and permutation.
- Query.Window: MongoDB treats a negative limit as a single batch of `|limit|`, and the model
  keeps only the `|limit|` bound.
- JsNumber.ParseInt: only integer results are modelled. A digit run whose value exceeds 2^53
  is exact here, which JavaScript does not guarantee.
- JsNumber.DecimalRoundTrip: JavaScript writes integers with `|n| >= 10^21` in exponent form
  (`String(1e21)` is "1e+21", which `parseInt` reads as 1). `Decimal` always writes plain
  digits, so the round trip is stated only for that form. Numbers that large also lie above
  2^53, where JavaScript integers are not exact anyway.
- Shop.Store.UpdateOrderStatus: a body without `status` is modelled as current Mongoose treats
  it. The undefined key is dropped and the order is returned unchanged. Mongoose 5, which sets
  the status to null instead, is not modelled.
