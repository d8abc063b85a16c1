/**
  The two controllers against the database: the Product, Order and Review collections held
  as tables in one object, with an id counter standing in for MongoDB's id generation. Each
  endpoint is a method (when it writes) or a function (when it only reads).
 */
module Shop {
  import opened Wrappers
  import opened Errors
  import opened Query
  import opened OrderModel
  import opened Catalog
  import opened Placement

  /** A review document, created by `addReview`. */
  datatype Review = Review(product: Id, rating: int, comment: string)

  /** What `getOrderDetails` answers. */
  datatype OrderDetails = OrderDetails(products: seq<OrderLine>, totalPrice: int)

  class Store {
    var products: map<Id, Product>
    var orders: map<Id, Order>
    var reviews: map<Id, Review>
    /** The next id to hand out; every stored document has a smaller one. */
    var nextId: Id

    ghost predicate Valid()
      reads this
    {
      && (forall id :: id in products ==> id < nextId)
      && (forall id :: id in orders ==> id < nextId)
      && (forall id :: id in reviews ==> id < nextId)
    }

    constructor ()
      ensures Valid()
      ensures products == map[] && orders == map[] && reviews == map[] && nextId == 0
    {
      products, orders, reviews := map[], map[], map[];
      nextId := 0;
    }

    // ------------------------------------------------------------------------------------
    // Controllers/orderController.js

    /** `getOrderDetails`: the lines and total of an order, or "Order not found". */
    function GetOrderDetails(id: Id): (r: Result<OrderDetails, Error>)
      reads this
      ensures r.Ok? <==> id in orders
      ensures r.Err? ==> r.error == OrderNotFound
      ensures r.Ok? ==> r.value.products == orders[id].products && r.value.totalPrice == orders[id].totalPrice
    {
      if id in orders then Ok(OrderDetails(orders[id].products, orders[id].totalPrice)) else Err(OrderNotFound)
    }

    /**
      The loop of `placeOrder`: each line's product is looked up, its stock checked and
      decremented and saved, and the line's price added to the total. It stops at the first
      line that fails, keeping the decrements already saved.
     */
    method TakeStock(lines: seq<OrderLine>) returns (outcome: Result<int, Error>)
      modifies this
      ensures products == Run(old(products), lines, 0).products
      ensures outcome == Run(old(products), lines, 0).outcome
      ensures orders == old(orders) && reviews == old(reviews) && nextId == old(nextId)
    {
      var totalPrice := 0;
      var i := 0;
      while i < |lines|
        invariant 0 <= i <= |lines|
        invariant Run(old(products), lines, 0) == Run(products, lines[i..], totalPrice)
        invariant orders == old(orders) && reviews == old(reviews) && nextId == old(nextId)
      {
        var item := lines[i];
        if item.productId.None? || item.productId.value !in products {
          RunMissing(products, lines[i..], totalPrice);
          return Err(ProductNotFound);
        }
        var product := products[item.productId.value];
        if product.stock < item.quantity {
          RunShort(products, lines[i..], totalPrice);
          return Err(InsufficientStock(product.name));
        }
        RunTake(products, lines[i..], totalPrice);
        assert lines[i..][1..] == lines[i + 1..];
        totalPrice := totalPrice + product.price * item.quantity;
        products := Take(products, item.productId.value, item.quantity);
        i := i + 1;
      }
      assert lines[i..] == [];
      return Ok(totalPrice);
    }

    /**
      `placeOrder`: the loop over the requested lines, then `Order.create`. The product table
      ends as the loop leaves it, on every outcome: decrements saved before a failing line,
      or before a failed `Order.create`, are not undone.
     */
    method PlaceOrder(user: User, lines: seq<OrderLine>) returns (r: Result<Id, Error>)
      requires Valid()
      modifies this
      ensures Valid()
      ensures products == Run(old(products), lines, 0).products
      ensures reviews == old(reviews)
      ensures match Outcome(old(products), user, lines)
        case Err(e) => r == Err(e) && orders == old(orders) && nextId == old(nextId)
        case Ok(o) => && r == Ok(old(nextId)) && old(nextId) !in old(orders)
                      && orders == old(orders)[old(nextId) := o] && nextId == old(nextId) + 1
    {
      var outcome := TakeStock(lines);
      assert Valid() by {
        assert products.Keys == old(products).Keys;
      }
      match outcome {
        case Err(e) =>
          return Err(e);
        case Ok(totalPrice) =>
          var created := CreateOrder(user.id, user.name, user.email, lines, totalPrice);
          match created {
            case Err(e) =>
              return Err(e);
            case Ok(order) =>
              orders := orders[nextId := order];
              r := Ok(nextId);
              nextId := nextId + 1;
          }
      }
    }

    /**
      `updateOrderStatus`: only the status of an existing order changes, to the body's `status`
      (the schema's enum is not checked on update); no stock is touched. A body without `status`
      sends `{ status: undefined }`, an update Mongoose drops, so the order comes back as stored.
     */
    method UpdateOrderStatus(id: Id, status: Option<string>) returns (r: Result<Order, Error>)
      requires Valid()
      modifies this
      ensures Valid()
      ensures products == old(products) && reviews == old(reviews) && nextId == old(nextId)
      ensures id in old(orders) && status.Some? ==>
        && r == Ok(WithStatus(old(orders)[id], status.value))
        && orders == old(orders)[id := r.value]
      ensures id in old(orders) && status.None? ==> r == Ok(old(orders)[id]) && orders == old(orders)
      ensures id !in old(orders) ==> r == Err(OrderNotFound) && orders == old(orders)
    {
      if id !in orders {
        return Err(OrderNotFound);
      }
      if status.None? {
        return Ok(orders[id]);
      }
      var updated := WithStatus(orders[id], status.value);
      orders := orders[id := updated];
      r := Ok(updated);
    }

    /**
      `getAllOrders`: the orders in natural order, those with the given status when the
      `status` parameter is non-empty, then the page window.
     */
    function GetAllOrders(status: Option<string>, page: Option<string>, limit: Option<string>)
      : (r: Result<OrderListing, Error>)
      requires Valid()
      reads this
      ensures r.Ok? <==> SkipOf(page, limit) >= 0
      ensures r.Err? ==> r.error == QueryRejected
      ensures r.Ok? ==> r.value.results == |r.value.data|
      ensures r.Ok? ==> IsWindow(r.value.data, OrdersWithStatus(InIdOrder(orders, nextId), status), SkipOf(page, limit), IntOrDefault(limit, 10))
      ensures r.Ok? ==> r.value.results <= Abs(IntOrDefault(limit, 10))
      ensures r.Ok? ==> forall i :: 0 <= i < |r.value.data| ==>
        && r.value.data[i].0 in orders && r.value.data[i].1 == orders[r.value.data[i].0]
        && (Truthy(status).Some? ==> r.value.data[i].1.status == status.value)
      ensures r.Ok? ==> IdsAscending(r.value.data)
    {
      StoredOrdersPage(orders, InIdOrder(orders, nextId), status, page, limit);
      ListOrders(InIdOrder(orders, nextId), status, page, limit)
    }

    // ------------------------------------------------------------------------------------
    // Controllers/productController.js

    /** `getOneProduct`: the product, or "Product not found". */
    function GetOneProduct(id: Id): (r: Result<Product, Error>)
      reads this
      ensures r.Ok? <==> id in products
      ensures r.Ok? ==> r.value == products[id]
      ensures r.Err? ==> r.error == ProductNotFound
    {
      if id in products then Ok(products[id]) else Err(ProductNotFound)
    }

    /** `getProduct`: the catalogue listing over the stored products in natural order. */
    function GetProduct(q: ProductQuery, averageRating: Product -> real): (r: Result<ProductListing, Error>)
      requires Valid()
      reads this
      ensures r.Ok? <==> SkipOf(q.page, q.limit) >= 0
      ensures r.Err? ==> r.error == QueryRejected
      ensures r.Ok? ==> r.value.results == |r.value.data|
      ensures r.Ok? ==> IsWindow(r.value.data, Views(Catalogue(InIdOrder(products, nextId), q), averageRating), SkipOf(q.page, q.limit), IntOrDefault(q.limit, 10))
      ensures r.Ok? ==> r.value.results <= Abs(IntOrDefault(q.limit, 10))
      ensures r.Ok? ==> forall i :: 0 <= i < |r.value.data| ==>
        && r.value.data[i].id in products
        && r.value.data[i].product == products[r.value.data[i].id]
        && r.value.data[i].averageRating == averageRating(r.value.data[i].product)
        && (Truthy(q.category).Some? ==> r.value.data[i].product.category == q.category.value)
      ensures r.Ok? ==> forall i, j :: 0 <= i < j < |r.value.data| ==>
        Before(r.value.data[i].product, r.value.data[j].product, Ascending(q))
    {
      StoredProductsPage(products, InIdOrder(products, nextId), q, averageRating);
      ListProducts(InIdOrder(products, nextId), q, averageRating)
    }

    /** `createProduct`: a new product under a fresh id, or the validation error. */
    method CreateProduct(name: string, description: string, price: int, category: string,
                         stock: Option<string>, files: seq<UploadedFile>) returns (r: Result<Id, Error>)
      requires Valid()
      modifies this
      ensures Valid()
      ensures orders == old(orders) && reviews == old(reviews)
      ensures match NewProduct(name, description, price, category, stock, files)
        case Err(e) => r == Err(e) && products == old(products) && nextId == old(nextId)
        case Ok(p) => && r == Ok(old(nextId)) && old(nextId) !in old(products)
                      && products == old(products)[old(nextId) := p] && nextId == old(nextId) + 1
    {
      var made := NewProduct(name, description, price, category, stock, files);
      if made.Err? {
        return Err(made.error);
      }
      products := products[nextId := made.value];
      r := Ok(nextId);
      nextId := nextId + 1;
    }

    /** `updateProduct`: an existing product with the given fields overwritten, or "Product not found". */
    method UpdateProduct(id: Id, patch: ProductPatch) returns (r: Result<Product, Error>)
      requires Valid()
      modifies this
      ensures Valid()
      ensures orders == old(orders) && reviews == old(reviews) && nextId == old(nextId)
      ensures id in old(products) ==> && r == Ok(Patched(old(products)[id], patch))
                                      && products == old(products)[id := r.value]
      ensures id !in old(products) ==> r == Err(ProductNotFound) && products == old(products)
    {
      if id !in products {
        return Err(ProductNotFound);
      }
      var updated := Patched(products[id], patch);
      products := products[id := updated];
      r := Ok(updated);
    }

    /**
      `addReview`: the review is created in any case; when the product exists its id is
      appended to the end of the product's `reviews`, and nothing else of it changes.
     */
    method AddReview(id: Id, rating: int, comment: string) returns (reviewId: Id)
      requires Valid()
      modifies this
      ensures Valid()
      ensures reviewId == old(nextId) && reviewId !in old(reviews) && nextId == old(nextId) + 1
      ensures reviews == old(reviews)[reviewId := Review(id, rating, comment)]
      ensures orders == old(orders)
      ensures id in old(products) ==>
        products == old(products)[id := old(products)[id].(reviews := old(products)[id].reviews + [reviewId])]
      ensures id !in old(products) ==> products == old(products)
    {
      reviewId := nextId;
      reviews := reviews[reviewId := Review(id, rating, comment)];
      nextId := nextId + 1;
      if id in products {
        var p := products[id];
        products := products[id := p.(reviews := p.reviews + [reviewId])];
      }
    }
  }

  /** A page of `getAllOrders` over a listing of stored orders holds stored orders. */
  lemma StoredOrdersPage(orders: map<Id, Order>, t: seq<(Id, Order)>,
                         status: Option<string>, page: Option<string>, limit: Option<string>)
    requires forall i :: 0 <= i < |t| ==> t[i].0 in orders && t[i].1 == orders[t[i].0]
    ensures var r := ListOrders(t, status, page, limit);
      r.Ok? ==> forall i :: 0 <= i < |r.value.data| ==>
        r.value.data[i].0 in orders && r.value.data[i].1 == orders[r.value.data[i].0]
  {
    var r := ListOrders(t, status, page, limit);
    if r.Ok? {
      forall i | 0 <= i < |r.value.data|
        ensures r.value.data[i].0 in orders && r.value.data[i].1 == orders[r.value.data[i].0]
      {
        assert r.value.data[i] in t;
      }
    }
  }

  /** A page of `getProduct` over a listing of stored products holds stored products. */
  lemma StoredProductsPage(products: map<Id, Product>, t: seq<Entry>, q: ProductQuery, averageRating: Product -> real)
    requires forall i :: 0 <= i < |t| ==> t[i].0 in products && t[i].1 == products[t[i].0]
    ensures var r := ListProducts(t, q, averageRating);
      r.Ok? ==> forall i :: 0 <= i < |r.value.data| ==>
        r.value.data[i].id in products && r.value.data[i].product == products[r.value.data[i].id]
  {
    var r := ListProducts(t, q, averageRating);
    if r.Ok? {
      forall i | 0 <= i < |r.value.data|
        ensures r.value.data[i].id in products && r.value.data[i].product == products[r.value.data[i].id]
      {
        assert (r.value.data[i].id, r.value.data[i].product) in t;
      }
    }
  }
}
