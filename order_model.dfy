/**
  The order document of the Order collection: who placed it, the requested lines, a status and
  the total price, with the rules Mongoose checks when the document is created.
 */
module OrderModel {
  import opened Wrappers
  import opened Errors
  import opened Query

  /** One requested line; `productId` is `None` when the request leaves it out. */
  datatype OrderLine = OrderLine(productId: Option<Id>, quantity: int)

  datatype Order = Order(
    userId: Id,
    userName: string,
    userEmail: string,
    products: seq<OrderLine>,
    status: string,
    totalPrice: int)

  /** The values the `status` enum allows, and its default. */
  const Statuses: seq<string> := ["Pending", "Shipped", "Delivered"]
  const DefaultStatus: string := "Pending"

  /** `productId` is required and `quantity` has `min: 1`. */
  predicate ValidLine(l: OrderLine) {
    l.productId.Some? && l.quantity >= 1
  }

  /**
    The schema's rules: the user's name and e-mail are required (Mongoose rejects an empty
    string for a required String), every line is valid, the status is one of the enum values
    and `totalPrice` has `min: 0`. `userId` is always present in this model.
   */
  predicate ValidOrder(o: Order) {
    && o.userName != ""
    && o.userEmail != ""
    && (forall i :: 0 <= i < |o.products| ==> ValidLine(o.products[i]))
    && o.status in Statuses
    && o.totalPrice >= 0
  }

  /**
    `Order.create` with no status given: the status takes its default and the document is
    stored only if it passes validation.
   */
  function CreateOrder(userId: Id, userName: string, userEmail: string, products: seq<OrderLine>, totalPrice: int)
    : (r: Result<Order, Error>)
    ensures r.Ok? <==>
      && userName != "" && userEmail != "" && totalPrice >= 0
      && forall i :: 0 <= i < |products| ==> products[i].productId.Some? && products[i].quantity >= 1
    ensures r.Ok? ==> r.value == Order(userId, userName, userEmail, products, "Pending", totalPrice) && ValidOrder(r.value)
    ensures r.Err? ==> r.error == ValidationFailed
  {
    var o := Order(userId, userName, userEmail, products, DefaultStatus, totalPrice);
    if ValidOrder(o) then Ok(o) else Err(ValidationFailed)
  }

  /**
    The update `{ status }` of `updateOrderStatus`. `findByIdAndUpdate` does not run the schema
    validators unless asked to, so the new status is stored whatever it is.
   */
  function WithStatus(o: Order, status: string): (r: Order)
    ensures r.status == status
    ensures r.(status := o.status) == o
  {
    o.(status := status)
  }

  /** A valid order stays valid under a status update exactly when the new status is an enum value. */
  lemma StatusUpdateValidity(o: Order, status: string)
    requires ValidOrder(o)
    ensures ValidOrder(WithStatus(o, status)) <==> status in ["Pending", "Shipped", "Delivered"]
  {
  }

  /** The `{ status }` filter of `getAllOrders`; `None` keeps every order. */
  predicate HasStatus(filter: Option<string>, e: (Id, Order)) {
    filter.None? || e.1.status == filter.value
  }

  /**
    The orders `find(filter)` returns for the `status` parameter, in the table's order: those
    with that status when the parameter is non-empty, and every order otherwise.
   */
  function OrdersWithStatus(table: seq<(Id, Order)>, status: Option<string>): (r: seq<(Id, Order)>)
    ensures forall i :: 0 <= i < |r| ==> Truthy(status).Some? ==> r[i].1.status == status.value
    ensures forall e :: multiset(r)[e] == if HasStatus(Truthy(status), e) then multiset(table)[e] else 0
    ensures Truthy(status).None? ==> r == table
    ensures IdsAscending(table) ==> IdsAscending(r)
  {
    var filter := Truthy(status);
    var r := Matching(table, e => HasStatus(filter, e));
    assert forall e :: multiset(r)[e] == if HasStatus(filter, e) then multiset(table)[e] else 0 by {
      forall e ensures multiset(r)[e] == if HasStatus(filter, e) then multiset(table)[e] else 0 {
        MatchingCount(table, e => HasStatus(filter, e), e);
      }
    }
    assert filter.None? ==> r == table by {
      if filter.None? { MatchingAll(table, e => HasStatus(filter, e)); }
    }
    assert IdsAscending(table) ==> IdsAscending(r) by {
      if IdsAscending(table) { MatchingAscending(table, e => HasStatus(filter, e)); }
    }
    r
  }

  /** What `getAllOrders` answers: the count and the orders of the page. */
  datatype OrderListing = OrderListing(results: nat, data: seq<(Id, Order)>)

  /**
    The listing of `getAllOrders` over the orders `table` in natural order: the orders with the
    given status, then the page window of `skip = (page - 1) * limit` and `|limit|` orders.
   */
  function ListOrders(table: seq<(Id, Order)>, status: Option<string>, page: Option<string>, limit: Option<string>)
    : (r: Result<OrderListing, Error>)
    ensures r.Ok? <==> SkipOf(page, limit) >= 0
    ensures r.Err? ==> r.error == QueryRejected
    ensures r.Ok? ==> r.value.results == |r.value.data|
    ensures r.Ok? ==> IsWindow(r.value.data, OrdersWithStatus(table, status), SkipOf(page, limit), IntOrDefault(limit, 10))
    ensures r.Ok? ==> r.value.results <= Abs(IntOrDefault(limit, 10))
    ensures r.Ok? ==> forall i :: 0 <= i < |r.value.data| ==>
      && r.value.data[i] in table
      && (Truthy(status).Some? ==> r.value.data[i].1.status == status.value)
    ensures r.Ok? && IdsAscending(table) ==> IdsAscending(r.value.data)
  {
    var matching := OrdersWithStatus(table, status);
    match PageWindow(matching, page, limit)
    case Err(e) => Err(e)
    case Ok(w) =>
      assert forall i :: 0 <= i < |w| ==> w[i] in table by {
        forall i | 0 <= i < |w| ensures w[i] in table {
          assert w[i] in multiset(matching);
        }
      }
      assert IdsAscending(table) ==> IdsAscending(w) by {
        if IdsAscending(table) {
          WindowAscending(matching, SkipOf(page, limit), IntOrDefault(limit, 10));
        }
      }
      assert IsWindow(w, matching, SkipOf(page, limit), IntOrDefault(limit, 10));
      Ok(OrderListing(|w|, w))
  }
}
