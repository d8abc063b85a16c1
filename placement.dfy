/**
  The order-placement loop of `placeOrder`, as a function of the product table and the
  requested lines, and what it amounts to. The loop visits the lines in request order; for
  each it looks the product up (re-reading the table, so earlier lines' decrements are seen),
  stops with "Product not found" or "Insufficient stock", or adds `price * quantity` to the
  total and saves the product with its stock decreased. Nothing is undone when it stops.
 */
module Placement {
  import opened Wrappers
  import opened Errors
  import opened Query
  import opened OrderModel
  import opened Catalog

  type Table = map<Id, Product>

  /** The authenticated user placing the order. */
  datatype User = User(id: Id, name: string, email: string)

  /** Where the loop leaves the product table, and the total or the error it ends with. */
  datatype Walk = Walk(products: Table, outcome: Result<int, Error>)

  /** The table after one accepted line: the product's stock less the quantity. */
  function Take(db: Table, id: Id, quantity: int): (r: Table)
    requires id in db
    ensures r.Keys == db.Keys
    ensures r[id] == db[id].(stock := db[id].stock - quantity)
    ensures forall p :: p in db && p != id ==> r[p] == db[p]
  {
    db[id := db[id].(stock := db[id].stock - quantity)]
  }

  /** The loop from the current line on, with the table and the total reached so far. */
  function Run(db: Table, lines: seq<OrderLine>, total: int): (w: Walk)
    ensures w.products.Keys == db.Keys
    decreases |lines|
  {
    if lines == [] then Walk(db, Ok(total))
    else
      var item := lines[0];
      if item.productId.None? || item.productId.value !in db then Walk(db, Err(ProductNotFound))
      else
        var id := item.productId.value;
        var product := db[id];
        if product.stock < item.quantity then Walk(db, Err(InsufficientStock(product.name)))
        else Run(Take(db, id, item.quantity), lines[1..], total + product.price * item.quantity)
  }

  /** The loop stops at a line whose product is missing, leaving the table as it is. */
  lemma RunMissing(db: Table, lines: seq<OrderLine>, t: int)
    requires lines != [] && (lines[0].productId.None? || lines[0].productId.value !in db)
    ensures Run(db, lines, t) == Walk(db, Err(ProductNotFound))
  {
  }

  /** The loop stops at a line asking for more than the stock, leaving the table as it is. */
  lemma RunShort(db: Table, lines: seq<OrderLine>, t: int)
    requires lines != [] && lines[0].productId.Some? && lines[0].productId.value in db
    requires db[lines[0].productId.value].stock < lines[0].quantity
    ensures Run(db, lines, t) == Walk(db, Err(InsufficientStock(db[lines[0].productId.value].name)))
  {
  }

  /** One turn of the loop on a line whose product exists and has the stock. */
  lemma RunTake(db: Table, lines: seq<OrderLine>, t: int)
    requires lines != [] && lines[0].productId.Some? && lines[0].productId.value in db
    requires db[lines[0].productId.value].stock >= lines[0].quantity
    ensures var id := lines[0].productId.value;
      Run(db, lines, t) == Run(Take(db, id, lines[0].quantity), lines[1..], t + db[id].price * lines[0].quantity)
  {
  }

  /** `b` is `a` with, at most, other stock counts. */
  predicate StockOnly(a: Table, b: Table) {
    && a.Keys == b.Keys
    && forall p :: p in a ==> b[p] == a[p].(stock := b[p].stock)
  }

  lemma StockOnlyTrans(a: Table, b: Table, c: Table)
    requires StockOnly(a, b) && StockOnly(b, c)
    ensures StockOnly(a, c)
  {
    forall p | p in a ensures c[p] == a[p].(stock := c[p].stock) {
      assert b[p] == a[p].(stock := b[p].stock);
    }
  }

  lemma TakeStockOnly(db: Table, id: Id, quantity: int)
    requires id in db
    ensures StockOnly(db, Take(db, id, quantity))
  {
  }

  /** The loop changes stock counts only: nothing else of any product is altered. */
  lemma {:induction false} RunStockOnly(db: Table, lines: seq<OrderLine>, t: int)
    ensures StockOnly(db, Run(db, lines, t).products)
    decreases |lines|
  {
    if lines == [] {
    } else if lines[0].productId.None? || lines[0].productId.value !in db {
      RunMissing(db, lines, t);
    } else if db[lines[0].productId.value].stock < lines[0].quantity {
      RunShort(db, lines, t);
    } else {
      var id := lines[0].productId.value;
      var next := Take(db, id, lines[0].quantity);
      var t' := t + db[id].price * lines[0].quantity;
      var after := Run(next, lines[1..], t').products;
      assert Run(db, lines, t).products == after by { RunTake(db, lines, t); }
      assert StockOnly(db, after) by {
        RunStockOnly(next, lines[1..], t');
        TakeStockOnly(db, id, lines[0].quantity);
        StockOnlyTrans(db, next, after);
      }
    }
  }

  /** What `placeOrder` answers: the loop's error, or the result of `Order.create` after it. */
  function Outcome(db: Table, user: User, lines: seq<OrderLine>): (r: Result<Order, Error>)
    ensures Run(db, lines, 0).outcome.Err? ==> r == Err(Run(db, lines, 0).outcome.error)
    ensures Run(db, lines, 0).outcome.Ok? && r.Err? ==> r.error == ValidationFailed
    ensures r.Ok? ==>
      && Run(db, lines, 0).outcome == Ok(r.value.totalPrice)
      && r.value == Order(user.id, user.name, user.email, lines, "Pending", r.value.totalPrice)
      && ValidOrder(r.value)
  {
    match Run(db, lines, 0).outcome
    case Err(e) => Err(e)
    case Ok(total) => CreateOrder(user.id, user.name, user.email, lines, total)
  }

  // ---------------------------------------------------------------------------------------
  // A closed form of the loop, line by line against the table it started from.

  /** The sum of the quantities of the lines that name product `id`. */
  function QtyOf(lines: seq<OrderLine>, id: Id): int {
    if lines == [] then 0
    else (if lines[0].productId == Some(id) then lines[0].quantity else 0) + QtyOf(lines[1..], id)
  }

  /**
    Line `k` passes its checks: its product exists and, after the quantities of the earlier
    lines naming the same product, still has at least the requested quantity.
   */
  predicate LineOk(db: Table, lines: seq<OrderLine>, k: nat)
    requires k < |lines|
  {
    var l := lines[k];
    && l.productId.Some?
    && l.productId.value in db
    && QtyOf(lines[..k], l.productId.value) + l.quantity <= db[l.productId.value].stock
  }

  /** The table with every product's stock decreased by the quantities `lines` ask of it. */
  function Decremented(db: Table, lines: seq<OrderLine>): Table {
    map id | id in db :: db[id].(stock := db[id].stock - QtyOf(lines, id))
  }

  /** The sum over the lines of `price * quantity`, with the prices of `db`. */
  function LinesTotal(db: Table, lines: seq<OrderLine>): int {
    if lines == [] then 0
    else
      var l := lines[0];
      (if l.productId.Some? && l.productId.value in db then db[l.productId.value].price * l.quantity else 0)
      + LinesTotal(db, lines[1..])
  }

  /** The error reported for a line that fails its checks. */
  function LineError(db: Table, l: OrderLine): Error {
    if l.productId.None? || l.productId.value !in db then ProductNotFound
    else InsufficientStock(db[l.productId.value].name)
  }

  /** The number of lines the loop accepts before it stops (all of them when none fails). */
  function Accepted(db: Table, lines: seq<OrderLine>): (n: nat)
    ensures n <= |lines|
    ensures forall j :: 0 <= j < n ==> LineOk(db, lines, j)
    ensures n < |lines| ==> !LineOk(db, lines, n)
  {
    AcceptedFrom(db, lines, 0)
  }

  function AcceptedFrom(db: Table, lines: seq<OrderLine>, i: nat): (n: nat)
    requires i <= |lines|
    requires forall j :: 0 <= j < i ==> LineOk(db, lines, j)
    ensures i <= n <= |lines|
    ensures forall j :: 0 <= j < n ==> LineOk(db, lines, j)
    ensures n < |lines| ==> !LineOk(db, lines, n)
    decreases |lines| - i
  {
    if i == |lines| || !LineOk(db, lines, i) then i else AcceptedFrom(db, lines, i + 1)
  }

  // ---------------------------------------------------------------------------------------
  // Helper facts for shifting the closed form by one line.

  /** Two tables that agree on everything but stock. */
  predicate SameCatalog(a: Table, b: Table) {
    && a.Keys == b.Keys
    && forall id :: id in a ==> a[id].price == b[id].price && a[id].name == b[id].name
  }

  lemma {:induction false} LinesTotalFrame(a: Table, b: Table, lines: seq<OrderLine>)
    requires SameCatalog(a, b)
    ensures LinesTotal(a, lines) == LinesTotal(b, lines)
  {
    if lines != [] {
      LinesTotalFrame(a, b, lines[1..]);
    }
  }

  lemma QtyOfCons(l: OrderLine, rest: seq<OrderLine>, id: Id)
    ensures QtyOf([l] + rest, id) == (if l.productId == Some(id) then l.quantity else 0) + QtyOf(rest, id)
  {
    assert ([l] + rest)[1..] == rest;
  }

  lemma DecrementedCons(db: Table, l: OrderLine, rest: seq<OrderLine>)
    requires l.productId.Some? && l.productId.value in db
    ensures Decremented(Take(db, l.productId.value, l.quantity), rest) == Decremented(db, [l] + rest)
  {
    var db1 := Take(db, l.productId.value, l.quantity);
    forall id | id in db ensures Decremented(db1, rest)[id] == Decremented(db, [l] + rest)[id] {
      QtyOfCons(l, rest, id);
    }
  }

  /** After an accepted first line, line `k + 1` of the request is line `k` of the rest. */
  lemma ShiftLineOk(db: Table, lines: seq<OrderLine>, k: nat)
    requires k + 1 < |lines|
    requires lines[0].productId.Some? && lines[0].productId.value in db
    ensures LineOk(Take(db, lines[0].productId.value, lines[0].quantity), lines[1..], k)
        <==> LineOk(db, lines, k + 1)
  {
    assert lines[..k + 1] == [lines[0]] + lines[1..][..k];
    assert lines[1..][k] == lines[k + 1];
    var l := lines[k + 1];
    if l.productId.Some? {
      QtyOfCons(lines[0], lines[1..][..k], l.productId.value);
    }
  }

  lemma DecrementedEmpty(db: Table)
    ensures Decremented(db, []) == db
  {
  }

  // ---------------------------------------------------------------------------------------
  // What the loop amounts to.

  /** One accepted line: the loop goes on with the product taken and the total increased. */
  lemma RunStep(db: Table, lines: seq<OrderLine>, t: int)
    requires lines != [] && LineOk(db, lines, 0)
    ensures var l := lines[0]; var id := l.productId.value;
      Run(db, lines, t) == Run(Take(db, id, l.quantity), lines[1..], t + db[id].price * l.quantity)
  {
    assert lines[..0] == [];
  }

  lemma TotalStep(db: Table, lines: seq<OrderLine>)
    requires lines != [] && lines[0].productId.Some? && lines[0].productId.value in db
    ensures LinesTotal(Take(db, lines[0].productId.value, lines[0].quantity), lines[1..]) + db[lines[0].productId.value].price * lines[0].quantity
         == LinesTotal(db, lines)
  {
    LinesTotalFrame(Take(db, lines[0].productId.value, lines[0].quantity), db, lines[1..]);
  }

  lemma ShiftAllOk(db: Table, lines: seq<OrderLine>, k: nat)
    requires k < |lines| && LineOk(db, lines, 0)
    requires forall j :: 0 <= j <= k ==> LineOk(db, lines, j)
    ensures forall j :: 0 <= j < k ==> LineOk(Take(db, lines[0].productId.value, lines[0].quantity), lines[1..], j)
  {
    forall j | 0 <= j < k ensures LineOk(Take(db, lines[0].productId.value, lines[0].quantity), lines[1..], j) {
      ShiftLineOk(db, lines, j);
    }
  }

  /**
    When every line passes its checks, the loop leaves each product's stock decreased by the
    sum of the quantities asked of it (once per line, repeated products included) and ends
    with the total `price * quantity` over the lines at the prices the table started with.
   */
  lemma {:induction false} RunAllAccepted(db: Table, lines: seq<OrderLine>, t: int)
    requires forall k :: 0 <= k < |lines| ==> LineOk(db, lines, k)
    ensures Run(db, lines, t) == Walk(Decremented(db, lines), Ok(t + LinesTotal(db, lines)))
    decreases |lines|, 1
  {
    if lines == [] {
      DecrementedEmpty(db);
    } else {
      RunAllAcceptedStep(db, lines, t);
    }
  }

  lemma {:induction false} RunAllAcceptedStep(db: Table, lines: seq<OrderLine>, t: int)
    requires lines != []
    requires forall k :: 0 <= k < |lines| ==> LineOk(db, lines, k)
    ensures Run(db, lines, t) == Walk(Decremented(db, lines), Ok(t + LinesTotal(db, lines)))
    decreases |lines|, 0
  {
    var l := lines[0];
    assert LineOk(db, lines, 0);
    var id := l.productId.value;
    var db1 := Take(db, id, l.quantity);
    var t1 := t + db[id].price * l.quantity;
    assert Run(db, lines, t) == Run(db1, lines[1..], t1) by { RunStep(db, lines, t); }
    assert Run(db1, lines[1..], t1) == Walk(Decremented(db1, lines[1..]), Ok(t1 + LinesTotal(db1, lines[1..]))) by {
      ShiftAllOk(db, lines, |lines| - 1);
      RunAllAccepted(db1, lines[1..], t1);
    }
    assert Decremented(db1, lines[1..]) == Decremented(db, lines) by {
      DecrementedCons(db, l, lines[1..]);
      assert [l] + lines[1..] == lines;
    }
    assert t1 + LinesTotal(db1, lines[1..]) == t + LinesTotal(db, lines) by { TotalStep(db, lines); }
  }

  /**
    When line `k` is the first to fail, the loop stops there with that line's error, and the
    decrements of lines `0 .. k-1` stay in the table: nothing is rolled back.
   */
  lemma {:induction false} RunFirstFailure(db: Table, lines: seq<OrderLine>, t: int, k: nat)
    requires k < |lines|
    requires forall j :: 0 <= j < k ==> LineOk(db, lines, j)
    requires !LineOk(db, lines, k)
    ensures Run(db, lines, t) == Walk(Decremented(db, lines[..k]), Err(LineError(db, lines[k])))
    decreases |lines|, 1
  {
    if k == 0 {
      RunFailsHere(db, lines, t);
    } else {
      RunFirstFailureStep(db, lines, t, k);
    }
  }

  lemma RunFailsHere(db: Table, lines: seq<OrderLine>, t: int)
    requires lines != [] && !LineOk(db, lines, 0)
    ensures Run(db, lines, t) == Walk(Decremented(db, lines[..0]), Err(LineError(db, lines[0])))
  {
    assert lines[..0] == [];
    DecrementedEmpty(db);
    if lines[0].productId.None? || lines[0].productId.value !in db {
      RunMissing(db, lines, t);
    } else {
      RunShort(db, lines, t);
    }
  }

  lemma {:induction false} RunFirstFailureStep(db: Table, lines: seq<OrderLine>, t: int, k: nat)
    requires 0 < k < |lines|
    requires forall j :: 0 <= j < k ==> LineOk(db, lines, j)
    requires !LineOk(db, lines, k)
    ensures Run(db, lines, t) == Walk(Decremented(db, lines[..k]), Err(LineError(db, lines[k])))
    decreases |lines|, 0
  {
    var l := lines[0];
    assert LineOk(db, lines, 0);
    var id := l.productId.value;
    var db1 := Take(db, id, l.quantity);
    var t1 := t + db[id].price * l.quantity;
    var rest := lines[1..];
    assert Run(db, lines, t) == Run(db1, rest, t1) by { RunStep(db, lines, t); }
    assert Run(db1, rest, t1) == Walk(Decremented(db1, rest[..k - 1]), Err(LineError(db1, rest[k - 1]))) by {
      ShiftAllOk(db, lines, k - 1);
      ShiftLineOk(db, lines, k - 1);
      RunFirstFailure(db1, rest, t1, k - 1);
    }
    assert Decremented(db1, rest[..k - 1]) == Decremented(db, lines[..k]) by {
      DecrementedCons(db, l, rest[..k - 1]);
      assert lines[..k] == [l] + rest[..k - 1];
    }
    assert LineError(db1, rest[k - 1]) == LineError(db, lines[k]) by {
      assert rest[k - 1] == lines[k];
    }
  }

  /**
    The whole loop in closed form: with `n` the number of lines accepted before the first
    failing one, the table ends with the decrements of exactly those `n` lines, and the loop
    ends with the total of all lines or with the error of line `n`.
   */
  lemma RunClosedForm(db: Table, lines: seq<OrderLine>)
    ensures var n := Accepted(db, lines);
      Run(db, lines, 0) == Walk(Decremented(db, lines[..n]),
        if n == |lines| then Ok(LinesTotal(db, lines)) else Err(LineError(db, lines[n])))
  {
    var n := Accepted(db, lines);
    if n == |lines| {
      RunAllAccepted(db, lines, 0);
      assert lines[..n] == lines;
    } else {
      RunFirstFailure(db, lines, 0, n);
    }
  }

  /**
    `placeOrder` creates an order exactly when every line passes its checks and the order
    document then passes validation; the order copies the user and the request's lines,
    has status "Pending" and the total of the lines at the table's prices.
   */
  lemma OutcomeOk(db: Table, user: User, lines: seq<OrderLine>)
    ensures Outcome(db, user, lines).Ok? <==>
      && (forall k :: 0 <= k < |lines| ==> LineOk(db, lines, k))
      && user.name != "" && user.email != ""
      && (forall i :: 0 <= i < |lines| ==> lines[i].quantity >= 1)
      && LinesTotal(db, lines) >= 0
    ensures Outcome(db, user, lines).Ok? ==>
      Outcome(db, user, lines).value
        == Order(user.id, user.name, user.email, lines, "Pending", LinesTotal(db, lines))
  {
    if forall k :: 0 <= k < |lines| ==> LineOk(db, lines, k) {
      OutcomeAllAccepted(db, user, lines);
    } else {
      var k :| 0 <= k < |lines| && !LineOk(db, lines, k);
      OutcomeLineFails(db, user, lines, k);
    }
  }

  lemma OutcomeAllAccepted(db: Table, user: User, lines: seq<OrderLine>)
    requires forall k :: 0 <= k < |lines| ==> LineOk(db, lines, k)
    ensures Outcome(db, user, lines) == CreateOrder(user.id, user.name, user.email, lines, LinesTotal(db, lines))
    ensures forall i :: 0 <= i < |lines| ==> lines[i].productId.Some?
  {
    RunAllAccepted(db, lines, 0);
    forall i | 0 <= i < |lines| ensures lines[i].productId.Some? {
      assert LineOk(db, lines, i);
    }
  }

  lemma OutcomeLineFails(db: Table, user: User, lines: seq<OrderLine>, k: nat)
    requires k < |lines| && !LineOk(db, lines, k)
    ensures Outcome(db, user, lines).Err?
  {
    var n := Accepted(db, lines);
    assert n < |lines|;
    RunFirstFailure(db, lines, 0, n);
  }

  /**
    The quantity rule of the order schema is only checked by `Order.create`, after the loop:
    a request whose lines all pass the stock checks but one of which asks for less than one
    item is refused, while the stock decrements of all its lines remain.
   */
  lemma ValidationAfterDecrement(db: Table, user: User, lines: seq<OrderLine>, i: nat)
    requires forall k :: 0 <= k < |lines| ==> LineOk(db, lines, k)
    requires i < |lines| && lines[i].quantity < 1
    ensures Outcome(db, user, lines) == Err(ValidationFailed)
    ensures Run(db, lines, 0).products == Decremented(db, lines)
  {
    RunAllAccepted(db, lines, 0);
  }

  /**
    The loop never takes a stock below zero: a line is accepted only when its quantity is at
    most the stock, so a stock that starts non-negative stays so, and one that starts negative
    does not go lower.
   */
  lemma {:induction false} StockFloor(db: Table, lines: seq<OrderLine>, t: int)
    ensures forall id :: id in db ==> Run(db, lines, t).products[id].stock >= Min(db[id].stock, 0)
    decreases |lines|
  {
    if lines == [] {
    } else if lines[0].productId.None? || lines[0].productId.value !in db {
      RunMissing(db, lines, t);
    } else if db[lines[0].productId.value].stock < lines[0].quantity {
      RunShort(db, lines, t);
    } else {
      var id := lines[0].productId.value;
      var next := Take(db, id, lines[0].quantity);
      var t' := t + db[id].price * lines[0].quantity;
      var after := Run(next, lines[1..], t').products;
      assert Run(db, lines, t).products == after by { RunTake(db, lines, t); }
      assert forall p :: p in db ==> after[p].stock >= Min(next[p].stock, 0) by {
        StockFloor(next, lines[1..], t');
      }
      assert forall p :: p in db ==> Min(next[p].stock, 0) >= Min(db[p].stock, 0);
    }
  }

  /** A product that no line names is left exactly as it was, whatever the outcome. */
  lemma {:induction false} UntouchedProduct(db: Table, lines: seq<OrderLine>, t: int, id: Id)
    requires id in db
    requires forall i :: 0 <= i < |lines| ==> lines[i].productId != Some(id)
    ensures Run(db, lines, t).products[id] == db[id]
  {
    if lines != [] {
      var item := lines[0];
      if item.productId.Some? && item.productId.value in db && db[item.productId.value].stock >= item.quantity {
        var p := item.productId.value;
        UntouchedProduct(Take(db, p, item.quantity), lines[1..], t + db[p].price * item.quantity, id);
      }
    }
  }

  // ---------------------------------------------------------------------------------------
  // Worked instances.

  const Widget: Product := Product("Widget", "", 4, "tools", 5, [], [])
  const Gadget: Product := Product("Gadget", "", 9, "tools", 0, [], [])

  /**
    Product 0 has stock 5 and product 1 stock 0. Ordering 2 of the first and 1 of the second
    fails with "Insufficient stock for product Gadget", and product 0 is left at 3.
   */
  lemma NoRollbackExample()
    ensures var w := Run(map[0 := Widget, 1 := Gadget], [OrderLine(Some(0), 2), OrderLine(Some(1), 1)], 0);
      && w.outcome == Err(InsufficientStock("Gadget"))
      && w.products[0].stock == 3 && w.products[1].stock == 0
  {
    var db := map[0 := Widget, 1 := Gadget];
    var lines := [OrderLine(Some(0), 2), OrderLine(Some(1), 1)];
    assert LineOk(db, lines, 0) by { assert lines[..0] == []; }
    assert lines[..1] == [lines[0]];
    assert QtyOf(lines[..1], 0) == 2 && QtyOf(lines[..1], 1) == 0 by {
      assert lines[..1][1..] == [];
    }
    assert !LineOk(db, lines, 1);
    RunFirstFailure(db, lines, 0, 1);
  }

  /**
    Two lines of 3 against a stock of 5: the second line sees the stock the first one left
    (2) and fails, and the first line's decrement stays.
   */
  lemma RepeatedProductExample()
    ensures var w := Run(map[0 := Widget], [OrderLine(Some(0), 3), OrderLine(Some(0), 3)], 0);
      && w.outcome == Err(InsufficientStock("Widget"))
      && w.products[0].stock == 2
  {
    var db := map[0 := Widget];
    var lines := [OrderLine(Some(0), 3), OrderLine(Some(0), 3)];
    assert LineOk(db, lines, 0) by { assert lines[..0] == []; }
    assert lines[..1] == [lines[0]];
    assert QtyOf(lines[..1], 0) == 3 by {
      assert lines[..1][1..] == [];
    }
    assert !LineOk(db, lines, 1);
    RunFirstFailure(db, lines, 0, 1);
  }

  /** A line with quantity 0 after a line with quantity 1: no order, yet one item is gone. */
  lemma ZeroQuantityExample()
    ensures Outcome(map[0 := Widget], User(7, "Ann", "ann@example.com"),
                    [OrderLine(Some(0), 1), OrderLine(Some(0), 0)]) == Err(ValidationFailed)
    ensures Run(map[0 := Widget], [OrderLine(Some(0), 1), OrderLine(Some(0), 0)], 0).products[0].stock == 4
  {
    var db := map[0 := Widget];
    var lines := [OrderLine(Some(0), 1), OrderLine(Some(0), 0)];
    assert LineOk(db, lines, 0) by { assert lines[..0] == []; }
    assert lines[..1] == [lines[0]];
    assert QtyOf(lines[..1], 0) == 1 by {
      assert lines[..1][1..] == [];
    }
    assert LineOk(db, lines, 1);
    ValidationAfterDecrement(db, User(7, "Ann", "ann@example.com"), lines, 1);
    assert QtyOf(lines, 0) == 1 by {
      assert lines[1..] == [lines[1]];
    }
  }
}
