/** Order placement: a cart of (product, quantity) lines becomes an order
    inside one unit of work. Each line, in request order, must have a
    positive quantity and name a product whose current stock covers it; the
    stock is decremented and written back at once, so a later line for the
    same product sees the reduced stock; the line's unit price is captured
    and added to the running total. Only when every line passed is the order
    written. Any failure rolls the whole unit of work back.

    Place is the loop as a left fold over the lines; OrderService.Create is
    the loop itself, proved to compute Place and to leave the store exactly
    as it was whenever it fails. */
module OrderService {
  import opened Domain
  import opened Store
  import Models
  import Text

  datatype OrderItemInput = OrderItemInput(productId: Uuid, quantity: int)
  datatype CreateOrderInput = CreateOrderInput(description: string, items: seq<OrderItemInput>)

  /** Where the loop stands: the product rows, the staged items and the
      running total. */
  datatype Placement = Placement(products: map<Uuid, Product>, items: seq<OrderItem>, total: Money)

  const EMPTY_ORDER := Invalid(OrderEmpty)

  // ---------------------------------------------------------------------
  // The specification of the loop
  // ---------------------------------------------------------------------

  /** One iteration: check the quantity, read the product, check its stock,
      decrement it and stage the item at the product's current price. */
  function Step(products: map<Uuid, Product>, line: OrderItemInput, orderId: Uuid, itemId: Uuid, now: Time)
    : Result<(map<Uuid, Product>, OrderItem)>
  {
    if line.quantity <= 0 then Err(NonPositiveQuantity(line.productId))
    else if line.productId !in products then Err(ProductNotFound)
    else
      var p := products[line.productId];
      if p.stock < line.quantity then Err(InsufficientStock(p.name))
      else
        Ok((products[line.productId := p.(stock := p.stock - line.quantity, updatedAt := now)],
            OrderItem(itemId, p.id, orderId, line.quantity, p.price, now, now)))
  }

  /** The loop over the lines, in request order; the first failing line
      decides the error. Item k gets the (k+1)-th generated id, the order
      having taken the first. */
  function Place(products: map<Uuid, Product>, lines: seq<OrderItemInput>, orderId: Uuid, newId: nat -> Uuid, now: Time)
    : Result<Placement>
    decreases |lines|
  {
    if lines == [] then Ok(Placement(products, [], 0))
    else
      match Place(products, lines[..|lines| - 1], orderId, newId, now)
      case Err(e) => Err(e)
      case Ok(pl) =>
        match Step(pl.products, lines[|lines| - 1], orderId, newId(|lines|), now)
        case Err(e) => Err(e)
        case Ok(res) => Ok(Placement(res.0, pl.items + [res.1], pl.total + res.1.unitPrice * res.1.quantity))
  }

  /** The quantity the lines ask for the given product, summed. */
  function Demand(lines: seq<OrderItemInput>, id: Uuid): int {
    if lines == [] then 0
    else Demand(lines[..|lines| - 1], id) + (if lines[|lines| - 1].productId == id then lines[|lines| - 1].quantity else 0)
  }

  predicate Mentions(lines: seq<OrderItemInput>, id: Uuid) {
    lines != [] && (Mentions(lines[..|lines| - 1], id) || lines[|lines| - 1].productId == id)
  }

  /** A product no line names is asked for nothing. */
  lemma {:induction false} DemandUnmentioned(lines: seq<OrderItemInput>, id: Uuid)
    requires !Mentions(lines, id)
    ensures Demand(lines, id) == 0
  {
    if lines != [] {
      DemandUnmentioned(lines[..|lines| - 1], id);
    }
  }

  /** The sum of unit price times quantity over the items. */
  function ItemsTotal(items: seq<OrderItem>): Money {
    if items == [] then 0 else ItemsTotal(items[..|items| - 1]) + items[|items| - 1].unitPrice * items[|items| - 1].quantity
  }

  /** Every line has a positive quantity and names a stored product, and the
      whole cart asks no more of that product than its stock. */
  predicate Fits(P: map<Uuid, Product>, lines: seq<OrderItemInput>) {
    forall k :: 0 <= k < |lines| ==>
      && lines[k].quantity > 0
      && lines[k].productId in P
      && Demand(lines, lines[k].productId) <= P[lines[k].productId].stock
  }

  /** The placement succeeds exactly when the cart fits the stock. In
      particular two lines for one product fail together when their sum
      exceeds the stock, even if each alone would not. */
  lemma PlaceSucceedsIff(P: map<Uuid, Product>, lines: seq<OrderItemInput>, orderId: Uuid, newId: nat -> Uuid, now: Time)
    ensures Place(P, lines, orderId, newId, now).Ok? <==> Fits(P, lines)
  {
    if Place(P, lines, orderId, newId, now).Ok? {
      PlaceOkFits(P, lines, orderId, newId, now);
    }
    if Fits(P, lines) {
      FitsPlaceOk(P, lines, orderId, newId, now);
    }
  }

  lemma {:induction false} PlaceOkFits(P: map<Uuid, Product>, lines: seq<OrderItemInput>, orderId: Uuid, newId: nat -> Uuid, now: Time)
    requires Place(P, lines, orderId, newId, now).Ok?
    ensures Fits(P, lines)
  {
    if lines != [] {
      var n := |lines|;
      var pre, last := lines[..n - 1], lines[n - 1];
      PlaceOkFits(P, pre, orderId, newId, now);
      PlaceProducts(P, pre, orderId, newId, now);
      assert last.productId in P;
      PlaceStock(P, pre, orderId, newId, now, last.productId);
      assert Demand(lines, last.productId) <= P[last.productId].stock;
      forall k | 0 <= k < n - 1
        ensures lines[k].quantity > 0 && lines[k].productId in P && Demand(lines, lines[k].productId) <= P[lines[k].productId].stock
      {
        assert pre[k] == lines[k];
      }
    }
  }

  lemma {:induction false} FitsPlaceOk(P: map<Uuid, Product>, lines: seq<OrderItemInput>, orderId: Uuid, newId: nat -> Uuid, now: Time)
    requires Fits(P, lines)
    ensures Place(P, lines, orderId, newId, now).Ok?
  {
    if lines != [] {
      var n := |lines|;
      var pre, last := lines[..n - 1], lines[n - 1];
      assert last.quantity > 0 && last.productId in P;
      forall k | 0 <= k < n - 1
        ensures pre[k].quantity > 0 && pre[k].productId in P && Demand(pre, pre[k].productId) <= P[pre[k].productId].stock
      {
        assert lines[k] == pre[k];
      }
      FitsPlaceOk(P, pre, orderId, newId, now);
      PlaceStock(P, pre, orderId, newId, now, last.productId);
    }
  }

  /** After a successful placement a product's stock is its old stock less
      what the cart asked for it. */
  lemma PlaceStock(P: map<Uuid, Product>, lines: seq<OrderItemInput>, orderId: Uuid, newId: nat -> Uuid, now: Time, id: Uuid)
    requires Place(P, lines, orderId, newId, now).Ok? && id in P
    ensures var ps := Place(P, lines, orderId, newId, now).value.products;
      id in ps && ps[id].stock == P[id].stock - Demand(lines, id)
  {
    PlaceProducts(P, lines, orderId, newId, now);
    if !Mentions(lines, id) {
      DemandUnmentioned(lines, id);
    }
  }

  /** A product row after the cart: the quantity the cart asked for it
      taken off and stamped with the time, or untouched when no line names
      it. */
  function Restocked(P: map<Uuid, Product>, lines: seq<OrderItemInput>, id: Uuid, now: Time): Product
    requires id in P
  {
    if Mentions(lines, id) then P[id].(stock := P[id].stock - Demand(lines, id), updatedAt := now) else P[id]
  }

  /** One more line turns the rows after the earlier lines into the rows
      after all of them. */
  lemma RestockedStep(P: map<Uuid, Product>, lines: seq<OrderItemInput>, before: map<Uuid, Product>, after: map<Uuid, Product>,
                      now: Time, id: Uuid)
    requires lines != [] && id in P
    requires before.Keys == P.Keys
    requires forall i :: i in P ==> before[i] == Restocked(P, lines[..|lines| - 1], i, now)
    requires var last := lines[|lines| - 1];
      last.productId in before
      && after == before[last.productId := before[last.productId].(stock := before[last.productId].stock - last.quantity, updatedAt := now)]
    ensures id in after && after[id] == Restocked(P, lines, id, now)
  {
    var pre, last := lines[..|lines| - 1], lines[|lines| - 1];
    assert before[id] == Restocked(P, pre, id, now);
    if !Mentions(pre, id) { DemandUnmentioned(pre, id); }
  }

  /** After a successful placement every product of the cart has lost
      exactly the quantity the cart asked for it (and was stamped with the
      time), and every other product is as it was. */
  lemma {:induction false} PlaceProducts(P: map<Uuid, Product>, lines: seq<OrderItemInput>, orderId: Uuid, newId: nat -> Uuid, now: Time)
    requires Place(P, lines, orderId, newId, now).Ok?
    ensures var ps := Place(P, lines, orderId, newId, now).value.products;
      && ps.Keys == P.Keys
      && forall id :: id in P ==> ps[id] == Restocked(P, lines, id, now)
  {
    if lines != [] {
      var n := |lines|;
      var pre, last := lines[..n - 1], lines[n - 1];
      PlaceProducts(P, pre, orderId, newId, now);
      var pl := Place(P, pre, orderId, newId, now).value;
      var ps := Place(P, lines, orderId, newId, now).value.products;
      assert ps == pl.products[last.productId := pl.products[last.productId].(stock := pl.products[last.productId].stock - last.quantity, updatedAt := now)];
      forall id | id in P
        ensures ps[id] == Restocked(P, lines, id, now)
      {
        RestockedStep(P, lines, pl.products, ps, now, id);
      }
    }
  }

  /** The staged items match the lines one for one and in order; each
      carries the order id, its own generated id and the price its product
      had when the line was read. */
  lemma {:induction false} PlaceItems(P: map<Uuid, Product>, lines: seq<OrderItemInput>, orderId: Uuid, newId: nat -> Uuid, now: Time)
    requires Place(P, lines, orderId, newId, now).Ok?
    requires forall id :: id in P ==> P[id].id == id
    ensures var items := Place(P, lines, orderId, newId, now).value.items;
      && |items| == |lines|
      && forall k :: 0 <= k < |lines| ==>
           && lines[k].productId in P
           && items[k] == OrderItem(newId(k + 1), lines[k].productId, orderId, lines[k].quantity,
                                    P[lines[k].productId].price, now, now)
  {
    if lines != [] {
      var n := |lines|;
      var pre, last := lines[..n - 1], lines[n - 1];
      PlaceItems(P, pre, orderId, newId, now);
      PlaceProducts(P, pre, orderId, newId, now);
      var pl := Place(P, pre, orderId, newId, now).value;
      var items := Place(P, lines, orderId, newId, now).value.items;
      assert last.productId in pl.products;
      assert items == pl.items + [OrderItem(newId(n), last.productId, orderId, last.quantity, P[last.productId].price, now, now)];
      forall k | 0 <= k < n
        ensures lines[k].productId in P
        ensures items[k] == OrderItem(newId(k + 1), lines[k].productId, orderId, lines[k].quantity, P[lines[k].productId].price, now, now)
      {
        if k < n - 1 { assert lines[k] == pre[k]; }
      }
    }
  }

  /** Every staged item points at the order being placed. */
  lemma {:induction false} PlaceItemsOrderId(P: map<Uuid, Product>, lines: seq<OrderItemInput>, orderId: Uuid, newId: nat -> Uuid, now: Time)
    requires Place(P, lines, orderId, newId, now).Ok?
    ensures var items := Place(P, lines, orderId, newId, now).value.items;
      forall k :: 0 <= k < |items| ==> items[k].orderId == orderId
  {
    if lines != [] {
      PlaceItemsOrderId(P, lines[..|lines| - 1], orderId, newId, now);
    }
  }

  /** The running total is the sum of unit price times quantity over the
      staged items. */
  lemma {:induction false} PlaceTotal(P: map<Uuid, Product>, lines: seq<OrderItemInput>, orderId: Uuid, newId: nat -> Uuid, now: Time)
    requires Place(P, lines, orderId, newId, now).Ok?
    ensures var pl := Place(P, lines, orderId, newId, now).value; pl.total == ItemsTotal(pl.items)
  {
    if lines != [] {
      var n := |lines|;
      PlaceTotal(P, lines[..n - 1], orderId, newId, now);
      var items := Place(P, lines, orderId, newId, now).value.items;
      assert items[..|items| - 1] == Place(P, lines[..n - 1], orderId, newId, now).value.items;
    }
  }

  /** Placing one more line of the cart is one more Step. */
  lemma PlaceExtend(P: map<Uuid, Product>, lines: seq<OrderItemInput>, i: nat, orderId: Uuid, newId: nat -> Uuid, now: Time)
    requires i < |lines| && Place(P, lines[..i], orderId, newId, now).Ok?
    ensures var pl := Place(P, lines[..i], orderId, newId, now).value;
      Place(P, lines[..i + 1], orderId, newId, now) ==
        match Step(pl.products, lines[i], orderId, newId(i + 1), now)
        case Err(e) => Err(e)
        case Ok(res) => Ok(Placement(res.0, pl.items + [res.1], pl.total + res.1.unitPrice * res.1.quantity))
  {
    assert lines[..i + 1][..i] == lines[..i];
    assert lines[..i + 1][i] == lines[i];
  }

  /** A failure anywhere in a prefix of the cart is the failure of the whole
      cart: no later line is looked at. */
  lemma {:induction false} PlacePrefixFailure(P: map<Uuid, Product>, lines: seq<OrderItemInput>, i: nat, orderId: Uuid, newId: nat -> Uuid, now: Time)
    requires i <= |lines|
    requires Place(P, lines[..i], orderId, newId, now).Err?
    ensures Place(P, lines, orderId, newId, now) == Place(P, lines[..i], orderId, newId, now)
    decreases |lines| - i
  {
    if i < |lines| {
      var longer := lines[..i + 1];
      assert longer[..i] == lines[..i];
      PlacePrefixFailure(P, lines, i + 1, orderId, newId, now);
    } else {
      assert lines[..i] == lines;
    }
  }

  /** A failed placement fails for one of three reasons: a non-positive
      quantity, a missing product, or stock that does not cover the line. */
  lemma {:induction false} PlaceErrors(P: map<Uuid, Product>, lines: seq<OrderItemInput>, orderId: Uuid, newId: nat -> Uuid, now: Time)
    requires Place(P, lines, orderId, newId, now).Err?
    ensures var e := Place(P, lines, orderId, newId, now).error;
      e.NonPositiveQuantity? || e == ProductNotFound || e.InsufficientStock?
  {
    var n := |lines|;
    if Place(P, lines[..n - 1], orderId, newId, now).Err? {
      PlaceErrors(P, lines[..n - 1], orderId, newId, now);
    }
  }

  // ---------------------------------------------------------------------
  // The whole of Create, on values
  // ---------------------------------------------------------------------

  /** The order written on success. */
  function NewOrder(userId: Uuid, input: CreateOrderInput, now: Time, newId: nat -> Uuid, pl: Placement): Order {
    Order(newId(0), userId, Text.TrimSpace(input.description), pl.total, ORDER_STATUS_PENDING, pl.items, now, now)
  }

  /** The work Create runs in its unit of work: the placement, then the
      order insert, which the store refuses when a key is taken. On success
      the new order and the new tables. */
  function OrderWork(t: Tables, userId: Uuid, input: CreateOrderInput, now: Time, newId: nat -> Uuid): Result<(Order, Tables)> {
    match Place(t.products, input.items, newId(0), newId, now)
    case Err(e) => Err(e)
    case Ok(pl) =>
      var o := NewOrder(userId, input, now, newId, pl);
      if !OrderKeysFree(t.orders, o) then Err(DuplicateKey("orders"))
      else Ok((o, t.(products := pl.products, orders := t.orders + [o])))
  }

  /** What Create returns and leaves in the tables: the empty cart fails
      before any work; a failed work leaves the tables as they were. */
  function PlaceOrder(t: Tables, userId: Uuid, input: CreateOrderInput, now: Time, newId: nat -> Uuid): (Result<Order>, Tables) {
    if input.items == [] then (Err(EMPTY_ORDER), t)
    else
      match OrderWork(t, userId, input, now, newId)
      case Err(e) => (Err(e), t)
      case Ok(res) => (Ok(res.0), res.1)
  }

  /** A successful placement never drives a stock below zero: every
      product of the cart keeps a non-negative stock, and so does every
      product that had one. */
  lemma PlaceStockNonNegative(P: map<Uuid, Product>, lines: seq<OrderItemInput>, orderId: Uuid, newId: nat -> Uuid, now: Time)
    requires Place(P, lines, orderId, newId, now).Ok?
    ensures var ps := Place(P, lines, orderId, newId, now).value.products;
      && (forall id :: id in P && Mentions(lines, id) ==> id in ps && ps[id].stock >= 0)
      && (forall id :: id in P && P[id].stock >= 0 ==> id in ps && ps[id].stock >= 0)
  {
    PlaceProducts(P, lines, orderId, newId, now);
    PlaceOkFits(P, lines, orderId, newId, now);
    forall id | id in P && Mentions(lines, id)
      ensures Demand(lines, id) <= P[id].stock
    {
      var k := MentionedAt(lines, id);
      assert lines[k].productId == id;
    }
  }

  /** A successful Create returns a pending order of the caller, with the
      trimmed description, whose items are the cart's lines in order at the
      prices read, and whose total is the sum of price times quantity. */
  lemma PlaceOrderOrder(t: Tables, userId: Uuid, input: CreateOrderInput, now: Time, newId: nat -> Uuid)
    requires TablesValid(t)
    requires PlaceOrder(t, userId, input, now, newId).0.Ok?
    ensures var o := PlaceOrder(t, userId, input, now, newId).0.value;
      && o.id == newId(0) && o.userId == userId && o.status == ORDER_STATUS_PENDING
      && o.description == Text.TrimSpace(input.description)
      && o.totalPrice == ItemsTotal(o.items)
      && |o.items| == |input.items|
      && (forall k :: 0 <= k < |input.items| ==>
            && input.items[k].productId in t.products
            && o.items[k] == OrderItem(newId(k + 1), input.items[k].productId, o.id, input.items[k].quantity,
                                       t.products[input.items[k].productId].price, now, now))
  {
    PlaceItems(t.products, input.items, newId(0), newId, now);
    PlaceTotal(t.products, input.items, newId(0), newId, now);
  }

  /** A successful Create appends its order to the orders; each product of
      the cart loses exactly the quantity asked for it, every other product,
      image and user is untouched, and no stock becomes negative. */
  lemma PlaceOrderTables(t: Tables, userId: Uuid, input: CreateOrderInput, now: Time, newId: nat -> Uuid)
    requires PlaceOrder(t, userId, input, now, newId).0.Ok?
    ensures var (r, t') := PlaceOrder(t, userId, input, now, newId);
      && t'.orders == t.orders + [r.value] && t'.images == t.images && t'.users == t.users
      && t'.products.Keys == t.products.Keys
      && (forall id :: id in t.products ==>
            t'.products[id] == if Mentions(input.items, id)
              then t.products[id].(stock := t.products[id].stock - Demand(input.items, id), updatedAt := now)
              else t.products[id])
      && (forall id :: id in t.products && t.products[id].stock >= 0 ==> t'.products[id].stock >= 0)
  {
    PlaceProducts(t.products, input.items, newId(0), newId, now);
    PlaceStockNonNegative(t.products, input.items, newId(0), newId, now);
  }

  /** A product the cart mentions is named by one of its lines. */
  lemma {:induction false} MentionedAt(lines: seq<OrderItemInput>, id: Uuid) returns (k: nat)
    requires Mentions(lines, id)
    ensures k < |lines| && lines[k].productId == id
  {
    var n := |lines|;
    if lines[n - 1].productId == id {
      k := n - 1;
    } else {
      k := MentionedAt(lines[..n - 1], id);
    }
  }

  // ---------------------------------------------------------------------
  // Scenarios
  // ---------------------------------------------------------------------

  /** Stock 5, one line of 3: the order goes through, stock 2 remains and
      the total is three times the price. */
  lemma PlaceScenarioEnoughStock(P: map<Uuid, Product>, id: Uuid, newId: nat -> Uuid, now: Time)
    requires id in P && P[id].stock == 5
    ensures var r := Place(P, [OrderItemInput(id, 3)], newId(0), newId, now);
      r.Ok? && r.value.products[id].stock == 2 && r.value.total == 3 * P[id].price
  {
    var lines := [OrderItemInput(id, 3)];
    assert lines[..0] == [];
  }

  /** Stock 2, one line of 3: insufficient stock, naming the product. */
  lemma PlaceScenarioShortStock(P: map<Uuid, Product>, id: Uuid, newId: nat -> Uuid, now: Time)
    requires id in P && P[id].stock == 2
    ensures Place(P, [OrderItemInput(id, 3)], newId(0), newId, now) == Err(InsufficientStock(P[id].name))
  {
    var lines := [OrderItemInput(id, 3)];
    assert lines[..0] == [];
  }

  /** Two lines for one product whose sum exceeds its stock fail on the
      second line, although the first alone fits. */
  lemma PlaceScenarioDoubleLine(P: map<Uuid, Product>, id: Uuid, q1: int, q2: int, newId: nat -> Uuid, now: Time)
    requires id in P && 0 < q1 <= P[id].stock && 0 < q2 && P[id].stock < q1 + q2
    ensures Place(P, [OrderItemInput(id, q1)], newId(0), newId, now).Ok?
    ensures Place(P, [OrderItemInput(id, q1), OrderItemInput(id, q2)], newId(0), newId, now) == Err(InsufficientStock(P[id].name))
  {
    var lines := [OrderItemInput(id, q1), OrderItemInput(id, q2)];
    assert lines[..1] == [OrderItemInput(id, q1)];
    assert lines[..1][..0] == [];
  }

  // ---------------------------------------------------------------------
  // The service
  // ---------------------------------------------------------------------

  class OrderService {
    const db: Db

    constructor (db: Db)
      ensures this.db == db
    {
      this.db := db;
    }

    /** service.Create. An empty cart fails before any unit of work opens;
        otherwise the result and the new tables are those of PlaceOrder, and
        on any failure the tables are exactly as before the call. */
    method Create(userId: Uuid, input: CreateOrderInput, now: Time, newId: nat -> Uuid) returns (r: Result<Order>)
      requires db.Valid() && db.snapshot == None
      modifies db
      ensures db.Valid() && db.snapshot == None
      ensures input.items == [] ==> db.transactions == old(db.transactions)
      ensures input.items != [] ==> db.transactions == old(db.transactions) + 1
      ensures (r, db.State()) == PlaceOrder(old(db.State()), userId, input, now, newId)
      ensures r.Err? ==> db.State() == old(db.State())
    {
      if |input.items| == 0 {
        return Err(EMPTY_ORDER);
      }
      db.Begin();
      ghost var t0 := db.State();
      assert t0 == old(db.State());
      ghost var spec;
      r, spec := Work(userId, input, now, newId, t0);
      if r.Err? {
        db.Rollback();
      } else {
        db.Commit();
      }
    }

    method Work(userId: Uuid, input: CreateOrderInput, now: Time, newId: nat -> Uuid, ghost t0: Tables) returns (r: Result<Order>, ghost spec: (Result<Order>, Tables))
      requires db.Valid() && db.State() == t0 && input.items != []
      modifies db`products, db`orders
      ensures db.Valid()
      ensures spec == PlaceOrder(t0, userId, input, now, newId)
      ensures r == spec.0
      ensures r.Ok? ==> db.State() == spec.1
      ensures r.Err? ==> spec.1 == t0
    {
      ghost var w := OrderWork(t0, userId, input, now, newId);
      spec := PlaceOrder(t0, userId, input, now, newId);
      assert spec == if w.Err? then (Err(w.error), t0) else (Ok(w.value.0), w.value.1);
      var orderId := newId(0);
      var placed := StageLines(input.items, orderId, newId, now);
      if placed.Err? {
        assert w == Err(placed.error);
        return Err(placed.error), spec;
      }
      var order := Order(orderId, userId, Text.TrimSpace(input.description), placed.value.total,
                         ORDER_STATUS_PENDING, placed.value.items, now, now);
      assert order == NewOrder(userId, input, now, newId, placed.value);
      PlaceItemsOrderId(t0.products, input.items, orderId, newId, now);
      var created := db.CreateOrder(order);
      if created.Fail? {
        assert w == Err(created.error);
        return Err(created.error), spec;
      }
      assert Models.WithOrderId(order.items, order.id) == order.items;
      ghost var t1 := t0.(products := placed.value.products, orders := t0.orders + [order]);
      assert db.orders == t0.orders + [order];
      assert db.State() == t1;
      assert w == Ok((order, t1));
      r := Ok(order);
    }

    /** The loop of Create over the cart's lines: it stops at the first
        failing line, and otherwise leaves the decremented products in the
        store and returns the staged items and their total. */
    method StageLines(lines: seq<OrderItemInput>, orderId: Uuid, newId: nat -> Uuid, now: Time) returns (r: Result<Placement>)
      requires db.Valid()
      modifies db`products
      ensures db.Valid()
      ensures r == Place(old(db.products), lines, orderId, newId, now)
      ensures r.Ok? ==> db.products == r.value.products
    {
      ghost var P0 := db.products;
      var failure: Option<Error> := None;
      var total: Money := 0;
      var items: seq<OrderItem> := [];
      var i := 0;
      while i < |lines| && failure.None?
        invariant 0 <= i <= |lines|
        invariant db.Valid()
        invariant failure.None? ==> Place(P0, lines[..i], orderId, newId, now) == Ok(Placement(db.products, items, total))
        invariant failure.Some? ==> Place(P0, lines, orderId, newId, now) == Err(failure.value)
      {
        PlaceExtend(P0, lines, i, orderId, newId, now);
        var staged := StageLine(lines[i], orderId, newId(i + 1), now);
        if staged.Err? {
          failure := Some(staged.error);
          assert Place(P0, lines[..i + 1], orderId, newId, now) == Err(staged.error);
          PlacePrefixFailure(P0, lines, i + 1, orderId, newId, now);
        } else {
          var item := staged.value;
          total := total + item.unitPrice * item.quantity;
          items := items + [item];
          assert Place(P0, lines[..i + 1], orderId, newId, now) == Ok(Placement(db.products, items, total));
        }
        i := i + 1;
      }
      if failure.Some? {
        return Err(failure.value);
      }
      assert lines[..i] == lines;
      r := Ok(Placement(db.products, items, total));
    }

    /** One pass of the loop of Create: check the quantity, read the
        product, check its stock and write the decremented row back. The
        staged item is returned; nothing is written on failure. */
    method StageLine(line: OrderItemInput, orderId: Uuid, itemId: Uuid, now: Time) returns (r: Result<OrderItem>)
      requires db.Valid()
      modifies db`products
      ensures db.Valid()
      ensures r.Err? ==> Step(old(db.products), line, orderId, itemId, now) == Err(r.error) && db.products == old(db.products)
      ensures r.Ok? ==> Step(old(db.products), line, orderId, itemId, now) == Ok((db.products, r.value))
    {
      if line.quantity <= 0 {
        return Err(NonPositiveQuantity(line.productId));
      }
      var read := db.GetProduct(line.productId);
      if read.Err? {
        return Err(ProductNotFound);
      }
      var product := read.value;
      if product.stock < line.quantity {
        return Err(InsufficientStock(product.name));
      }
      product := product.(stock := product.stock - line.quantity, updatedAt := now);
      var written := db.UpdateProduct(product);
      if written.Fail? {
        // The row was read just above, so the update finds it.
        assert false;
      }
      r := Ok(OrderItem(itemId, product.id, orderId, line.quantity, product.price, now, now));
    }

    /** service.ListForUser: the caller's orders, read in a unit of work
        that changes nothing. */
    method ListForUser(userId: Uuid) returns (r: Result<seq<Order>>)
      requires db.Valid() && db.snapshot == None
      modifies db`snapshot, db`transactions
      ensures db.Valid() && db.snapshot == None && db.State() == old(db.State())
      ensures r.Ok?
      ensures forall k :: 0 <= k < |r.value| ==> r.value[k].userId == userId && r.value[k] in db.orders
      ensures forall o :: o in db.orders && o.userId == userId ==> o in r.value
    {
      db.Begin();
      var orders := db.ListOrdersByUser(userId);
      db.Commit();
      r := Ok(orders);
    }
  }
}
