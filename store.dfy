/** The transactional store behind the repositories: products by id, orders
    with their items, product images and users, together with the unit of
    work that runs a piece of work inside one transaction.

    The SQL adapters are modelled by what they do to these tables: a read of
    a missing product is "not found", an update or delete that touches no row
    is "not found", an insert whose primary or unique key is taken is refused.
    Go's UnitOfWork.Execute(work) is split in its two halves, Begin and
    Commit/Rollback, and each caller runs the body of its work between them. */
module Store {
  import opened Domain
  import Models

  /** Everything a transaction may change, as one value. */
  datatype Tables = Tables(
    products: map<Uuid, Product>,
    orders: seq<Order>,
    images: seq<ProductImage>,
    users: seq<User>)

  /** Rows are keyed by their own id, product rows hold no images (those live
      in their own table), and every stored item points at its order. */
  ghost predicate TablesValid(t: Tables) {
    && (forall id :: id in t.products ==> t.products[id].id == id && t.products[id].images == [])
    && (forall i, j :: 0 <= i < |t.orders| && 0 <= j < |t.orders[i].items| ==>
          t.orders[i].items[j].orderId == t.orders[i].id)
  }

  /** The images preloaded with a product: its image rows in table order. */
  function ImagesOf(images: seq<ProductImage>, productId: Uuid): (r: seq<ProductImage>)
    ensures |r| <= |images|
    ensures forall k :: 0 <= k < |r| ==> r[k].productId == productId
    ensures forall im :: im in images && im.productId == productId ==> im in r
  {
    if images == [] then []
    else
      var rest := ImagesOf(images[..|images| - 1], productId);
      var last := images[|images| - 1];
      assert forall im :: im in images ==> im in images[..|images| - 1] || im == last;
      if last.productId == productId then rest + [last] else rest
  }

  /** The columns productRepository.Update writes: every column except the
      id and the creation time. */
  function WriteColumns(row: Product, p: Product): (r: Product)
    ensures r.id == row.id && r.createdAt == row.createdAt && r.images == row.images
    ensures r.name == p.name && r.description == p.description && r.price == p.price && r.stock == p.stock
    ensures r.category == p.category && r.userId == p.userId && r.updatedAt == p.updatedAt
  {
    row.(name := p.name, description := p.description, price := p.price, stock := p.stock,
         category := p.category, userId := p.userId, updatedAt := p.updatedAt)
  }

  /** Some pending order has an item for the product (the join of
      order_items with orders on the order id). */
  predicate HasPendingOrder(orders: seq<Order>, productId: Uuid) {
    exists i, j :: 0 <= i < |orders| && 0 <= j < |orders[i].items|
      && orders[i].status == ORDER_STATUS_PENDING && orders[i].items[j].productId == productId
  }

  /** The pending-order test, read as membership: some pending order
      holds an item of the product. */
  lemma HasPendingOrderIff(orders: seq<Order>, productId: Uuid)
    ensures HasPendingOrder(orders, productId) <==>
      exists o, it :: o in orders && it in o.items && o.status == ORDER_STATUS_PENDING && it.productId == productId
  {
    if HasPendingOrder(orders, productId) {
      var i, j :| 0 <= i < |orders| && 0 <= j < |orders[i].items|
        && orders[i].status == ORDER_STATUS_PENDING && orders[i].items[j].productId == productId;
      assert orders[i] in orders && orders[i].items[j] in orders[i].items;
    }
    if exists o, it :: o in orders && it in o.items && o.status == ORDER_STATUS_PENDING && it.productId == productId {
      var o, it :| o in orders && it in o.items && o.status == ORDER_STATUS_PENDING && it.productId == productId;
      var i :| 0 <= i < |orders| && orders[i] == o;
      var j :| 0 <= j < |o.items| && o.items[j] == it;
      assert orders[i].items[j].productId == productId;
    }
  }

  /** The orders of one user, in table order. */
  function OrdersOfUser(orders: seq<Order>, userId: Uuid): (r: seq<Order>)
    ensures |r| <= |orders|
    ensures forall k :: 0 <= k < |r| ==> r[k].userId == userId && r[k] in orders
    ensures forall o :: o in orders && o.userId == userId ==> o in r
  {
    if orders == [] then []
    else
      var rest := OrdersOfUser(orders[..|orders| - 1], userId);
      var last := orders[|orders| - 1];
      assert forall o :: o in orders ==> o in orders[..|orders| - 1] || o == last;
      if last.userId == userId then rest + [last] else rest
  }

  /** The order's id is unused and its items' ids are unused and distinct:
      the primary keys of orders and order_items. */
  predicate OrderKeysFree(orders: seq<Order>, o: Order) {
    && (forall i :: 0 <= i < |orders| ==> orders[i].id != o.id)
    && (forall i, j, k :: 0 <= i < |orders| && 0 <= j < |orders[i].items| && 0 <= k < |o.items| ==>
          orders[i].items[j].id != o.items[k].id)
    && (forall k, l :: 0 <= k < l < |o.items| ==> o.items[k].id != o.items[l].id)
  }

  /** The first user row satisfying a column condition. */
  function FirstUser(users: seq<User>, email: Option<string>, username: Option<string>): (r: Option<User>)
    ensures r.Some? ==> r.value in users
    ensures r.Some? ==> (email.Some? ==> r.value.email == email.value) && (username.Some? ==> r.value.username == username.value)
    ensures r.None? ==> forall u :: u in users ==>
      !((email.Some? ==> u.email == email.value) && (username.Some? ==> u.username == username.value))
  {
    if users == [] then None
    else if (email.Some? ==> users[0].email == email.value) && (username.Some? ==> users[0].username == username.value)
    then Some(users[0])
    else
      var r := FirstUser(users[1..], email, username);
      assert forall u :: u in users ==> u == users[0] || u in users[1..];
      r
  }

  class Db {
    var products: map<Uuid, Product>
    var orders: seq<Order>
    var images: seq<ProductImage>
    var users: seq<User>
    /** The tables as they were when the open transaction began. */
    var snapshot: Option<Tables>
    /** How many units of work have been opened. */
    ghost var transactions: nat

    function State(): Tables
      reads this
    {
      Tables(products, orders, images, users)
    }

    ghost predicate Valid()
      reads this
    {
      TablesValid(State()) && (snapshot.Some? ==> TablesValid(snapshot.value))
    }

    constructor ()
      ensures Valid() && State() == Tables(map[], [], [], [])
      ensures snapshot == None && transactions == 0
    {
      products, orders, images, users := map[], [], [], [];
      snapshot := None;
      transactions := 0;
    }

    // -------------------------------------------------------------------
    // Unit of work
    // -------------------------------------------------------------------

    /** Opens the transaction of a unit of work. */
    method Begin()
      requires Valid() && snapshot == None
      modifies this`snapshot, this`transactions
      ensures Valid()
      ensures snapshot == Some(State()) && transactions == old(transactions) + 1
    {
      snapshot := Some(State());
      transactions := transactions + 1;
    }

    /** The work returned no error: its writes stay. */
    method Commit()
      requires Valid() && snapshot.Some?
      modifies this`snapshot
      ensures Valid() && snapshot == None
    {
      snapshot := None;
    }

    /** The work returned an error: every write since Begin is undone. */
    method Rollback()
      requires Valid() && snapshot.Some?
      modifies this
      ensures Valid() && snapshot == None && transactions == old(transactions)
      ensures State() == old(snapshot.value)
    {
      var t := snapshot.value;
      products, orders, images, users := t.products, t.orders, t.images, t.users;
      snapshot := None;
    }

    // -------------------------------------------------------------------
    // Products
    // -------------------------------------------------------------------

    /** productRepository.GetByID: the row with its images preloaded, or
        "product not found". */
    function GetProduct(id: Uuid): (r: Result<Product>)
      reads this
      ensures r.Ok? <==> id in products
      ensures r.Ok? ==> r.value == products[id].(images := ImagesOf(images, id))
      ensures r.Err? ==> r.error == ProductNotFound
    {
      if id in products then Ok(products[id].(images := ImagesOf(images, id))) else Err(ProductNotFound)
    }

    /** productRepository.Create: the row is the mapped product, without
        images; a taken id is refused. */
    method CreateProduct(p: Product) returns (r: Outcome)
      requires Valid()
      modifies this`products
      ensures Valid()
      ensures r == (if p.id in old(products) then Fail(DuplicateKey("products")) else Pass)
      ensures products == if r.Pass? then old(products)[p.id := p.(images := [])] else old(products)
    {
      if p.id in products {
        return Fail(DuplicateKey("products"));
      }
      var row := Models.ProductFromDomain(Some(p)).value;
      Models.ProductRoundTrip(p);
      products := products[p.id := Models.ProductToDomain(row)];
      r := Pass;
    }

    /** productRepository.Update: writes the columns of the row with the
        product's id; no such row is "product not found". */
    method UpdateProduct(p: Product) returns (r: Outcome)
      requires Valid()
      modifies this`products
      ensures Valid()
      ensures r == (if p.id in old(products) then Pass else Fail(ProductNotFound))
      ensures products == if r.Pass? then old(products)[p.id := WriteColumns(old(products)[p.id], p)] else old(products)
    {
      if p.id !in products {
        return Fail(ProductNotFound);
      }
      products := products[p.id := WriteColumns(products[p.id], p)];
      r := Pass;
    }

    /** productRepository.Delete: removes the row; no such row is "product
        not found". */
    method DeleteProduct(id: Uuid) returns (r: Outcome)
      requires Valid()
      modifies this`products
      ensures Valid()
      ensures r == (if id in old(products) then Pass else Fail(ProductNotFound))
      ensures products == old(products) - {id}
    {
      if id !in products {
        return Fail(ProductNotFound);
      }
      products := products - {id};
      r := Pass;
    }

    // -------------------------------------------------------------------
    // Orders
    // -------------------------------------------------------------------

    /** orderRepository.Create: the row is the mapped order, whose items all
        point at it; taken keys are refused. */
    method CreateOrder(o: Order) returns (r: Outcome)
      requires Valid()
      modifies this`orders
      ensures Valid()
      ensures r == (if OrderKeysFree(old(orders), o) then Pass else Fail(DuplicateKey("orders")))
      ensures orders == if r.Pass? then old(orders) + [o.(items := Models.WithOrderId(o.items, o.id))] else old(orders)
    {
      if !OrderKeysFree(orders, o) {
        return Fail(DuplicateKey("orders"));
      }
      var row := Models.OrderFromDomain(Some(o)).value;
      Models.OrderRoundTrip(o);
      orders := orders + [Models.OrderToDomain(row)];
      r := Pass;
    }

    function ListOrdersByUser(userId: Uuid): (r: seq<Order>)
      reads this
      ensures forall k :: 0 <= k < |r| ==> r[k].userId == userId && r[k] in orders
      ensures forall o :: o in orders && o.userId == userId ==> o in r
    {
      OrdersOfUser(orders, userId)
    }

    function HasPendingOrdersByProductId(productId: Uuid): (r: bool)
      reads this
      ensures r <==> exists o, it :: o in orders && it in o.items && o.status == ORDER_STATUS_PENDING && it.productId == productId
    {
      HasPendingOrderIff(orders, productId);
      HasPendingOrder(orders, productId)
    }

    // -------------------------------------------------------------------
    // Product images
    // -------------------------------------------------------------------

    function CountImagesByProduct(productId: Uuid): (n: nat)
      reads this
      ensures n <= |images|
    {
      |ImagesOf(images, productId)|
    }

    /** productImageRepository.AddMany: nothing for no images; otherwise the
        rows, stamped with the time of the insert, in one statement that a
        taken id refuses. */
    method AddImages(ims: seq<ProductImage>, now: Time) returns (r: Outcome)
      requires Valid()
      modifies this`images
      ensures Valid()
      ensures r.Fail? ==> images == old(images) && r.error == DuplicateKey("product_images")
      ensures r.Pass? ==> images == old(images) + seq(|ims|, k requires 0 <= k < |ims| => ims[k].(createdAt := now))
      ensures r.Pass? <==> (|| ims == []
                            || (&& (forall im, k :: im in old(images) && 0 <= k < |ims| ==> im.id != ims[k].id)
                                && (forall k, l :: 0 <= k < l < |ims| ==> ims[k].id != ims[l].id)))
    {
      if ims == [] {
        return Pass;
      }
      if exists im, k :: im in images && 0 <= k < |ims| && im.id == ims[k].id {
        return Fail(DuplicateKey("product_images"));
      }
      if exists k, l :: 0 <= k < l < |ims| && ims[k].id == ims[l].id {
        return Fail(DuplicateKey("product_images"));
      }
      images := images + seq(|ims|, k requires 0 <= k < |ims| => ims[k].(createdAt := now));
      r := Pass;
    }

    // -------------------------------------------------------------------
    // Users
    // -------------------------------------------------------------------

    function FindUserByEmail(email: string): (r: Option<User>)
      reads this
      ensures r.Some? ==> r.value in users && r.value.email == email
      ensures r.None? <==> forall u :: u in users ==> u.email != email
    {
      FirstUser(users, Some(email), None)
    }

    function FindUserByUsername(username: string): (r: Option<User>)
      reads this
      ensures r.Some? ==> r.value in users && r.value.username == username
      ensures r.None? <==> forall u :: u in users ==> u.username != username
    {
      FirstUser(users, None, Some(username))
    }

    /** userRepository.Create: the id is the primary key, the username and
        the email are unique. */
    method CreateUser(u: User) returns (r: Outcome)
      requires Valid()
      modifies this`users
      ensures Valid()
      ensures r.Pass? <==> forall v :: v in old(users) ==> v.id != u.id && v.username != u.username && v.email != u.email
      ensures r.Fail? ==> r.error == DuplicateKey("users")
      ensures users == if r.Pass? then old(users) + [u] else old(users)
    {
      if exists v :: v in users && (v.id == u.id || v.username == u.username || v.email == u.email) {
        return Fail(DuplicateKey("users"));
      }
      var row := Models.UserFromDomain(Some(u)).value;
      Models.UserRoundTrip(u);
      users := users + [Models.UserToDomain(row)];
      r := Pass;
    }
  }
}
