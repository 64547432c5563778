/** The persistence records of orders, products and users, and the mappers
    between them and the domain records. A nil pointer passed to a
    ...FromDomain mapper is None. */
module Models {
  import opened Domain

  datatype OrderItemRecord = OrderItemRecord(
    id: Uuid,
    orderId: Uuid,
    productId: Uuid,
    quantity: int,
    unitPrice: Money,
    createdAt: Time,
    updatedAt: Time)

  /** The orders row; its status is a plain string column. */
  datatype OrderRecord = OrderRecord(
    id: Uuid,
    userId: Uuid,
    description: string,
    totalPrice: Money,
    status: string,
    createdAt: Time,
    updatedAt: Time,
    items: seq<OrderItemRecord>)

  datatype ProductImageRecord = ProductImageRecord(id: Uuid, productId: Uuid, url: string, createdAt: Time)

  datatype ProductRecord = ProductRecord(
    id: Uuid,
    name: string,
    description: string,
    price: Money,
    stock: int,
    category: string,
    userId: Uuid,
    createdAt: Time,
    updatedAt: Time,
    images: seq<ProductImageRecord>)

  /** The users row, with its two has-many associations. */
  datatype UserRecord = UserRecord(
    id: Uuid,
    username: string,
    email: string,
    password: string,
    role: string,
    createdAt: Time,
    updatedAt: Time,
    products: seq<ProductRecord>,
    orders: seq<OrderRecord>)

  // ---------------------------------------------------------------------
  // Orders
  // ---------------------------------------------------------------------

  function ItemToDomain(r: OrderItemRecord): OrderItem {
    OrderItem(r.id, r.productId, r.orderId, r.quantity, r.unitPrice, r.createdAt, r.updatedAt)
  }

  /** The loop of Order.ToDomain: every row mapped, in order. */
  function ItemsToDomain(rs: seq<OrderItemRecord>): (items: seq<OrderItem>)
    ensures |items| == |rs|
    ensures forall k :: 0 <= k < |rs| ==> items[k] == ItemToDomain(rs[k])
  {
    if rs == [] then [] else ItemsToDomain(rs[..|rs| - 1]) + [ItemToDomain(rs[|rs| - 1])]
  }

  function OrderToDomain(o: OrderRecord): (d: Order)
    ensures d.id == o.id && d.userId == o.userId && d.description == o.description
    ensures d.totalPrice == o.totalPrice && d.status == OrderStatus(o.status)
    ensures d.createdAt == o.createdAt && d.updatedAt == o.updatedAt
    ensures |d.items| == |o.items|
  {
    Order(o.id, o.userId, o.description, o.totalPrice, OrderStatus(o.status),
          ItemsToDomain(o.items), o.createdAt, o.updatedAt)
  }

  /** The loop of OrderFromDomain: every item mapped, in order, and tied to
      the order whatever order id it carried. */
  function ItemsFromDomain(items: seq<OrderItem>, orderId: Uuid): (rs: seq<OrderItemRecord>)
    ensures |rs| == |items|
    ensures forall k :: 0 <= k < |items| ==>
      rs[k] == OrderItemRecord(items[k].id, orderId, items[k].productId, items[k].quantity,
                               items[k].unitPrice, items[k].createdAt, items[k].updatedAt)
  {
    if items == [] then []
    else
      var it := items[|items| - 1];
      ItemsFromDomain(items[..|items| - 1], orderId)
        + [OrderItemRecord(it.id, orderId, it.productId, it.quantity, it.unitPrice, it.createdAt, it.updatedAt)]
  }

  function OrderFromDomain(order: Option<Order>): (r: Option<OrderRecord>)
    ensures r.None? <==> order.None?
    ensures r.Some? ==> r.value.id == order.value.id && r.value.status == order.value.status.name
    ensures r.Some? ==> |r.value.items| == |order.value.items|
    ensures r.Some? ==> forall k :: 0 <= k < |r.value.items| ==> r.value.items[k].orderId == order.value.id
  {
    match order
    case None => None
    case Some(o) =>
      Some(OrderRecord(o.id, o.userId, o.description, o.totalPrice, o.status.name,
                       o.createdAt, o.updatedAt, ItemsFromDomain(o.items, o.id)))
  }

  /** The items of an order re-tied to the given order id. */
  function WithOrderId(items: seq<OrderItem>, orderId: Uuid): (r: seq<OrderItem>)
    ensures |r| == |items|
    ensures forall k :: 0 <= k < |items| ==> r[k] == items[k].(orderId := orderId)
  {
    if items == [] then [] else WithOrderId(items[..|items| - 1], orderId) + [items[|items| - 1].(orderId := orderId)]
  }

  /** Storing an order and reading it back gives the order with every item
      re-tied to it; an order whose items already carry its id comes back
      unchanged. */
  lemma OrderRoundTrip(o: Order)
    ensures OrderToDomain(OrderFromDomain(Some(o)).value) == o.(items := WithOrderId(o.items, o.id))
    ensures (forall k :: 0 <= k < |o.items| ==> o.items[k].orderId == o.id)
            ==> OrderToDomain(OrderFromDomain(Some(o)).value) == o
  {
    var back := OrderToDomain(OrderFromDomain(Some(o)).value);
    assert back.items == WithOrderId(o.items, o.id);
    if forall k :: 0 <= k < |o.items| ==> o.items[k].orderId == o.id {
      assert WithOrderId(o.items, o.id) == o.items;
    }
  }

  /** Reading a row and writing it back gives the row with every item
      re-tied to it. */
  lemma OrderRecordRoundTrip(r: OrderRecord)
    ensures OrderFromDomain(Some(OrderToDomain(r))).value
            == r.(items := seq(|r.items|, k requires 0 <= k < |r.items| => r.items[k].(orderId := r.id)))
  {
    var back := OrderFromDomain(Some(OrderToDomain(r))).value;
    assert back.items == seq(|r.items|, k requires 0 <= k < |r.items| => r.items[k].(orderId := r.id));
  }

  // ---------------------------------------------------------------------
  // Products
  // ---------------------------------------------------------------------

  function ImageToDomain(m: ProductImageRecord): ProductImage {
    ProductImage(m.id, m.productId, m.url, m.createdAt)
  }

  /** The loop of Product.ToDomain over the preloaded images. */
  function ImagesToDomain(ms: seq<ProductImageRecord>): (r: seq<ProductImage>)
    ensures |r| == |ms|
    ensures forall k :: 0 <= k < |ms| ==> r[k] == ImageToDomain(ms[k])
  {
    if ms == [] then [] else ImagesToDomain(ms[..|ms| - 1]) + [ImageToDomain(ms[|ms| - 1])]
  }

  function ProductToDomain(p: ProductRecord): (d: Product)
    ensures d.id == p.id && d.name == p.name && d.description == p.description
    ensures d.price == p.price && d.stock == p.stock && d.category == p.category
    ensures d.userId == p.userId && d.createdAt == p.createdAt && d.updatedAt == p.updatedAt
    ensures |d.images| == |p.images|
  {
    Product(p.id, p.name, p.description, p.price, p.stock, p.category, p.userId,
            ImagesToDomain(p.images), p.createdAt, p.updatedAt)
  }

  /** ProductFromDomain copies the columns and leaves the images out. */
  function ProductFromDomain(product: Option<Product>): (r: Option<ProductRecord>)
    ensures r.None? <==> product.None?
    ensures r.Some? ==> r.value.images == []
  {
    match product
    case None => None
    case Some(p) =>
      Some(ProductRecord(p.id, p.name, p.description, p.price, p.stock, p.category, p.userId,
                         p.createdAt, p.updatedAt, []))
  }

  /** Storing a product and reading it back without images keeps every
      column and loses the images. */
  lemma ProductRoundTrip(p: Product)
    ensures ProductToDomain(ProductFromDomain(Some(p)).value) == p.(images := [])
  {
  }

  lemma ProductRecordRoundTrip(r: ProductRecord)
    ensures ProductFromDomain(Some(ProductToDomain(r))).value == r.(images := [])
  {
  }

  /** The images of a read-back product are its image rows, one for one. */
  lemma ProductImagesPreserved(r: ProductRecord, k: nat)
    requires k < |r.images|
    ensures ProductToDomain(r).images[k] == ProductImage(r.images[k].id, r.images[k].productId, r.images[k].url, r.images[k].createdAt)
  {
  }

  // ---------------------------------------------------------------------
  // Users
  // ---------------------------------------------------------------------

  function UserToDomain(u: UserRecord): User {
    User(u.id, u.username, u.email, u.password, Role(u.role), u.createdAt, u.updatedAt)
  }

  function UserFromDomain(user: Option<User>): (r: Option<UserRecord>)
    ensures r.None? <==> user.None?
    ensures r.Some? ==> r.value.products == [] && r.value.orders == []
    ensures r.Some? ==> r.value.role == user.value.role.name
  {
    match user
    case None => None
    case Some(u) =>
      Some(UserRecord(u.id, u.username, u.email, u.password, u.role.name, u.createdAt, u.updatedAt, [], []))
  }

  lemma UserRoundTrip(u: User)
    ensures UserToDomain(UserFromDomain(Some(u)).value) == u
  {
  }

  lemma UserRecordRoundTrip(r: UserRecord)
    ensures UserFromDomain(Some(UserToDomain(r))).value == r.(products := [], orders := [])
  {
  }
}
