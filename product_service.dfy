/** The product use cases: create with input validation, partial update,
    delete guarded by pending orders, read by id, and the paginated listing
    behind the list cache. The clock, uuid.New and the listing query of the
    product repository are parameters. */
module ProductService {
  import opened Domain
  import opened Store
  import opened Text
  import Cache

  datatype CreateProductInput = CreateProductInput(
    name: string,
    description: string,
    price: Money,
    stock: int,
    category: string)

  /** A partial update: None leaves the field as it is. */
  datatype UpdateProductInput = UpdateProductInput(
    name: Option<string>,
    description: Option<string>,
    price: Option<Money>,
    stock: Option<int>,
    category: Option<string>)

  datatype ListProductsInput = ListProductsInput(search: string, page: int, pageSize: int)

  /** What the listing query receives. */
  datatype ProductFilter = ProductFilter(search: string, limit: int, offset: int)

  /** One page of the listing and the number of matching products. */
  datatype ListPage = ListPage(products: seq<Product>, total: int)

  const DEFAULT_PAGE_SIZE := 10
  const MAX_PAGE_SIZE := 100

  // ---------------------------------------------------------------------
  // What a stored product looks like
  // ---------------------------------------------------------------------

  predicate Trimmed(s: string) { TrimSpace(s) == s }

  /** A product that can be sold: a positive price, no negative stock, and a
      trimmed, non-blank name, description and category. */
  predicate Sellable(p: Product) {
    && p.price > 0 && p.stock >= 0
    && p.name != [] && Trimmed(p.name)
    && p.description != [] && Trimmed(p.description)
    && p.category != [] && Trimmed(p.category)
  }

  /** The stricter rules a newly created product meets: a name of 3 to 100
      bytes and a description of at least 10 bytes. */
  predicate MeetsCreateRules(p: Product) {
    Sellable(p) && 3 <= ByteLen(p.name) <= 100 && ByteLen(p.description) >= 10
  }

  // ---------------------------------------------------------------------
  // Create
  // ---------------------------------------------------------------------

  /** validateCreateInput: the first rule the input breaks, checked in the
      order name, description, price, stock, category. */
  function ValidateCreateInput(input: CreateProductInput): (r: Option<Error>)
    ensures r.None? <==>
      && 3 <= ByteLen(TrimSpace(input.name)) <= 100 && ByteLen(TrimSpace(input.description)) >= 10
      && input.price > 0 && input.stock >= 0 && TrimSpace(input.category) != []
    ensures !(3 <= ByteLen(TrimSpace(input.name)) <= 100) ==> r == Some(Invalid(NameLength))
    ensures 3 <= ByteLen(TrimSpace(input.name)) <= 100 && ByteLen(TrimSpace(input.description)) < 10
      ==> r == Some(Invalid(DescriptionLength))
    ensures 3 <= ByteLen(TrimSpace(input.name)) <= 100 && ByteLen(TrimSpace(input.description)) >= 10 && input.price <= 0
      ==> r == Some(Invalid(PriceRequired))
    ensures (&& 3 <= ByteLen(TrimSpace(input.name)) <= 100 && ByteLen(TrimSpace(input.description)) >= 10
             && input.price > 0 && input.stock < 0)
      ==> r == Some(Invalid(StockRequired))
    ensures (&& 3 <= ByteLen(TrimSpace(input.name)) <= 100 && ByteLen(TrimSpace(input.description)) >= 10
             && input.price > 0 && input.stock >= 0 && TrimSpace(input.category) == [])
      ==> r == Some(Invalid(CategoryRequired))
  {
    var name := TrimSpace(input.name);
    if ByteLen(name) < 3 || ByteLen(name) > 100 then Some(Invalid(NameLength))
    else if ByteLen(TrimSpace(input.description)) < 10 then Some(Invalid(DescriptionLength))
    else if input.price <= 0 then Some(Invalid(PriceRequired))
    else if input.stock < 0 then Some(Invalid(StockRequired))
    else if TrimSpace(input.category) == [] then Some(Invalid(CategoryRequired))
    else None
  }

  /** The product Create builds from valid input. */
  function NewProduct(ownerId: Uuid, input: CreateProductInput, newId: Uuid, now: Time): Product {
    Product(newId, TrimSpace(input.name), TrimSpace(input.description), input.price, input.stock,
            TrimSpace(input.category), ownerId, [], now, now)
  }

  /** Valid input builds a product that meets the creation rules. */
  lemma CreateValidSound(ownerId: Uuid, input: CreateProductInput, newId: Uuid, now: Time)
    requires ValidateCreateInput(input).None?
    ensures MeetsCreateRules(NewProduct(ownerId, input, newId, now))
  {
    TrimSpaceIdempotent(input.name);
    TrimSpaceIdempotent(input.description);
    TrimSpaceIdempotent(input.category);
  }

  /** Input whose product would meet the creation rules is accepted. */
  lemma CreateValidComplete(ownerId: Uuid, input: CreateProductInput, newId: Uuid, now: Time)
    requires MeetsCreateRules(NewProduct(ownerId, input, newId, now))
    ensures ValidateCreateInput(input).None?
  {
  }

  /** What Create returns and the products table it leaves. */
  function CreateSpec(P: map<Uuid, Product>, ownerId: Uuid, input: CreateProductInput, newId: Uuid, now: Time)
    : (Result<Product>, map<Uuid, Product>)
  {
    match ValidateCreateInput(input)
    case Some(e) => (Err(e), P)
    case None =>
      var p := NewProduct(ownerId, input, newId, now);
      if p.id in P then (Err(DuplicateKey("products")), P) else (Ok(p), P[p.id := p])
  }

  /** Create succeeds exactly for valid input and a fresh id; it then stores
      one product owned by the caller, and nothing else changes. On failure
      nothing is stored. */
  lemma CreateSpecResult(P: map<Uuid, Product>, ownerId: Uuid, input: CreateProductInput, newId: Uuid, now: Time)
    ensures var (r, P') := CreateSpec(P, ownerId, input, newId, now);
      && (r.Ok? <==> ValidateCreateInput(input).None? && newId !in P)
      && (r.Ok? ==> && r.value.id == newId && r.value.userId == ownerId
                    && r.value.price == input.price && r.value.stock == input.stock
                    && P' == P[newId := r.value])
      && (r.Err? ==> P' == P)
  {
    var p := NewProduct(ownerId, input, newId, now);
    assert p.id == newId;
    if ValidateCreateInput(input).Some? {
      assert CreateSpec(P, ownerId, input, newId, now) == (Err(ValidateCreateInput(input).value), P);
    } else if newId in P {
      assert CreateSpec(P, ownerId, input, newId, now) == (Err(DuplicateKey("products")), P);
    } else {
      assert CreateSpec(P, ownerId, input, newId, now) == (Ok(p), P[newId := p]);
    }
  }

  /** What Create stores meets the creation rules. */
  lemma CreateSpecMeetsRules(P: map<Uuid, Product>, ownerId: Uuid, input: CreateProductInput, newId: Uuid, now: Time)
    requires CreateSpec(P, ownerId, input, newId, now).0.Ok?
    ensures MeetsCreateRules(CreateSpec(P, ownerId, input, newId, now).0.value)
  {
    CreateValidSound(ownerId, input, newId, now);
  }

  // ---------------------------------------------------------------------
  // Update
  // ---------------------------------------------------------------------

  /** Each field of an update, when given, is acceptable. */
  predicate NameOk(input: UpdateProductInput) { input.name.Some? ==> TrimSpace(input.name.value) != [] }
  predicate DescriptionOk(input: UpdateProductInput) { input.description.Some? ==> TrimSpace(input.description.value) != [] }
  predicate PriceOk(input: UpdateProductInput) { input.price.Some? ==> input.price.value > 0 }
  predicate StockOk(input: UpdateProductInput) { input.stock.Some? ==> input.stock.value >= 0 }

  /** The first field of the update that applyUpdate refuses, in the order
      name, description, price, stock, category. */
  function UpdateError(input: UpdateProductInput): (r: Option<Error>)
    ensures r.None? <==>
      && (input.name.Some? ==> TrimSpace(input.name.value) != [])
      && (input.description.Some? ==> TrimSpace(input.description.value) != [])
      && (input.price.Some? ==> input.price.value > 0)
      && (input.stock.Some? ==> input.stock.value >= 0)
      && (input.category.Some? ==> TrimSpace(input.category.value) != [])
    ensures input.name.Some? && TrimSpace(input.name.value) == [] ==> r == Some(Invalid(NameEmpty))
    ensures NameOk(input) && input.description.Some? && TrimSpace(input.description.value) == []
      ==> r == Some(Invalid(DescriptionEmpty))
    ensures NameOk(input) && DescriptionOk(input) && input.price.Some? && input.price.value <= 0
      ==> r == Some(Invalid(PriceNotPositive))
    ensures NameOk(input) && DescriptionOk(input) && PriceOk(input) && input.stock.Some? && input.stock.value < 0
      ==> r == Some(Invalid(StockNegative))
    ensures (&& NameOk(input) && DescriptionOk(input) && PriceOk(input) && StockOk(input)
             && input.category.Some? && TrimSpace(input.category.value) == [])
      ==> r == Some(Invalid(CategoryEmpty))
  {
    if input.name.Some? && ByteLen(TrimSpace(input.name.value)) == 0 then Some(Invalid(NameEmpty))
    else if input.description.Some? && ByteLen(TrimSpace(input.description.value)) == 0 then Some(Invalid(DescriptionEmpty))
    else if input.price.Some? && input.price.value <= 0 then Some(Invalid(PriceNotPositive))
    else if input.stock.Some? && input.stock.value < 0 then Some(Invalid(StockNegative))
    else if input.category.Some? && TrimSpace(input.category.value) == [] then Some(Invalid(CategoryEmpty))
    else None
  }

  /** The product once every given field is applied, text fields trimmed. */
  function Updated(p: Product, input: UpdateProductInput): (q: Product)
    ensures q.name == (if input.name.Some? then TrimSpace(input.name.value) else p.name)
    ensures q.description == (if input.description.Some? then TrimSpace(input.description.value) else p.description)
    ensures q.price == (if input.price.Some? then input.price.value else p.price)
    ensures q.stock == (if input.stock.Some? then input.stock.value else p.stock)
    ensures q.category == (if input.category.Some? then TrimSpace(input.category.value) else p.category)
    ensures q.id == p.id && q.userId == p.userId && q.images == p.images
    ensures q.createdAt == p.createdAt && q.updatedAt == p.updatedAt
  {
    var p1 := if input.name.Some? then p.(name := TrimSpace(input.name.value)) else p;
    var p2 := if input.description.Some? then p1.(description := TrimSpace(input.description.value)) else p1;
    var p3 := if input.price.Some? then p2.(price := input.price.value) else p2;
    var p4 := if input.stock.Some? then p3.(stock := input.stock.value) else p3;
    if input.category.Some? then p4.(category := TrimSpace(input.category.value)) else p4
  }

  /** An accepted update keeps a sellable product sellable. */
  lemma UpdatePreservesSellable(p: Product, input: UpdateProductInput)
    requires Sellable(p) && UpdateError(input).None?
    ensures Sellable(Updated(p, input))
  {
    if input.name.Some? { TrimSpaceIdempotent(input.name.value); }
    if input.description.Some? { TrimSpaceIdempotent(input.description.value); }
    if input.category.Some? { TrimSpaceIdempotent(input.category.value); }
  }

  /** An update that names no field changes nothing. */
  lemma UpdateNothingIsIdentity(p: Product)
    ensures Updated(p, UpdateProductInput(None, None, None, None, None)) == p
    ensures UpdateError(UpdateProductInput(None, None, None, None, None)) == None
  {
  }

  /** Applying the same update twice is applying it once. */
  lemma UpdatedIdempotent(p: Product, input: UpdateProductInput)
    ensures Updated(Updated(p, input), input) == Updated(p, input)
  {
    if input.name.Some? { TrimSpaceIdempotent(input.name.value); }
    if input.description.Some? { TrimSpaceIdempotent(input.description.value); }
    if input.category.Some? { TrimSpaceIdempotent(input.category.value); }
  }

  /** applyUpdate: the fields are checked and written one after another. */
  method ApplyUpdate(p: Product, input: UpdateProductInput) returns (q: Product, err: Option<Error>)
    ensures err == UpdateError(input)
    ensures err.None? ==> q == Updated(p, input)
  {
    q := p;
    if input.name.Some? {
      var name := TrimSpace(input.name.value);
      if ByteLen(name) == 0 {
        return q, Some(Invalid(NameEmpty));
      }
      q := q.(name := name);
    }
    if input.description.Some? {
      var desc := TrimSpace(input.description.value);
      if ByteLen(desc) == 0 {
        return q, Some(Invalid(DescriptionEmpty));
      }
      q := q.(description := desc);
    }
    if input.price.Some? {
      if input.price.value <= 0 {
        return q, Some(Invalid(PriceNotPositive));
      }
      q := q.(price := input.price.value);
    }
    if input.stock.Some? {
      if input.stock.value < 0 {
        return q, Some(Invalid(StockNegative));
      }
      q := q.(stock := input.stock.value);
    }
    if input.category.Some? {
      var category := TrimSpace(input.category.value);
      if category == [] {
        return q, Some(Invalid(CategoryEmpty));
      }
      q := q.(category := category);
    }
    err := None;
  }

  /** What Update returns and the products table it leaves: the product as
      read (images preloaded), updated and stamped with now. */
  function UpdateSpec(P: map<Uuid, Product>, images: seq<ProductImage>, id: Uuid, input: UpdateProductInput, now: Time)
    : (Result<Product>, map<Uuid, Product>)
  {
    if id !in P then (Err(ProductNotFound), P)
    else
      match UpdateError(input)
      case Some(e) => (Err(e), P)
      case None =>
        var q := Updated(P[id].(images := ImagesOf(images, id)), input).(updatedAt := now);
        (Ok(q), P[id := WriteColumns(P[id], q)])
  }

  /** A missing product is "product not found"; no failed update writes. */
  lemma UpdateSpecErrors(P: map<Uuid, Product>, images: seq<ProductImage>, id: Uuid, input: UpdateProductInput, now: Time)
    ensures var (r, P') := UpdateSpec(P, images, id, input, now);
      && (id !in P ==> r == Err(ProductNotFound))
      && (r.Err? ==> P' == P)
      && (r.Ok? <==> id in P && UpdateError(input).None?)
  {
  }

  /** A successful update rewrites exactly the one row, keeps its id, owner
      and creation time, and keeps a sellable product sellable. */
  lemma UpdateSpecWrites(P: map<Uuid, Product>, images: seq<ProductImage>, id: Uuid, input: UpdateProductInput, now: Time)
    requires id in P && P[id].id == id && P[id].images == []
    requires UpdateSpec(P, images, id, input, now).0.Ok?
    ensures var (r, P') := UpdateSpec(P, images, id, input, now);
      && P'.Keys == P.Keys
      && (forall k :: k in P && k != id ==> P'[k] == P[k])
      && P'[id] == r.value.(images := [])
      && r.value.id == id && r.value.userId == P[id].userId && r.value.createdAt == P[id].createdAt
      && r.value.updatedAt == now
      && (Sellable(P[id]) ==> Sellable(P'[id]))
  {
    var read := P[id].(images := ImagesOf(images, id));
    assert Sellable(P[id]) <==> Sellable(read);
    if Sellable(read) {
      UpdatePreservesSellable(read, input);
    }
  }

  // ---------------------------------------------------------------------
  // Delete
  // ---------------------------------------------------------------------

  /** What Delete returns and the products table it leaves. */
  function DeleteSpec(P: map<Uuid, Product>, orders: seq<Order>, id: Uuid): (Outcome, map<Uuid, Product>) {
    if id !in P then (Fail(ProductNotFound), P)
    else if HasPendingOrder(orders, id) then (Fail(ProductHasPendingOrders), P)
    else (Pass, P - {id})
  }

  /** The product goes exactly when it exists and no pending order refers
      to it; otherwise the table is untouched. */
  lemma DeleteRemovesIff(P: map<Uuid, Product>, orders: seq<Order>, id: Uuid)
    ensures var (r, P') := DeleteSpec(P, orders, id);
      && (r.Pass? <==> id in P && !HasPendingOrder(orders, id))
      && (r.Pass? ==> P' == P - {id} && id !in P')
      && (r.Fail? ==> P' == P)
      && (id in P && HasPendingOrder(orders, id) ==> r == Fail(ProductHasPendingOrders) && id in P')
  {
  }

  /** Deleting a product a second time is "product not found", never a
      success. */
  lemma DeleteTwice(P: map<Uuid, Product>, orders: seq<Order>, id: Uuid)
    requires DeleteSpec(P, orders, id).0.Pass?
    ensures DeleteSpec(DeleteSpec(P, orders, id).1, orders, id).0 == Fail(ProductNotFound)
  {
  }

  // ---------------------------------------------------------------------
  // List
  // ---------------------------------------------------------------------

  /** The page number, at least 1. */
  function PageOf(page: int): (r: nat)
    ensures r >= 1
    ensures page >= 1 ==> r == page
  {
    if page <= 0 then 1 else page
  }

  /** The page size: 10 when not given, capped at 100. */
  function PageSizeOf(size: int): (r: nat)
    ensures 1 <= r <= MAX_PAGE_SIZE
    ensures 1 <= size <= MAX_PAGE_SIZE ==> r == size
    ensures size <= 0 ==> r == DEFAULT_PAGE_SIZE
  {
    if size <= 0 then DEFAULT_PAGE_SIZE else if size > MAX_PAGE_SIZE then MAX_PAGE_SIZE else size
  }

  /** The filter handed to the listing query. */
  function Filter(input: ListProductsInput): (f: ProductFilter)
    ensures 1 <= f.limit <= MAX_PAGE_SIZE && f.offset >= 0
    ensures f.limit == PageSizeOf(input.pageSize) && f.offset == (PageOf(input.page) - 1) * f.limit
  {
    var page, size := PageOf(input.page), PageSizeOf(input.pageSize);
    NonNegativeProduct(page - 1, size);
    ProductFilter(TrimSpace(input.search), size, (page - 1) * size)
  }

  lemma NonNegativeProduct(a: nat, b: nat)
    ensures a * b >= 0
  {
  }

  /** "products:list:<search>:<page>:<size>" */
  function ListKey(search: string, page: nat, size: nat): string {
    "products:list:" + search + ":" + Decimal(page) + ":" + Decimal(size)
  }

  /** The cache key of a listing: the lower-cased filter search and the
      normalised page and size. */
  function CacheKey(input: ListProductsInput): string {
    ListKey(ToLower(TrimSpace(input.search)), PageOf(input.page), PageSizeOf(input.pageSize))
  }

  /** Normalising the paging of an input a second time changes neither its
      filter nor its cache key. */
  lemma NormaliseIdempotent(input: ListProductsInput)
    ensures var again := input.(page := PageOf(input.page), pageSize := PageSizeOf(input.pageSize));
      Filter(again) == Filter(input) && CacheKey(again) == CacheKey(input)
  {
  }

  /** x:d determines x and d when d holds no colon. */
  lemma SplitLastColon(x: string, d: string, y: string, e: string)
    requires ':' !in d && ':' !in e
    requires x + ":" + d == y + ":" + e
    ensures x == y && d == e
  {
    var w := x + ":" + d;
    assert w == y + ":" + e;
    // The colon before the shorter of d and e would fall inside the longer.
    assert w[|w| - |d| - 1] == ':' && w[|w| - |e| - 1] == ':';
    assert |d| == |e| && |x| == |y|;
    assert w[|x| + 1..] == d && w[|y| + 1..] == e;
    assert w[..|x|] == x && w[..|y|] == y;
  }

  lemma DecimalColonFree(n: nat)
    ensures ':' !in Decimal(n)
  {
  }

  /** Distinct lists get distinct keys: the key determines the search, the
      page and the size. */
  lemma ListKeyInjective(s: string, p: nat, z: nat, t: string, q: nat, y: nat)
    requires ListKey(s, p, z) == ListKey(t, q, y)
    ensures s == t && p == q && z == y
  {
    DecimalColonFree(p);
    DecimalColonFree(z);
    DecimalColonFree(q);
    DecimalColonFree(y);
    var prefix := "products:list:";
    SplitLastColon(prefix + s + ":" + Decimal(p), Decimal(z), prefix + t + ":" + Decimal(q), Decimal(y));
    SplitLastColon(prefix + s, Decimal(p), prefix + t, Decimal(q));
    assert s == (prefix + s)[|prefix|..] == (prefix + t)[|prefix|..] == t;
    DecimalInjective(p, q);
    DecimalInjective(z, y);
  }

  /** Two listings that share a cache key send the query the same limit and
      offset and a search with the same lower case, which is all the query
      looks at, so a cached page is the page the query would give. */
  lemma SameKeySameQuery(a: ListProductsInput, b: ListProductsInput)
    requires CacheKey(a) == CacheKey(b)
    ensures Filter(a).limit == Filter(b).limit && Filter(a).offset == Filter(b).offset
    ensures ToLower(Filter(a).search) == ToLower(Filter(b).search)
  {
    ListKeyInjective(ToLower(TrimSpace(a.search)), PageOf(a.page), PageSizeOf(a.pageSize),
                     ToLower(TrimSpace(b.search)), PageOf(b.page), PageSizeOf(b.pageSize));
  }

  class ProductService {
    const db: Db
    /** The list cache; nil when the service runs without one. */
    const cache: Cache.MemoryCache?<ListPage>

    constructor (db: Db, cache: Cache.MemoryCache?<ListPage>)
      ensures this.db == db && this.cache == cache
    {
      this.db := db;
      this.cache := cache;
    }

    method Create(ownerId: Uuid, input: CreateProductInput, newId: Uuid, now: Time) returns (r: Result<Product>)
      requires db.Valid()
      modifies db`products
      ensures db.Valid()
      ensures (r, db.products) == CreateSpec(old(db.products), ownerId, input, newId, now)
    {
      var invalid := ValidateCreateInput(input);
      if invalid.Some? {
        return Err(invalid.value);
      }
      var product := Product(newId, TrimSpace(input.name), TrimSpace(input.description), input.price, input.stock,
                             TrimSpace(input.category), ownerId, [], now, now);
      var created := db.CreateProduct(product);
      if created.Fail? {
        return Err(created.error);
      }
      r := Ok(product);
    }

    method Update(id: Uuid, input: UpdateProductInput, now: Time) returns (r: Result<Product>)
      requires db.Valid()
      modifies db`products
      ensures db.Valid()
      ensures (r, db.products) == UpdateSpec(old(db.products), db.images, id, input, now)
    {
      var found := db.GetProduct(id);
      if found.Err? {
        return Err(ProductNotFound);
      }
      var product, invalid := ApplyUpdate(found.value, input);
      if invalid.Some? {
        return Err(invalid.value);
      }
      product := product.(updatedAt := now);
      var written := db.UpdateProduct(product);
      if written.Fail? {
        // The row was read just above, so the update finds it.
        assert false;
      }
      r := Ok(product);
    }

    method Delete(id: Uuid) returns (r: Outcome)
      requires db.Valid()
      modifies db`products
      ensures db.Valid()
      ensures (r, db.products) == DeleteSpec(old(db.products), db.orders, id)
    {
      var found := db.GetProduct(id);
      if found.Err? {
        return Fail(ProductNotFound);
      }
      if db.HasPendingOrdersByProductId(id) {
        return Fail(ProductHasPendingOrders);
      }
      r := db.DeleteProduct(id);
    }

    /** Any failure to read the product is reported as "product not found". */
    function GetByID(id: Uuid): (r: Result<Product>)
      reads db
      requires db.Valid()
      ensures r.Ok? <==> id in db.products
      ensures r.Ok? ==> r.value.id == id && r.value.images == ImagesOf(db.images, id)
      ensures r.Err? ==> r.error == ProductNotFound
    {
      match db.GetProduct(id)
      case Ok(p) => Ok(p)
      case Err(_) => Err(ProductNotFound)
    }

    /** The normalised page and size, the filter and the cache key of a
        listing. */
    static method Paging(input: ListProductsInput) returns (filter: ProductFilter, cacheKey: string)
      ensures filter == Filter(input) && cacheKey == CacheKey(input)
    {
      var page := input.page;
      if page <= 0 {
        page := 1;
      }
      var pageSize := input.pageSize;
      if pageSize <= 0 {
        pageSize := DEFAULT_PAGE_SIZE;
      }
      if pageSize > MAX_PAGE_SIZE {
        pageSize := MAX_PAGE_SIZE;
      }
      var offset := (page - 1) * pageSize;
      filter := ProductFilter(TrimSpace(input.search), pageSize, offset);
      cacheKey := ListKey(ToLower(filter.search), page, pageSize);
    }

    /** A cache hit for the listing's key returns the cached page without
        querying; a miss runs the query and stores a successful page. */
    method List(input: ListProductsInput, query: ProductFilter -> Result<ListPage>, now: Time) returns (r: Result<ListPage>)
      requires cache != null ==> cache.Valid()
      modifies cache
      ensures cache != null ==> cache.Valid()
      ensures cache == null ==> r == query(Filter(input))
      ensures cache != null && old(cache.Get(CacheKey(input), now)).Some? ==>
        r == Ok(old(cache.Get(CacheKey(input), now)).value) && cache.items == old(cache.items)
      ensures cache != null && old(cache.Get(CacheKey(input), now)).None? ==>
        && r == query(Filter(input))
        && cache.items == if r.Ok? then Cache.AfterSet(old(cache.items), cache.max, cache.ttl, CacheKey(input), r.value, now)
                          else old(cache.items)
    {
      var filter, cacheKey := Paging(input);
      if cache != null {
        var hit := cache.Get(cacheKey, now);
        if hit.Some? {
          return Ok(hit.value);
        }
      }
      r := query(filter);
      if r.Err? {
        return;
      }
      if cache != null {
        cache.Set(cacheKey, r.value, now);
      }
    }
  }
}
