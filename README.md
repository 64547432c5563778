# A verified model of the e-commerce back end

This project models, in Dafny, the core of a small Go e-commerce service. The
service has users who register and log in, products with stock and
up to four images each, and orders that take stock from products.

The model covers:

- **Order placement** (`OrderService`): the cart is checked line by line
  inside one unit of work. Stock is decremented and the unit price is
  captured as each line passes. The order is written with its items and
  total. Any failure rolls back every table.
- **Product use cases** (`ProductService`):
  - creation with its input rules, and partial update with its field rules;
  - deletion guarded by pending orders;
  - lookup;
  - the paged, cached listing with its normalised page, size, offset and
    cache key.
- **Product images** (`ImageService`): the request limits, the per-file
  upload loop that skips failed uploads, the "no image uploaded" refusal,
  the bulk insert, the file-name sanitiser, and how the container wires
  the cloud client.
- **The Cloudinary client** (`Cloudinary`): the unsigned upload with a
  preset, the signed upload with its parameter merge, and the signature's
  pre-image (the pairs in ascending key order joined by `&`, then the
  secret).
- **Registration and login** (`AuthService`):
  - the username pattern, the e-mail check, the password classes and the
    role resolution;
  - the order in which registration checks are made;
  - the uniqueness of e-mail and username;
  - issuing the token.
- **The HTTP middlewares** (`AuthMiddleware`, `RateLimit`): bearer-token
  extraction, the authentication and role gates, and the per-client
  sliding-window rate limiter.
- **The bounded in-memory cache** with a time to live (`Cache`).
- **The response envelopes and the page count** (`Response`).
- **The persistence layer** (`Models`, `Store`): the GORM records and
  their round-trip mappers, and the repositories and the transactional
  unit of work, as one `Db` class holding the products, orders, images
  and users tables.

Go's `strings.TrimSpace`, `strings.ToLower`, `filepath.Base`, UTF-8 byte
length and byte-wise string order are modelled in `Text`.

Operations that work step by step in Go are Dafny methods proved against a
specification function. They are the repository calls, the unit of work,
the order loop, the image loop, the cache's `Set`, the rate limiter and
the signature's sorting and joining loop. The properties the service
promises are proved as lemmas about those functions.

Collaborators outside the process become parameters:

| collaborator | parameter |
|---|---|
| the clock | `now` |
| uuid generation | `newId` |
| bcrypt | `hash`, `compare` |
| the JWT manager | `tokens`, `parse` |
| the e-mail parser | `parses` |
| SHA-1 | `digest` |
| the HTTP post to Cloudinary | `send` |
| the SQL listing query | `query` |

## Model

| member | source | states |
|---|---|---|
| OrderService.OrderService.Create | internal/usecase/order/service.go:36-107 | An empty cart is refused before any unit of work opens. Otherwise exactly one unit of work runs, and the result and all four tables are those of PlaceOrder. A failed Create leaves every table as it was (rollback). |
| OrderService.OrderService.Work | internal/usecase/order/service.go:53-100 | The body of the unit of work returns PlaceOrder's result. On success the store holds PlaceOrder's tables; on failure PlaceOrder leaves the tables unchanged. |
| OrderService.OrderService.StageLines | internal/usecase/order/service.go:57-90 | The loop over the cart computes Place on the products read before it and stops at the first failing line. On success it leaves the decremented products in the store. |
| OrderService.OrderService.StageLine | internal/usecase/order/service.go:58-89 | One line checks quantity, existence and stock, and writes the decremented product. It agrees with Step and writes nothing on failure. |
| OrderService.PlaceSucceedsIff | internal/usecase/order/service.go:57-76 | Placement succeeds iff each line has a positive quantity and names a stored product, and the cart's total demand for each product is within its stock. |
| OrderService.PlaceOkFits | internal/usecase/order/service.go:57-76 | A successful placement implies every line fits (the only-if half). |
| OrderService.FitsPlaceOk | internal/usecase/order/service.go:57-76 | A cart whose every line fits is placed (the if half). |
| OrderService.PlaceStock | internal/usecase/order/service.go:67-76 | After success each product's stock is its old stock minus the cart's total demand for it. |
| OrderService.RestockedStep | internal/usecase/order/service.go:71-76 | Decrementing the product of one more line turns the rows after the earlier lines into the rows after all lines. |
| OrderService.PlaceProducts | internal/usecase/order/service.go:62-76 | The product keys are unchanged. A product the cart names loses exactly its demand and is stamped with now; every other product is untouched. |
| OrderService.PlaceItems | internal/usecase/order/service.go:81-93 | One item per line, in order, with the line's product and quantity, the price read from the store, the order id and a fresh id. |
| OrderService.PlaceItemsOrderId | internal/usecase/order/service.go:81-89 | Every item points at the new order. |
| OrderService.PlaceTotal | internal/usecase/order/service.go:78-92 | The total is the sum of unit price times quantity over the items. |
| OrderService.PlaceExtend | internal/usecase/order/service.go:57-90 | Placing one more line is one more Step on the products left by the earlier lines. |
| OrderService.PlacePrefixFailure | internal/usecase/order/service.go:57-69 | The first failing line decides the error of the whole cart. |
| OrderService.PlaceErrors | internal/usecase/order/service.go:58-69 | The only errors are a non-positive quantity, "product not found" and insufficient stock. |
| OrderService.PlaceStockNonNegative | internal/usecase/order/service.go:67-72 | No successful order makes a stock negative. |
| OrderService.PlaceOrderOrder | internal/usecase/order/service.go:41-93 | The written order is pending, has the trimmed description and the first fresh id, has one item per line with the stored price, and its total is the sum of its items. |
| OrderService.PlaceOrderTables | internal/usecase/order/service.go:53-100 | A successful Create appends the order and changes only the stock and update time of the products the cart names. Images and users are untouched, and no stock goes negative. |
| OrderService.PlaceScenarioEnoughStock | internal/usecase/order/service.go:67-79 | Stock 5 and a line of 3 succeed, leaving stock 2 and total 3 times the price. |
| OrderService.PlaceScenarioShortStock | internal/usecase/order/service.go:67-69 | Stock 2 and a line of 3 fail with insufficient stock naming the product. |
| OrderService.PlaceScenarioDoubleLine | internal/usecase/order/service.go:62-76 | Two lines of the same product that each fit but together exceed the stock are refused. |
| OrderService.OrderService.ListForUser | internal/usecase/order/service.go:109-120 | The result is exactly the user's orders, and nothing is written. |
| Store.Db.Begin | internal/adapter/repository/gorm/unit_of_work.go:20-29 | A unit of work starts with a snapshot of all four tables. |
| Store.Db.Commit | internal/adapter/repository/gorm/unit_of_work.go:20-29 | Committing keeps the tables and ends the unit of work. |
| Store.Db.Rollback | internal/adapter/repository/gorm/unit_of_work.go:20-29 | Rolling back restores every table to the snapshot. |
| Store.Db.GetProduct | internal/adapter/repository/gorm/product_repository.go:69-78 | A product is found iff its id is stored, with its images preloaded. Otherwise the error is "product not found". |
| Store.Db.CreateProduct | internal/adapter/repository/gorm/product_repository.go:23-33 | A free id is inserted without images. A taken id is refused and nothing changes. |
| Store.Db.UpdateProduct | internal/adapter/repository/gorm/product_repository.go:35-56 | Only the updatable columns are written, and only for an existing id. No row affected means "product not found". |
| Store.Db.DeleteProduct | internal/adapter/repository/gorm/product_repository.go:58-67 | The row goes. A missing id (no row affected) is "product not found". |
| Store.Db.CreateOrder | internal/adapter/repository/gorm/order_repository.go:22-33 | The order with its items, re-tied to its id, is appended when its keys are free. Otherwise nothing changes. |
| Store.OrdersOfUser | internal/adapter/repository/gorm/order_repository.go:35-52 | Exactly the orders of the user. |
| Store.Db.ListOrdersByUser | internal/adapter/repository/gorm/order_repository.go:35-52 | Every listed order is a stored order of the user, and every stored order of the user is listed. |
| Store.HasPendingOrderIff | internal/adapter/repository/gorm/order_repository.go:54-65 | The join test holds iff some pending order has an item of the product. |
| Store.Db.HasPendingOrdersByProductId | internal/adapter/repository/gorm/order_repository.go:54-65 | True iff some stored order with status pending has an item of the product. |
| Store.WriteColumns | internal/adapter/repository/gorm/product_repository.go:35-44 | The update writes name, description, price, stock, category, owner and update time from the product. The row's id, creation time and images stay. |
| Store.ImagesOf | internal/adapter/repository/gorm/product_image_repository.go:44-54 | Exactly the images of the product. |
| Store.Db.CountImagesByProduct | internal/adapter/repository/gorm/product_image_repository.go:56-62 | The count of the product's images. |
| Store.Db.AddImages | internal/adapter/repository/gorm/product_image_repository.go:23-42 | The images are appended with one creation time, all or none. Nothing is written for an empty batch. A batch is refused, with nothing written, iff one of its ids is taken or two of its images share an id. |
| Store.FirstUser | internal/adapter/repository/gorm/user_repository.go:35-55 | The first user with the e-mail (or username) when there is one, else none. |
| Store.Db.FindUserByEmail | internal/adapter/repository/gorm/user_repository.go:35-44 | A stored user with that e-mail when one exists; none (Go's nil, nil) iff no user has it. |
| Store.Db.FindUserByUsername | internal/adapter/repository/gorm/user_repository.go:46-55 | A stored user with that username when one exists; none iff no user has it. |
| Store.Db.CreateUser | internal/adapter/repository/gorm/user_repository.go:23-33 | A user is appended iff its id, username and e-mail are all free (the unique indexes). Otherwise nothing changes. |
| Models.ItemsToDomain | internal/adapter/repository/gorm/models/order.go:41-52 | Every item row is mapped, in order. |
| Models.OrderToDomain | internal/adapter/repository/gorm/models/order.go:40-64 | Every column is copied, and the status becomes an OrderStatus. |
| Models.ItemsFromDomain | internal/adapter/repository/gorm/models/order.go:71-82 | Every item is mapped in order and tied to the order's id. |
| Models.OrderFromDomain | internal/adapter/repository/gorm/models/order.go:66-94 | Nil maps to nil; otherwise the columns are copied and the items are tied to the order. |
| Models.WithOrderId | internal/adapter/repository/gorm/models/order.go:72-82 | Each item keeps its fields except the order id. |
| Models.OrderRoundTrip | internal/adapter/repository/gorm/models/order.go:40-94 | Writing and reading an order gives it back, with its items re-tied to it. An order whose items already point at it comes back unchanged. |
| Models.OrderRecordRoundTrip | internal/adapter/repository/gorm/models/order.go:40-94 | Reading and writing a row gives it back, with its items re-tied. |
| Models.ImagesToDomain | internal/adapter/repository/gorm/models/product.go:29-32 | Every preloaded image row is mapped, in order. |
| Models.ProductToDomain | internal/adapter/repository/gorm/models/product.go:28-45 | Every column is copied, with one image per image row. |
| Models.ProductFromDomain | internal/adapter/repository/gorm/models/product.go:47-62 | Nil maps to nil, and the images are not written. |
| Models.ProductRoundTrip | internal/adapter/repository/gorm/models/product.go:28-62 | A product written and read back is itself without images. |
| Models.ProductRecordRoundTrip | internal/adapter/repository/gorm/models/product.go:28-62 | A row read and written back is itself without images. |
| Models.ProductImagesPreserved | internal/adapter/repository/gorm/models/product.go:29-32 | The k-th image is the k-th image row. |
| Models.UserFromDomain | internal/adapter/repository/gorm/models/user.go:40-53 | Nil maps to nil. The role becomes its name, and the associations are left empty. |
| Models.UserRoundTrip | internal/adapter/repository/gorm/models/user.go:28-53 | A user written and read back is unchanged. |
| Models.UserRecordRoundTrip | internal/adapter/repository/gorm/models/user.go:28-53 | A row read and written back is itself without its associations. |
| ProductService.ValidateCreateInput | internal/usecase/product/service.go:160-177 | Input is accepted iff all hold: the trimmed name is 3 to 100 bytes, the trimmed description is at least 10 bytes, the price is positive, the stock is not negative, and the trimmed category is not blank. The first broken rule, in the order name, description, price, stock, category, is the error reported. |
| ProductService.CreateValidSound | internal/usecase/product/service.go:44-59 | Accepted input builds a product meeting the creation rules. |
| ProductService.CreateValidComplete | internal/usecase/product/service.go:44-59 | Input whose product would meet the rules is accepted. |
| ProductService.CreateSpecResult | internal/usecase/product/service.go:44-66 | Create succeeds iff the input is valid and the id is free. It stores the trimmed product with no images, and otherwise writes nothing. |
| ProductService.CreateSpecMeetsRules | internal/usecase/product/service.go:44-66 | A created product meets the creation rules. |
| ProductService.UpdateError | internal/usecase/product/service.go:179-214 | An update is accepted iff each given field is acceptable: name, description and category not blank once trimmed, price positive, stock not negative. The first failing field, in the order name, description, price, stock, category, is the error reported. |
| ProductService.Updated | internal/usecase/product/service.go:179-214 | Each given field is written, text trimmed. Absent fields, id, owner, images and timestamps stay. |
| ProductService.UpdatePreservesSellable | internal/usecase/product/service.go:179-214 | An accepted update keeps the price positive and the stock not negative. |
| ProductService.UpdateNothingIsIdentity | internal/usecase/product/service.go:179-214 | An empty update is accepted and changes nothing. |
| ProductService.UpdatedIdempotent | internal/usecase/product/service.go:179-214 | Applying an update twice is applying it once. |
| ProductService.ApplyUpdate | internal/usecase/product/service.go:179-214 | The field-by-field method reports UpdateError, and on success yields Updated. |
| ProductService.UpdateSpecErrors | internal/usecase/product/service.go:68-85 | A missing product is "product not found", and a failed update writes nothing. |
| ProductService.UpdateSpecWrites | internal/usecase/product/service.go:68-85 | A successful update rewrites that one row with the updated fields and now, keeping id and owner. |
| ProductService.DeleteRemovesIff | internal/usecase/product/service.go:87-106 | The product goes iff it exists and no pending order refers to it. A pending order gives "product has pending orders", and a missing product gives "product not found". |
| ProductService.DeleteTwice | internal/usecase/product/service.go:87-106 | Deleting a deleted product is "product not found". |
| ProductService.PageOf | internal/usecase/product/service.go:117-120 | The page is at least 1 and keeps a given positive page. |
| ProductService.PageSizeOf | internal/usecase/product/service.go:122-128 | The size defaults to 10, is capped at 100, and keeps a size in range. |
| ProductService.Filter | internal/usecase/product/service.go:130-135 | The limit is the normalised size, and the offset is (page - 1) times the limit. |
| ProductService.NormaliseIdempotent | internal/usecase/product/service.go:117-137 | Normalising a normalised input changes neither its filter nor its key. |
| ProductService.SplitLastColon | internal/usecase/product/service.go:137 | In x:d with colon-free d, x and d are determined. |
| ProductService.DecimalColonFree | internal/usecase/product/service.go:137 | A %d rendering holds no colon. |
| ProductService.ListKeyInjective | internal/usecase/product/service.go:137 | Equal cache keys mean equal search, page and size. |
| ProductService.SameKeySameQuery | internal/usecase/product/service.go:137-153 | Two listings sharing a cache key send the same limit, offset and lower-cased search. The cache therefore never serves a page of another query. |
| ProductService.ProductService.Create | internal/usecase/product/service.go:44-66 | The result and the products table are those of CreateSpec. |
| ProductService.ProductService.Update | internal/usecase/product/service.go:68-85 | The result and the products table are those of UpdateSpec. |
| ProductService.ProductService.Delete | internal/usecase/product/service.go:87-106 | The result and the products table are those of DeleteSpec. |
| ProductService.ProductService.GetByID | internal/usecase/product/service.go:108-114 | Found iff stored, with its images; any failure is "product not found". |
| ProductService.ProductService.Paging | internal/usecase/product/service.go:117-137 | The method computes Filter and the cache key. |
| ProductService.ProductService.List | internal/usecase/product/service.go:116-158 | Without a cache, the answer is the query's. A live entry is returned without querying. A miss runs the query and caches only a successful page. |
| Cache.Unexpired | pkg/cache/memory.go:50-54 | Exactly the entries whose expiration is not before now. |
| Cache.AfterSetBounded | pkg/cache/memory.go:44-64 | Set never lets the cache exceed its bound. |
| Cache.AfterSetFullUnchanged | pkg/cache/memory.go:47-58 | A full cache with nothing expired drops the new value and is unchanged. |
| Cache.AfterSetStores | pkg/cache/memory.go:47-63 | With room, the key gets the value and expires at now + ttl. No other entry changes, and one is dropped only when the cache was full and that entry had expired. |
| Cache.SetThenGet | pkg/cache/memory.go:31-63 | With room and a non-negative ttl, a value just set is read back at the same instant. |
| Cache.MemoryCache.constructor | pkg/cache/memory.go:20-29 | The cache starts empty, and a bound of zero or less becomes the default 1000. |
| Cache.MemoryCache.Get | pkg/cache/memory.go:31-42 | A hit iff the key is present and now is not after its expiration, giving its value. |
| Cache.MemoryCache.Set | pkg/cache/memory.go:44-64 | The new entries are AfterSet of the old ones. |
| Cache.SubsetCard | pkg/cache/memory.go:47-58 | A subset is no larger, and as large only when equal. |
| RateLimit.Recent | internal/adapter/middleware/reate-limitter.go:43-51 | Exactly the timestamps after the window start, in order. |
| RateLimit.Decide | internal/adapter/middleware/reate-limitter.go:31-68 | Only the requesting client's entry can change. |
| RateLimit.DecideRecords | internal/adapter/middleware/reate-limitter.go:39-64 | A request is allowed iff fewer than limit requests are in the window. An allowed request is recorded after the cleaned window; a refused one leaves the client's entry pruned to the window (a client with no entry stays without one). |
| RateLimit.DecideBounded | internal/adapter/middleware/reate-limitter.go:54-64 | With a positive limit no client holds more than limit timestamps. |
| RateLimit.SortedAppend | internal/adapter/middleware/reate-limitter.go:64 | Appending the latest time keeps the record ascending. |
| RateLimit.RecentSorted | internal/adapter/middleware/reate-limitter.go:43-51 | The cleaned window keeps ascending order. |
| RateLimit.DecideSorted | internal/adapter/middleware/reate-limitter.go:39-64 | With a clock that does not run backwards, every client's timestamps stay ascending. |
| RateLimit.RateLimiter.constructor | internal/adapter/middleware/reate-limitter.go:22-28 | The limiter starts with no requests recorded. |
| RateLimit.RateLimiter.Allow | internal/adapter/middleware/reate-limitter.go:31-68 | The decision and the new table are those of Decide. |
| Cloudinary.UrlOf | pkg/cloudinary/uploader.go:113-119 | The secure URL when present, else the URL. A reply with neither is an error. |
| Cloudinary.UploadUnsigned | pkg/cloudinary/uploader.go:54-120 | A missing preset is refused before sending. Otherwise the preset form (folder only when set) is posted and its URL returned. |
| Cloudinary.FormatInt | pkg/cloudinary/uploader.go:141 | The decimal timestamp is never empty. |
| Cloudinary.SignedParamsShape | pkg/cloudinary/uploader.go:129-142 | The parameters hold the timestamp, the folder when set, and every non-empty option. An option may override the folder. |
| Cloudinary.MergeParams | pkg/cloudinary/uploader.go:129-142 | The merge loop yields SignedParams. |
| Cloudinary.LeastExists | pkg/cloudinary/uploader.go:219 | A non-empty key set has a least key in byte order. |
| Cloudinary.SortedKeys | pkg/cloudinary/uploader.go:215-219 | The keys in strictly ascending byte order, no more and no fewer. |
| Cloudinary.ConsSorted | pkg/cloudinary/uploader.go:219 | A key below every key of a sorted list can lead it. |
| Cloudinary.SortedUnique | pkg/cloudinary/uploader.go:219 | A strictly ascending list is determined by its keys, so the order signed does not depend on map iteration. |
| Cloudinary.SortStrings | pkg/cloudinary/uploader.go:219 | The sort loop returns the keys strictly ascending. |
| Cloudinary.CollectKeys | pkg/cloudinary/uploader.go:215-218 | The collection loop gathers every key of the map. |
| Cloudinary.RenderStep | pkg/cloudinary/uploader.go:221-228 | One more key appends its pair after '&'. |
| Cloudinary.Join | pkg/cloudinary/uploader.go:221-229 | The buffer loop writes the pairs in the given order, then the secret. |
| Cloudinary.Sign | pkg/cloudinary/uploader.go:214-232 | The signature is the digest of the pre-image: pairs in ascending key order, then the secret. |
| Cloudinary.PreImageEmpty | pkg/cloudinary/uploader.go:214-232 | With no parameters the secret alone is signed. |
| Cloudinary.SortedKeysTwo | pkg/cloudinary/uploader.go:219 | Two keys are ordered smaller first. |
| Cloudinary.RenderTwo | pkg/cloudinary/uploader.go:221-228 | Two keys render as k1=v1&k2=v2. |
| Cloudinary.PreImageTwo | pkg/cloudinary/uploader.go:214-232 | Two parameters are signed as smaller=v&larger=v then the secret, whatever the map order. |
| Cloudinary.SignedUploadNeedsCredentials | pkg/cloudinary/uploader.go:125-127 | Without both key and secret the upload is refused, and a success implies both. |
| Cloudinary.UploadSigned | pkg/cloudinary/uploader.go:124-210 | The method computes SignedUpload: credentials, parameters, signature, post, URL. |
| ImageService.SafeFilename | internal/usecase/product/image_service.go:97-101 | The name is never empty and holds no space, and no slash unless it is "/". |
| ImageService.SafeFilenameKeepsPlainName | internal/usecase/product/image_service.go:97-101 | A plain name is kept. |
| ImageService.SafeFilenameIdempotent | internal/usecase/product/image_service.go:97-101 | Sanitising twice is sanitising once. |
| ImageService.WireUploader | internal/infrastructure/container/di-container.go:74-80 | A client is built iff the cloud is named and a preset or key is set. |
| ImageService.UnconfiguredCloudDereferencesNil | internal/usecase/product/image_service.go:67-71 | As written, an unconfigured service dereferences the nil client on the first openable file. |
| ImageService.UploadOneCorrectsOnlyNil | internal/usecase/product/image_service.go:67-71 | The correction differs from the code only where the client is nil. |
| ImageService.UploadOneUrl | internal/usecase/product/image_service.go:67-76 | An uploaded URL is never empty and needs a client. |
| ImageService.Uploads | internal/usecase/product/image_service.go:56-83 | The images, all of the product and stamped now, are no more than the files. |
| ImageService.Succeeded | internal/usecase/product/image_service.go:72-81 | The ascending indices of files whose upload succeeded. |
| ImageService.SucceededComplete | internal/usecase/product/image_service.go:72-81 | Every successful file is among them. |
| ImageService.UploadsKeepSuccesses | internal/usecase/product/image_service.go:56-83 | The k-th image is the URL of the k-th successful file, with a fresh id. |
| ImageService.UploadsOpenErrors | internal/usecase/product/image_service.go:57-60 | The loop fails iff some file cannot be opened, with the first such error. |
| ImageService.UploadsErrSticks | internal/usecase/product/image_service.go:57-60 | A failure on a prefix is the failure of the loop. |
| ImageService.NothingUploads | internal/usecase/product/image_service.go:72-75 | When every upload fails, no image results. |
| ImageService.ImagesOfAppend | internal/adapter/repository/gorm/product_image_repository.go:44-54 | A product's images in a concatenation are those of each part. |
| ImageService.ImagesOfAllSame | internal/adapter/repository/gorm/product_image_repository.go:44-54 | Images all of one product are all its images. |
| ImageService.ImagesOfIn | internal/adapter/repository/gorm/product_image_repository.go:44-54 | A product's images are stored images. |
| ImageService.UploadSpecRefusals | internal/usecase/product/image_service.go:41-86 | These cases are refused and nothing is stored: no files, more than four files, more than four images in all, and (with openable files) no successful upload. |
| ImageService.UploadSpecStores | internal/usecase/product/image_service.go:84-90 | Success stores exactly the returned images, 1 to 4, all of the product. The product then has at most four. |
| ImageService.UnconfiguredCloudStoresNothing | internal/usecase/product/image_service.go:67-86 | Corrected, an unconfigured service refuses every request and stores nothing; openable files give "no image uploaded". |
| ImageService.ImageService.UploadFile | internal/usecase/product/image_service.go:63-71 | One file's upload agrees with Upload. |
| ImageService.ImageService.UploadEach | internal/usecase/product/image_service.go:56-83 | The loop yields Uploads. |
| ImageService.ImageService.Store | internal/usecase/product/image_service.go:84-90 | The end of the request agrees with StoreSpec. |
| ImageService.ImageService.UploadImages | internal/usecase/product/image_service.go:40-91 | The result and the image table are those of UploadSpec. |
| ImageService.ImageService.ListImages | internal/usecase/product/image_service.go:93-95 | Exactly the product's images, as many as the count. |
| AuthService.MatchesClassIff | internal/usecase/auth/service.go:177-182 | An unanchored class pattern matches iff some character is in the class. |
| AuthService.MatchesUsernamePatternIff | internal/usecase/auth/service.go:23 | ^[a-zA-Z0-9]+$ matches iff the text is non-empty ASCII letters and digits. |
| AuthService.PasswordRule | internal/usecase/auth/service.go:172-183 | A valid password has at least 8 bytes, a lower-case letter, an upper-case letter, a digit and a symbol. |
| AuthService.ValidPasswordNotBlank | internal/usecase/auth/service.go:86-88 | A valid password is never blank at login. |
| AuthService.AlnumIsTrimmed | internal/usecase/auth/service.go:125-127 | ASCII letters and digits need no trimming. |
| AuthService.UsernameRule | internal/usecase/auth/service.go:125-127 | A username is valid iff it is non-empty letters and digits. The blank test adds nothing, and a valid name is its own trim. |
| AuthService.ValidateEmail | internal/usecase/auth/service.go:152-161 | Accepted iff the trimmed address is non-empty and parses. Blank gives "cannot be empty", else "invalid format". |
| AuthService.ResolveRoleIff | internal/usecase/auth/service.go:163-170 | The role is admin iff the trimmed, lower-cased text is "admin"; else user. |
| AuthService.LowerWordFixed | internal/usecase/auth/service.go:163-170 | A lower-case word is unchanged by trim and lower. |
| AuthService.RoleNamesFixed | internal/usecase/auth/service.go:163-170 | The role names are their own normal form. |
| AuthService.ResolveRoleIdempotent | internal/usecase/auth/service.go:163-170 | Resolving a resolved role's name gives the same role. |
| AuthService.ValidateRegisterIff | internal/usecase/auth/service.go:124-150 | A registration is valid iff username, e-mail and password hold and neither the normalised e-mail nor the username is taken. |
| AuthService.RegisterCheckOrder | internal/usecase/auth/service.go:124-135 | Each format error is reported only when the earlier checks pass. |
| AuthService.RegisterTakenOrder | internal/usecase/auth/service.go:137-147 | "email taken" precedes "username taken", and both come only after the formats pass. |
| AuthService.ValidatedUserIsUnique | internal/usecase/auth/service.go:58-80 | A validated registration with a fresh id writes a unique user. |
| AuthService.IssueToken | internal/usecase/auth/service.go:105-122 | Succeeds iff a token is signed. The response carries the token, expiry now + ttl and the user's fields. |
| AuthService.RegisterStores | internal/usecase/auth/service.go:58-83 | A successful registration stores one user: trimmed username, normalised e-mail, hashed password, resolved role. A failed one stores nothing. |
| AuthService.LoginRefusals | internal/usecase/auth/service.go:85-103 | A blank field, an unknown e-mail or a wrong password is "invalid credentials". A success is for a stored user whose password compares. |
| AuthService.RegisterThenLogin | internal/usecase/auth/service.go:58-103 | A user who has just registered can log in with the same e-mail and password. |
| AuthService.FirstUserAppend | internal/adapter/repository/gorm/user_repository.go:35-44 | A new e-mail finds the user appended with it. |
| AuthService.AuthService.Register | internal/usecase/auth/service.go:58-83 | The result and the user table are those of RegisterSpec. |
| AuthService.AuthService.Insert | internal/usecase/auth/service.go:78-82 | The insert-then-token tail agrees with InsertSpec. |
| AuthMiddleware.SplitAtSpace | internal/adapter/middleware/auth.go:115-118 | No split iff the text has no space. Otherwise head + " " + tail with no space in the head. |
| AuthMiddleware.SplitAtSpaceUnique | internal/adapter/middleware/auth.go:115-118 | The split is at the first space. |
| AuthMiddleware.ExtractTokenIff | internal/adapter/middleware/auth.go:111-123 | The token is the trimmed rest iff the scheme is "bearer" in any case; else it is empty. |
| AuthMiddleware.ExtractTokenNeedsSpace | internal/adapter/middleware/auth.go:112-118 | A header without a space gives no token. |
| AuthMiddleware.ExtractTokenTrimmed | internal/adapter/middleware/auth.go:122 | A token has no surrounding space. |
| AuthMiddleware.LowerBearer | internal/adapter/middleware/auth.go:119-121 | "Bearer" is accepted. |
| AuthMiddleware.ExtractTokenRoundTrip | internal/adapter/middleware/auth.go:111-123 | "<bearer scheme> <trimmed token>" gives back the token. |
| AuthMiddleware.RequireAuthIff | internal/adapter/middleware/auth.go:36-63 | The request goes on iff a token is found and parses, carrying its claims; otherwise 401. No token means 401 with message "authorization token missing" and error "authorization header missing", and the parser is not consulted. A rejected token means 401 "invalid token" with the parser's reason as the error. |
| AuthMiddleware.RoleSet | internal/adapter/middleware/auth.go:66-69 | The set holds exactly the given roles. |
| AuthMiddleware.RequireRolesIff | internal/adapter/middleware/auth.go:65-99 | The request goes on iff claims are present and the set is empty or holds the role. Otherwise it is 401 for no claims and 403 for a wrong role. |
| AuthMiddleware.AuthThenAdminGate | internal/adapter/middleware/auth.go:36-99 | Behind RequireAuth the administrator gate never answers 401: it passes iff the role is admin, and otherwise answers 403. |
| AuthMiddleware.GetUserClaims | internal/adapter/middleware/auth.go:101-109 | The claims and true when the context holds claims; otherwise false with the zero claims (id 0, empty username, empty role). |
| AuthMiddleware.GateThenClaims | internal/adapter/middleware/auth.go:97-109 | A handler behind the gate reads the claims that went on. |
| Response.SuccessBase | pkg/response/response.go:29-35 | A success envelope holds the message and the data, and no errors. |
| Response.ErrorBase | pkg/response/response.go:39-45 | A failure envelope holds the message and the errors, and no data. |
| Response.CeilDivBounds | pkg/response/response.go:49-55 | The ceiling lies within one size of the total. |
| Response.TotalPagesCover | pkg/response/response.go:49-55 | The pages hold every product, and the last page is not empty. |
| Response.TotalPagesAtLeastOne | pkg/response/response.go:49-55 | There is always at least one page, and exactly one for no products or no size. |
| Response.TotalPagesLeast | pkg/response/response.go:49-55 | Fewer pages cannot hold the total. |
| Response.SuccessPaginated | pkg/response/response.go:48-66 | The paginated envelope carries the paging fields and TotalPages. |
| Response.StatusCodeFromBool | pkg/response/response.go:69-74 | 200 iff success, else 400. |
| Text.TrimLeft | internal/usecase/auth/service.go:125 | Leading white space removed, and nothing else. |
| Text.TrimRight | internal/usecase/auth/service.go:125 | Trailing white space removed, and nothing else. |
| Text.TrimSpace | internal/usecase/auth/service.go:125 | Trimming never lengthens. |
| Text.TrimSpaceEnds | internal/adapter/middleware/auth.go:122 | A trimmed text neither starts nor ends with space, and is empty iff the text is all space. |
| Text.TrimSpaceOfTrimmed | internal/adapter/middleware/auth.go:122 | A text without surrounding space is its own trim. |
| Text.TrimSpaceIdempotent | internal/usecase/product/service.go:161 | Trimming is idempotent. |
| Text.LowerChar | internal/usecase/auth/service.go:164 | Upper-case ASCII goes to lower case; other characters stay, except two that lower to ASCII. |
| Text.ToLower | internal/usecase/auth/service.go:164 | Lower-casing works character by character. |
| Text.ToLowerIdempotent | internal/usecase/product/service.go:137 | Lower-casing is idempotent. |
| Text.Utf8Width | internal/usecase/product/service.go:161 | One to four bytes, one iff ASCII. |
| Text.ByteLen | internal/usecase/product/service.go:161 | len() counts between one and four bytes per character, and is zero iff empty. |
| Text.ByteLenAscii | internal/usecase/auth/service.go:173 | For ASCII text the byte length is the length. |
| Text.ReplaceChar | internal/usecase/product/image_service.go:99 | Each occurrence is replaced, and nothing else. |
| Text.StripTrailingSlashes | internal/usecase/product/image_service.go:98 | Only trailing slashes are removed. |
| Text.AfterLastSlash | internal/usecase/product/image_service.go:98 | The slash-free tail after the last slash. |
| Text.Base | internal/usecase/product/image_service.go:98 | filepath.Base is never empty: "/", "." or the last element. |
| Text.BaseOfPlainName | internal/usecase/product/image_service.go:98 | A name without slashes is its own base. |
| Text.LessIrreflexive | pkg/cloudinary/uploader.go:219 | Byte order is irreflexive. |
| Text.LessTransitive | pkg/cloudinary/uploader.go:219 | Byte order is transitive. |
| Text.LessTotal | pkg/cloudinary/uploader.go:219 | Byte order is total on distinct strings. |
| Text.LessAsymmetric | pkg/cloudinary/uploader.go:219 | Byte order is asymmetric. |
| Text.DigitChar | internal/usecase/product/service.go:137 | A digit's character. |
| Text.Decimal | internal/usecase/product/service.go:137 | The decimal rendering is non-empty digits, with at least two for n >= 10. |
| Text.DecimalInjective | internal/usecase/product/service.go:137 | Different numbers render differently. |

## Left out

- Concurrency: the mutexes of the cache and of the rate limiter are not modelled. Each call is atomic in the model.
- Money: prices and totals are `float64` in Go. The model uses unbounded integers (minor units), so rounding in the total and in `math.Ceil` of the page count is not modelled.
- Time: each operation reads the clock once, as the parameter `now`. Go calls `time.Now()` separately for the order, the items and the images. Durations are integers.
- Identifiers: `uuid.New()` is the parameter `newId`. The repositories' replacement of a nil id by a fresh one is not modelled, because the services always supply ids.
- Cache values: the `interface{}` values and the `[2]interface{}` type assertions of the listing cache are a typed page. A cached value of another type cannot arise in the model.
- Ordering: the `ORDER BY created_at` of product listing, order listing and image listing is not modelled. The listing query is the parameter `query`, and the lists are the stored rows in insertion order.
- Store errors: database failures other than "not found" and a taken key are not modelled. These include a failing count in the image upload, a failing lookup in registration, and a failing pending-order query in delete.
- Text.ToLower: only ASCII and the two non-ASCII characters whose lower case is ASCII (U+0130, U+212A) are lowered. Other Unicode case mappings are not modelled.
- Text.Base: `filepath.Base` follows Unix paths. Windows volume names are not modelled.
- ProductService.ApplyUpdate: on a refused field, Go has already written the earlier fields into the product. The model states nothing about the product returned with an error, because the service discards it.
- AuthService.RegisterStores: the wrapping texts of hashing and token errors ("hash password: ...", "generate token: ...") are not modelled. The collaborator's error is passed through.
- AuthService.LoginRefusals: Login is a function over the user table. The lookup-error path is not modelled.
- Cloudinary.UploadUnsigned and Cloudinary.UploadSigned: building the multipart body, the HTTP status, JSON decoding and transport errors are all one `send` parameter.
- Hashing and tokens: SHA-1 (`digest`), bcrypt (`hash`, `compare`), JWT issuing (`tokens`) and parsing (`parse`), and the e-mail parser (`parses`) are parameters.
- Logging (zap) is not modelled.
- ProductService.Filter and ProductService.Paging: Go computes the offset (page - 1) * pageSize in 64 bits (internal/usecase/product/service.go:130). For a huge page this wraps, possibly to a negative value, and the repository then drops the OFFSET clause (internal/adapter/repository/gorm/product_repository.go:99-101). The model uses unbounded integers, so it does not capture the wrap.
- The corrected upload gives a nil client the error "image uploader not configured". The code has no message for this case.
- The HTTP handlers, routing, request binding, configuration loading and the category stubs are not part of this model.

## Findings

| source | as written | input that shows it | evidently intended | confidence | as-written member | corrected member |
|---|---|---|---|---|---|---|
| internal/usecase/product/image_service.go:67-71 | When the client is nil, the else branch calls `s.uploader.UploadUnsigned`, which reads a field of the nil client and panics. | Configuration with an empty cloud name (the container then passes a nil client), and a request of 1 to 4 openable files within the product's image limit. | The upload of each file fails and is skipped, so the request ends with "no image uploaded" and stores nothing. | not executed | ImageService.UnconfiguredCloudDereferencesNil | ImageService.UnconfiguredCloudStoresNothing |
