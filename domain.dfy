/** The domain records of the shop (users, products and their images,
    orders and their line items) and its named errors.

    Identifiers are naturals (uuid.New() becomes a parameter wherever the
    services call it), instants and durations are integers, and money is an
    integer count of minor currency units instead of float64. */
module Domain {

  type Uuid = nat
  type Time = int
  type Duration = int
  type Money = int

  datatype Option<T> = None | Some(value: T)

  /** What a Go function returning (T, error) gives back. */
  datatype Result<T> = Ok(value: T) | Err(error: Error)

  /** What a Go function returning only an error gives back. */
  datatype Outcome = Pass | Fail(error: Error)

  /** The named string type OrderStatus. */
  datatype OrderStatus = OrderStatus(name: string)

  const ORDER_STATUS_PENDING := OrderStatus("pending")
  const ORDER_STATUS_COMPLETED := OrderStatus("completed")
  const ORDER_STATUS_CANCELLED := OrderStatus("cancelled")

  /** The named string type Role. */
  datatype Role = Role(name: string)

  const ROLE_ADMIN := Role("admin")
  const ROLE_USER := Role("user")

  datatype ProductImage = ProductImage(id: Uuid, productId: Uuid, url: string, createdAt: Time)

  /** A product. The images are those the store preloads when it reads the
      product back; a product row as stored carries none. */
  datatype Product = Product(
    id: Uuid,
    name: string,
    description: string,
    price: Money,
    stock: int,
    category: string,
    userId: Uuid,
    images: seq<ProductImage>,
    createdAt: Time,
    updatedAt: Time)

  /** A line of an order, with the unit price captured when it was placed. */
  datatype OrderItem = OrderItem(
    id: Uuid,
    productId: Uuid,
    orderId: Uuid,
    quantity: int,
    unitPrice: Money,
    createdAt: Time,
    updatedAt: Time)

  datatype Order = Order(
    id: Uuid,
    userId: Uuid,
    description: string,
    totalPrice: Money,
    status: OrderStatus,
    items: seq<OrderItem>,
    createdAt: Time,
    updatedAt: Time)

  datatype User = User(
    id: Uuid,
    username: string,
    email: string,
    password: string,
    role: Role,
    createdAt: Time,
    updatedAt: Time)

  /** The sentinel errors, and the formatted errors the services build. */
  datatype Error =
    | EmailAlreadyExists
    | UsernameAlreadyExists
    | InvalidCredentials
    | ProductNotFound
    | InvalidPasswordFormat
    | InvalidUsernameFormat
    | InvalidEmailFormat
    | EmailCannotEmpty
    | ProductHasPendingOrders
      /** "insufficient stock: <product name>", which wraps the sentinel. */
    | InsufficientStock(productName: string)
      /** "quantity for product <id> must be greater than zero" */
    | NonPositiveQuantity(productId: Uuid)
      /** An error built with one of the fixed messages of Rule. */
    | Invalid(rule: Rule)
      /** The store refused a row whose primary or unique key is taken. */
    | DuplicateKey(table: string)
      /** An error reported by a collaborator outside the model (hasher,
          token issuer, file system, remote upload). */
    | Collaborator(message: string)

  /** The input rules whose violation the services report with a fixed
      message. */
  datatype Rule =
    | OrderEmpty
    | NameLength | DescriptionLength | PriceRequired | StockRequired | CategoryRequired
    | NameEmpty | DescriptionEmpty | PriceNotPositive | StockNegative | CategoryEmpty
    | NoFiles | TooManyFiles | ImageLimit | NoImageUploaded
    | PresetRequired | CredentialsRequired | MissingUrl
    | NoUploader

  /** The message each rule is reported with. */
  function Message(rule: Rule): string {
    match rule
    case OrderEmpty => "order must contain at least one item"
    case NameLength => "required:name must be between 3 and 100 characters"
    case DescriptionLength => "required:description must be at least 10 characters"
    case PriceRequired => "required:price must be greater than zero"
    case StockRequired => "required:stock must be non-negative"
    case CategoryRequired => "required:category is required"
    case NameEmpty => "name cannot be empty"
    case DescriptionEmpty => "description cannot be empty"
    case PriceNotPositive => "price must be greater than zero"
    case StockNegative => "stock must be non-negative"
    case CategoryEmpty => "category cannot be empty"
    case NoFiles => "no files provided"
    case TooManyFiles => "maximum 4 images allowed per request"
    case ImageLimit => "upload would exceed limit of 4 images per product"
    case NoImageUploaded => "no image uploaded"
    case PresetRequired => "upload preset required for unsigned upload"
    case CredentialsRequired => "api key/secret required for signed upload"
    case MissingUrl => "cloudinary response missing url"
    // Not in the source: the failure the corrected upload gives when no
    // uploader is configured (see ImageService.UploadFile).
    case NoUploader => "image uploader not configured"
  }
}
