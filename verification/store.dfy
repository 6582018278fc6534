/** The backend's persistent state (the Prisma models the services read and write), held
    in memory: one table per model, each a sequence of rows in insertion order, so that
    `find_first` is the first matching row and `find_many` keeps table order. */
module Store {
  import opened Wrappers
  import Seqs
  import Security

  const CustomerRole := "CUSTOMER"
  const SellerRole := "SELLER"
  const AdminRole := "ADMIN"

  /** Moments are whole seconds on one clock; the services receive "now" as a parameter. */
  type Instant = int

  const Hour: int := 3600
  const Day: int := 24 * Hour

  /** The calendar fields of a timestamp that the seller statistics compare. */
  datatype CalendarDate = CalendarDate(year: int, month: int)

  datatype User = User(
    id: int,
    name: string,
    email: string,
    phone: Option<string>,
    passwordHash: string,
    role: string,
    referralCode: string,
    referredById: Option<int>,
    emailVerified: bool,
    emailVerificationToken: Option<string>,
    emailVerificationExpires: Option<Instant>,
    passwordResetToken: Option<string>,
    passwordResetExpires: Option<Instant>,
    isBanned: bool)

  datatype Product = Product(
    id: int,
    sellerId: int,
    name: string,
    description: string,
    basePrice: real,
    discountPrice: Option<real>,
    categoryId: int,
    brand: string,
    colors: seq<string>,
    sizes: seq<string>,
    images: seq<string>,
    isActive: bool)

  /** Order status values, as the services write them. */
  const Pending := "PENDING"
  const Paid := "PAID"
  const Canceled := "CANCELED"
  /** Payment status values. */
  const Unpaid := "UNPAID"
  const Failed := "FAILED"

  datatype Order = Order(
    id: int,
    customerId: int,
    totalAmount: real,
    status: string,
    paymentStatus: string,
    createdAt: Option<CalendarDate>,
    authority: Option<string>,
    paymentAmount: Option<real>,
    paymentGateway: Option<string>,
    paymentMessage: Option<string>,
    refId: Option<int>,
    cardPan: Option<string>,
    feeType: Option<string>,
    fee: Option<int>)

  datatype OrderItem = OrderItem(
    id: int, orderId: int, productId: int, quantity: int, unitPrice: real, totalPrice: real)

  datatype Commission = Commission(
    id: int, orderId: int, fromUserId: int, toUserId: int, level: int, amount: real, status: string)

  datatype RefreshToken = RefreshToken(id: int, userId: int, token: string, expiresAt: Instant)

  datatype Db = Db(
    users: seq<User>,
    products: seq<Product>,
    orders: seq<Order>,
    orderItems: seq<OrderItem>,
    commissions: seq<Commission>,
    refreshTokens: seq<RefreshToken>)

  /** Why a request was refused; each reason has one fixed Persian detail text in the source. */
  datatype Reason =
    | CartEmpty | ProductsUnavailable
    | OrderNotFound | NotOrderOwner | AlreadyPaid | InvalidAmount | GatewayUnavailable(message: string)
    | ProductNotFound
    | WeakPassword(broken: Security.Rule) | EmailTaken | PhoneTaken | DuplicateContact
    | InvalidReferralCode | ReferralCodeExhausted
    | LoginFailed | AccountBanned | InvalidVerificationLink | UserNotFound | AlreadyVerified
    | InvalidResetLink | InvalidToken | TokenExpired | Forbidden
    | PaymentConfigIncomplete
    | Unhandled

  /** An HTTP error response: the status code and the reason behind its detail text. */
  datatype HttpError = HttpError(status: int, reason: Reason)

  /** The row-selection predicates of `find_unique(where={"id": id})`. */
  function UserHasId(id: int): User -> bool {
    (u: User) => u.id == id
  }

  function ProductHasId(id: int): Product -> bool {
    (p: Product) => p.id == id
  }

  function OrderHasId(id: int): Order -> bool {
    (o: Order) => o.id == id
  }

  function UserById(db: Db, id: int): (r: Option<User>)
    ensures r.Some? ==> r.value in db.users && r.value.id == id
    ensures r.None? <==> forall k :: 0 <= k < |db.users| ==> db.users[k].id != id
  {
    Seqs.First(db.users, UserHasId(id))
  }

  function ProductById(db: Db, id: int): (r: Option<Product>)
    ensures r.Some? ==> r.value in db.products && r.value.id == id
    ensures r.None? <==> forall k :: 0 <= k < |db.products| ==> db.products[k].id != id
  {
    Seqs.First(db.products, ProductHasId(id))
  }

  function OrderById(db: Db, id: int): (r: Option<Order>)
    ensures r.Some? ==> r.value in db.orders && r.value.id == id
    ensures r.None? <==> forall k :: 0 <= k < |db.orders| ==> db.orders[k].id != id
  {
    Seqs.First(db.orders, OrderHasId(id))
  }

  /** `update(where={"id": o.id}, ...)`: the row with that id becomes `o`. */
  function UpdateOrder(db: Db, o: Order): Db {
    db.(orders := Seqs.Replace(db.orders, OrderHasId(o.id), o))
  }

  function UpdateUser(db: Db, u: User): Db {
    db.(users := Seqs.Replace(db.users, UserHasId(u.id), u))
  }

  /** Primary keys are unique in every table the services look rows up in by id. */
  ghost predicate KeysUnique(db: Db) {
    && (forall i, j :: 0 <= i < j < |db.users| ==> db.users[i].id != db.users[j].id)
    && (forall i, j :: 0 <= i < j < |db.products| ==> db.products[i].id != db.products[j].id)
    && (forall i, j :: 0 <= i < j < |db.orders| ==> db.orders[i].id != db.orders[j].id)
  }

  /** Writing an order back by id, then looking it up, finds the written row. */
  lemma UpdateThenFind(db: Db, o: Order)
    requires OrderById(db, o.id).Some?
    ensures OrderById(UpdateOrder(db, o), o.id) == Some(o)
  {
    var k :| 0 <= k < |db.orders| && db.orders[k] == OrderById(db, o.id).value;
    assert OrderHasId(o.id)(db.orders[k]);
    Seqs.ReplaceThenFirst(db.orders, OrderHasId(o.id), o);
  }
}
