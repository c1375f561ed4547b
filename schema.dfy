/**
  The data model shared by every service: the rows of the ticketing database,
  the errors the services raise, and `Store`, the database object the services
  read and write.

  Ids are the database's autoincrement ids: the row with id `k` of a table sits at
  index `k - 1` of that table's sequence, so id 0 never names a row.
  Times are integers (milliseconds).
 */
module Schema {

  datatype Option<T> = None | Some(value: T) {
    function GetOr(default: T): T {
      match this
      case Some(v) => v
      case None => default
    }
  }

  datatype Result<T> = Ok(value: T) | Err(error: Error)

  /**
    The `ApiError`s the services throw, plus two failures of the database
    itself: a unique-key violation, and a write (or a required relation) that
    finds no row.
   */
  datatype Error =
    | EventNotFound
    | EventNotPublished
    | InvalidTicketType
    | NotEnoughTicketSeats
    | NotEnoughEventSeats
    | InvalidVoucher
    | VoucherNotActive
    | VoucherMaxUsesReached
    | InvalidCoupon
    | CouponExpired
    | CouponAlreadyUsed
    | TransactionNotFound
    | Forbidden
    | NotWaitingForPayment
    | PaymentTimeExpired
    | NotWaitingForAdminConfirmation
    | EndNotAfterStart
    | TotalSeatsTooSmall
    | NegativePrice
    | TotalSeatsBelowUsed(used: int)
    | DiscountTooSmall
    | ReviewBeforeEventEnd
    | NoDoneTransaction
    | AlreadyReviewed
    | EmailExists
    | InvalidReferralCode
    | UniqueViolation
    | RowMissing

  /** The HTTP status each error is reported with. */
  function HttpStatus(e: Error): (code: int)
    ensures code in {400, 403, 404, 500}
    ensures code == 404 <==> e in {EventNotFound, TransactionNotFound}
    ensures code == 403 <==> e in {Forbidden, NoDoneTransaction}
    ensures code == 500 <==> e in {UniqueViolation, RowMissing}
  {
    match e
    case EventNotFound => 404
    case TransactionNotFound => 404
    case Forbidden => 403
    case NoDoneTransaction => 403
    case UniqueViolation => 500
    case RowMissing => 500
    case _ => 400
  }

  datatype Status =
    | WaitingForPayment
    | WaitingForAdminConfirmation
    | Done
    | Rejected
    | Expired
    | Canceled
  {
    /** The four states no lifecycle operation leaves. */
    predicate Terminal() {
      this in {Done, Rejected, Expired, Canceled}
    }

    /** The terminal states reached through a rollback. */
    predicate RolledBack() {
      this in {Rejected, Expired, Canceled}
    }
  }

  datatype Role = Customer | Organizer

  datatype User = User(name: string, email: string, role: Role, referralCode: string, referredById: Option<nat>)

  datatype Event = Event(
    organizerId: nat,
    name: string,
    description: string,
    category: string,
    location: string,
    startAt: int,
    endAt: int,
    price: int,
    totalSeats: int,
    remainingSeats: int,
    isPublished: bool,
    imageUrl: Option<string>)

  datatype TicketType = TicketType(eventId: nat, price: int, totalSeats: int, remainingSeats: int)

  datatype Voucher = Voucher(
    eventId: nat,
    code: string,
    discountAmount: int,
    startAt: int,
    endAt: int,
    maxUses: Option<int>,
    usedCount: int)

  datatype Coupon = Coupon(userId: nat, code: string, discountAmount: int, expiresAt: int, usedAt: Option<int>)

  datatype Reason = UsedInTransaction | RollbackCredit | ReferralReward

  /** One row of the append-only point ledger; a negative amount is a debit. */
  datatype LedgerEntry = LedgerEntry(
    userId: nat,
    amount: int,
    reason: Reason,
    expiresAt: Option<int>,
    transactionId: Option<nat>,
    referenceId: Option<nat>)

  datatype Transaction = Transaction(
    customerId: nat,
    eventId: nat,
    ticketTypeId: Option<nat>,
    qty: int,
    subtotalAmount: int,
    voucherId: Option<nat>,
    voucherDiscount: int,
    couponId: Option<nat>,
    couponDiscount: int,
    pointsUsed: int,
    totalAmount: int,
    status: Status,
    paymentDueAt: int,
    paymentProofUrl: Option<string>,
    paymentProofUploadedAt: Option<int>,
    decisionDueAt: Option<int>,
    decidedAt: Option<int>)

  datatype Review = Review(eventId: nat, userId: nat, rating: int, comment: Option<string>, createdAt: int)

  /** The whole database as a value. */
  datatype Tables = Tables(
    users: seq<User>,
    events: seq<Event>,
    ticketTypes: seq<TicketType>,
    vouchers: seq<Voucher>,
    coupons: seq<Coupon>,
    ledger: seq<LedgerEntry>,
    transactions: seq<Transaction>,
    reviews: seq<Review>)

  /** Whether `id` names a row of `table`. */
  predicate Exists<T>(table: seq<T>, id: int) {
    1 <= id <= |table|
  }

  /** The row with id `id`. */
  function At<T>(table: seq<T>, id: int): T
    requires Exists(table, id)
  {
    table[id - 1]
  }

  /** `table` with row `id` replaced by `row`. */
  function Put<T>(table: seq<T>, id: int, row: T): (r: seq<T>)
    requires Exists(table, id)
    ensures |r| == |table| && At(r, id) == row
    ensures forall k :: Exists(table, k) && k != id ==> At(r, k) == At(table, k)
  {
    table[id - 1 := row]
  }

  /** JavaScript truthiness of an optional id: present and not 0. */
  predicate GivenId(o: Option<int>) {
    o.Some? && o.value != 0
  }

  /** JavaScript truthiness of a nullable foreign key: set and not 0. */
  predicate Linked(o: Option<nat>) {
    o.Some? && o.value != 0
  }

  /** JavaScript truthiness of an optional string: present and not empty. */
  predicate GivenText(o: Option<string>) {
    o.Some? && o.value != ""
  }

  function Min(a: int, b: int): int {
    if a <= b then a else b
  }

  function Max(a: int, b: int): int {
    if a >= b then a else b
  }

  /** The first row of `table` that satisfies `p` (a `findFirst`/`findUnique`). */
  function FindFirst<T>(table: seq<T>, p: T -> bool): (id: Option<nat>)
    ensures id.Some? ==> Exists(table, id.value) && p(At(table, id.value))
    ensures id.Some? ==> forall k :: 1 <= k < id.value ==> !p(At(table, k))
    ensures id.None? ==> forall k :: Exists(table, k) ==> !p(At(table, k))
  {
    FindFrom(table, p, 1)
  }

  /** The first row with id `from` or more that satisfies `p`. */
  function FindFrom<T>(table: seq<T>, p: T -> bool, from: nat): (id: Option<nat>)
    requires 1 <= from <= |table| + 1
    decreases |table| + 1 - from
    ensures id.Some? ==> from <= id.value && Exists(table, id.value) && p(At(table, id.value))
    ensures id.Some? ==> forall k :: from <= k < id.value ==> !p(At(table, k))
    ensures id.None? ==> forall k :: from <= k <= |table| ==> !p(At(table, k))
  {
    if from > |table| then None
    else if p(At(table, from)) then Some(from)
    else FindFrom(table, p, from + 1)
  }

  /** The ids, in id order, of the rows of `table` that satisfy `p` (a `findMany`). */
  function Where<T>(table: seq<T>, p: T -> bool): (ids: seq<nat>)
    ensures forall i :: 0 <= i < |ids| ==> Exists(table, ids[i]) && p(At(table, ids[i]))
    ensures forall k :: Exists(table, k) && p(At(table, k)) ==> k in ids
    ensures forall i, j :: 0 <= i < j < |ids| ==> ids[i] < ids[j]
  {
    if table == [] then []
    else
      var n := |table|;
      Where(table[..n - 1], p) + (if p(table[n - 1]) then [n] else [])
  }

  /** `findMany` finds nothing when no row matches. */
  lemma WhereEmpty<T>(table: seq<T>, p: T -> bool)
    ensures (forall k :: Exists(table, k) ==> !p(At(table, k))) ==> Where(table, p) == []
  {
    var ids := Where(table, p);
    if ids != [] {
      assert Exists(table, ids[0]) && p(At(table, ids[0]));
    }
  }

  /** The database after a sweep of one atomic block per row, and the failure that stopped it, if any. */
  datatype Swept = Swept(tables: Tables, failure: Option<Error>)

  const HOUR_MS: int := 3600000
  const DAY_MS: int := 86400000

  /** `addHours`, on millisecond timestamps. */
  function AddHours(t: int, hours: int): int {
    t + hours * HOUR_MS
  }

  /** `addDays`, on millisecond timestamps. */
  function AddDays(t: int, days: int): int {
    t + days * DAY_MS
  }

  /** The database. Each field is one table; services assign the fields directly. */
  class Store {
    var users: seq<User>
    var events: seq<Event>
    var ticketTypes: seq<TicketType>
    var vouchers: seq<Voucher>
    var coupons: seq<Coupon>
    var ledger: seq<LedgerEntry>
    var transactions: seq<Transaction>
    var reviews: seq<Review>

    function Snapshot(): Tables
      reads this
    {
      Tables(users, events, ticketTypes, vouchers, coupons, ledger, transactions, reviews)
    }

    constructor (initial: Tables)
      ensures Snapshot() == initial
    {
      users, events, ticketTypes := initial.users, initial.events, initial.ticketTypes;
      vouchers, coupons, ledger := initial.vouchers, initial.coupons, initial.ledger;
      transactions, reviews := initial.transactions, initial.reviews;
    }

    /** Puts every table back to `t`: what an aborted atomic block does to its writes. */
    method Load(t: Tables)
      modifies this
      ensures Snapshot() == t
    {
      users, events, ticketTypes := t.users, t.events, t.ticketTypes;
      vouchers, coupons, ledger := t.vouchers, t.coupons, t.ledger;
      transactions, reviews := t.transactions, t.reviews;
    }
  }
}
