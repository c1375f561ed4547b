/**
  `TransactionService.create`: one atomic block that reserves seats, redeems a
  voucher and a coupon, debits points and inserts the transaction row.

  `PlanCreate` is every check of the block together with the amounts it
  computes; `AfterCreate` is the database once the block commits. The method
  `Create` performs the block step by step against a `Store`.
 */
module TransactionCreation {
  import opened Schema
  import opened Integrity
  import opened TransactionAmounts

  /** The request body; `ticketTypeId` is read by the service although the DTO does not declare it. */
  datatype CreateBody = CreateBody(
    eventId: int,
    ticketTypeId: Option<int>,
    qty: int,
    voucherCode: Option<string>,
    couponCode: Option<string>,
    pointsUsed: Option<int>)

  /** What the DTO guarantees: `qty >= 1`, `pointsUsed >= 0` when given. */
  predicate WellFormed(body: CreateBody) {
    body.qty >= 1 && (body.pointsUsed.Some? ==> body.pointsUsed.value >= 0)
  }

  /** The inventory a purchase reserves from. */
  datatype Target = EventSeats(eventId: nat) | TicketTypeSeats(ticketTypeId: nat)

  predicate HasTarget(t: Tables, target: Target) {
    match target
    case EventSeats(id) => Exists(t.events, id)
    case TicketTypeSeats(id) => Exists(t.ticketTypes, id)
  }

  function SeatsLeft(t: Tables, target: Target): int
    requires HasTarget(t, target)
  {
    match target
    case EventSeats(id) => At(t.events, id).remainingSeats
    case TicketTypeSeats(id) => At(t.ticketTypes, id).remainingSeats
  }

  function UnitPrice(t: Tables, target: Target): int
    requires HasTarget(t, target)
  {
    match target
    case EventSeats(id) => At(t.events, id).price
    case TicketTypeSeats(id) => At(t.ticketTypes, id).price
  }

  /** The ticket type if one is named (it must belong to the event), else the event. */
  function ResolveTarget(t: Tables, body: CreateBody): (r: Result<Target>)
    requires Exists(t.events, body.eventId)
    ensures r.Ok? ==> HasTarget(t, r.value)
    ensures !GivenId(body.ticketTypeId) ==> r == Ok(EventSeats(body.eventId))
    ensures GivenId(body.ticketTypeId) ==>
              var id := body.ticketTypeId.value;
              if Exists(t.ticketTypes, id) && At(t.ticketTypes, id).eventId == body.eventId
              then r == Ok(TicketTypeSeats(id))
              else r == Err(InvalidTicketType)
  {
    if GivenId(body.ticketTypeId) then
      var id := body.ticketTypeId.value;
      if !Exists(t.ticketTypes, id) || At(t.ticketTypes, id).eventId != body.eventId then Err(InvalidTicketType)
      else Ok(TicketTypeSeats(id))
    else Ok(EventSeats(body.eventId))
  }

  /** The lookup `where: { code }` on vouchers. */
  function VoucherWithCode(code: string): Voucher -> bool {
    (v: Voucher) => v.code == code
  }

  /** The lookup `where: { code }` on coupons. */
  function CouponWithCode(code: string): Coupon -> bool {
    (c: Coupon) => c.code == code
  }

  /** A voucher is active from `startAt` to `endAt`, both included. */
  predicate VoucherActive(v: Voucher, now: int) {
    !(v.startAt > now || v.endAt < now)
  }

  predicate VoucherExhausted(v: Voucher) {
    v.maxUses.Some? && v.usedCount >= v.maxUses.value
  }

  /** The voucher to redeem, if a code is given. */
  function ResolveVoucher(vouchers: seq<Voucher>, code: Option<string>, eventId: int, now: int): (r: Result<Option<nat>>)
    ensures r.Ok? && r.value.Some? ==> Exists(vouchers, r.value.value)
    ensures r.Ok? && r.value.Some? ==>
              var v := At(vouchers, r.value.value);
              GivenText(code) && v.code == code.value && v.eventId == eventId && VoucherActive(v, now) && !VoucherExhausted(v)
    ensures r == Ok(None) <==> !GivenText(code)
    ensures r.Err? ==> r.error in {InvalidVoucher, VoucherNotActive, VoucherMaxUsesReached}
    ensures GivenText(code) ==>
              var found := FindFirst(vouchers, VoucherWithCode(code.value));
              var ours := found.Some? && At(vouchers, found.value).eventId == eventId;
              && (r == Err(InvalidVoucher) <==> !ours)
              && (r == Err(VoucherNotActive) <==> ours && !VoucherActive(At(vouchers, found.value), now))
              && (r == Err(VoucherMaxUsesReached) <==>
                    ours && VoucherActive(At(vouchers, found.value), now) && VoucherExhausted(At(vouchers, found.value)))
              && (ours && VoucherActive(At(vouchers, found.value), now) && !VoucherExhausted(At(vouchers, found.value)) ==>
                    r == Ok(found))
  {
    if !GivenText(code) then Ok(None)
    else
      match FindFirst(vouchers, VoucherWithCode(code.value))
      case None => Err(InvalidVoucher)
      case Some(id) =>
        var v := At(vouchers, id);
        if v.eventId != eventId then Err(InvalidVoucher)
        else if !VoucherActive(v, now) then Err(VoucherNotActive)
        else if VoucherExhausted(v) then Err(VoucherMaxUsesReached)
        else Ok(Some(id))
  }

  /** The coupon to redeem, if a code is given. A coupon is still valid at its `expiresAt`. */
  function ResolveCoupon(coupons: seq<Coupon>, code: Option<string>, customerId: nat, now: int): (r: Result<Option<nat>>)
    ensures r.Ok? && r.value.Some? ==> Exists(coupons, r.value.value)
    ensures r.Ok? && r.value.Some? ==>
              var c := At(coupons, r.value.value);
              GivenText(code) && c.code == code.value && c.userId == customerId && now <= c.expiresAt && c.usedAt.None?
    ensures r == Ok(None) <==> !GivenText(code)
    ensures r.Err? ==> r.error in {InvalidCoupon, CouponExpired, CouponAlreadyUsed}
    ensures GivenText(code) ==>
              var found := FindFirst(coupons, CouponWithCode(code.value));
              var owned := found.Some? && At(coupons, found.value).userId == customerId;
              && (r == Err(InvalidCoupon) <==> !owned)
              && (r == Err(CouponExpired) <==> owned && At(coupons, found.value).expiresAt < now)
              && (r == Err(CouponAlreadyUsed) <==>
                    owned && now <= At(coupons, found.value).expiresAt && At(coupons, found.value).usedAt.Some?)
              && (owned && now <= At(coupons, found.value).expiresAt && At(coupons, found.value).usedAt.None? ==>
                    r == Ok(found))
  {
    if !GivenText(code) then Ok(None)
    else
      match FindFirst(coupons, CouponWithCode(code.value))
      case None => Err(InvalidCoupon)
      case Some(id) =>
        var c := At(coupons, id);
        if c.userId != customerId then Err(InvalidCoupon)
        else if c.expiresAt < now then Err(CouponExpired)
        else if c.usedAt.Some? then Err(CouponAlreadyUsed)
        else Ok(Some(id))
  }

  /** Everything `create` decides before it writes. */
  datatype Plan = Plan(
    eventId: nat,
    target: Target,
    subtotal: int,
    voucherId: Option<nat>,
    couponId: Option<nat>,
    amounts: Amounts)

  predicate Fits(t: Tables, p: Plan) {
    && Exists(t.events, p.eventId)
    && HasTarget(t, p.target)
    && (p.voucherId.Some? ==> Exists(t.vouchers, p.voucherId.value))
    && (p.couponId.Some? ==> Exists(t.coupons, p.couponId.value))
  }

  function VoucherAmount(t: Tables, id: Option<nat>): Option<int>
    requires id.Some? ==> Exists(t.vouchers, id.value)
  {
    if id.Some? then Some(At(t.vouchers, id.value).discountAmount) else None
  }

  function CouponAmount(t: Tables, id: Option<nat>): Option<int>
    requires id.Some? ==> Exists(t.coupons, id.value)
  {
    if id.Some? then Some(At(t.coupons, id.value).discountAmount) else None
  }

  /** The checks of `create` in the order the source makes them, and the amounts it computes. */
  function PlanCreate(t: Tables, customerId: nat, body: CreateBody, now: int): (r: Result<Plan>)
    ensures r.Ok? ==> Fits(t, r.value)
  {
    if !Exists(t.events, body.eventId) then Err(EventNotFound)
    else if !At(t.events, body.eventId).isPublished then Err(EventNotPublished)
    else
      match ResolveTarget(t, body)
      case Err(e) => Err(e)
      case Ok(target) =>
        if SeatsLeft(t, target) < body.qty then
          Err(if target.TicketTypeSeats? then NotEnoughTicketSeats else NotEnoughEventSeats)
        else
          var subtotal := UnitPrice(t, target) * body.qty;
          match ResolveVoucher(t.vouchers, body.voucherCode, body.eventId, now)
          case Err(e) => Err(e)
          case Ok(voucherId) =>
            match ResolveCoupon(t.coupons, body.couponCode, customerId, now)
            case Err(e) => Err(e)
            case Ok(couponId) =>
              var amounts := ComputeAmounts(subtotal, VoucherAmount(t, voucherId), CouponAmount(t, couponId),
                                            body.pointsUsed, AvailablePoints(t.ledger, customerId, now));
              Ok(Plan(body.eventId, target, subtotal, voucherId, couponId, amounts))
  }

  /** The seat reservation: the target's `remainingSeats` drops by `qty`; nothing else changes. */
  function Reserved(t: Tables, target: Target, qty: int): (r: Tables)
    requires HasTarget(t, target)
    ensures r == t.(events := r.events, ticketTypes := r.ticketTypes)
    ensures |r.events| == |t.events| && |r.ticketTypes| == |t.ticketTypes|
    ensures HasTarget(r, target) && SeatsLeft(r, target) == SeatsLeft(t, target) - qty
  {
    match target
    case EventSeats(id) =>
      var e := At(t.events, id);
      t.(events := Put(t.events, id, e.(remainingSeats := e.remainingSeats - qty)))
    case TicketTypeSeats(id) =>
      var tt := At(t.ticketTypes, id);
      t.(ticketTypes := Put(t.ticketTypes, id, tt.(remainingSeats := tt.remainingSeats - qty)))
  }

  /** One more use of the voucher, if one is redeemed; nothing else changes. */
  function VoucherRedeemed(t: Tables, id: Option<nat>): (r: Tables)
    requires id.Some? ==> Exists(t.vouchers, id.value)
    ensures r == t.(vouchers := r.vouchers) && |r.vouchers| == |t.vouchers|
    ensures id.Some? ==> At(r.vouchers, id.value).usedCount == At(t.vouchers, id.value).usedCount + 1
  {
    if id.None? then t
    else
      var v := At(t.vouchers, id.value);
      t.(vouchers := Put(t.vouchers, id.value, v.(usedCount := v.usedCount + 1)))
  }

  /** The coupon, if one is redeemed, is marked used at `now`; nothing else changes. */
  function CouponRedeemed(t: Tables, id: Option<nat>, now: int): (r: Tables)
    requires id.Some? ==> Exists(t.coupons, id.value)
    ensures r == t.(coupons := r.coupons) && |r.coupons| == |t.coupons|
    ensures id.Some? ==> At(r.coupons, id.value).usedAt == Some(now)
  {
    if id.None? then t
    else
      var c := At(t.coupons, id.value);
      t.(coupons := Put(t.coupons, id.value, c.(usedAt := Some(now))))
  }

  /** The debit row `create` appends when points are spent. */
  function Debit(customerId: nat, points: int): LedgerEntry {
    LedgerEntry(customerId, -points, UsedInTransaction, None, None, None)
  }

  function PointsDebited(t: Tables, customerId: nat, points: int): (r: Tables)
    ensures r == t.(ledger := r.ledger)
  {
    if points > 0 then t.(ledger := t.ledger + [Debit(customerId, points)]) else t
  }

  function TicketTypeOf(target: Target): Option<nat> {
    if target.TicketTypeSeats? then Some(target.ticketTypeId) else None
  }

  /** The inserted row: `DONE` when nothing is left to pay, else waiting for payment for two hours. */
  function NewRow(customerId: nat, body: CreateBody, p: Plan, now: int): Transaction {
    var free := p.amounts.total == 0;
    Transaction(
      customerId, p.eventId, TicketTypeOf(p.target), body.qty,
      p.subtotal, p.voucherId, p.amounts.voucherDiscount, p.couponId, p.amounts.couponDiscount,
      p.amounts.pointsUsed, p.amounts.total,
      if free then Done else WaitingForPayment,
      if free then now else AddHours(now, 2),
      None, None, None,
      if free then Some(now) else None)
  }

  /** The database after `create` commits with plan `p`. */
  function AfterCreate(t: Tables, customerId: nat, body: CreateBody, p: Plan, now: int): Tables
    requires Fits(t, p)
  {
    var t1 := Reserved(t, p.target, body.qty);
    var t2 := VoucherRedeemed(t1, p.voucherId);
    var t3 := CouponRedeemed(t2, p.couponId, now);
    var t4 := PointsDebited(t3, customerId, p.amounts.pointsUsed);
    Inserted(t4, NewRow(customerId, body, p, now))
  }

  /** The transaction table with `row` appended under the next id. */
  function Inserted(t: Tables, row: Transaction): (r: Tables)
    ensures r == t.(transactions := r.transactions)
    ensures |r.transactions| == |t.transactions| + 1 && At(r.transactions, |r.transactions|) == row
    ensures forall k :: Exists(t.transactions, k) ==> At(r.transactions, k) == At(t.transactions, k)
  {
    t.(transactions := t.transactions + [row])
  }

  /** What `create` returns. */
  datatype Receipt = Receipt(id: nat, status: Status, paymentDueAt: int, totalAmount: int)

  /**
    What `create` returns and the database afterwards: on a failed check the
    error and the database unchanged, else the new row's receipt and `AfterCreate`.
   */
  function CreateOutcome(t: Tables, customerId: nat, body: CreateBody, now: int): (Result<Receipt>, Tables) {
    match PlanCreate(t, customerId, body, now)
    case Err(e) => (Err(e), t)
    case Ok(p) =>
      var row := NewRow(customerId, body, p, now);
      (Ok(Receipt(|t.transactions| + 1, row.status, row.paymentDueAt, row.totalAmount)),
       AfterCreate(t, customerId, body, p, now))
  }

  /** The plan `create` arrives at once every check has passed. */
  lemma PlanOfChecks(t: Tables, customerId: nat, body: CreateBody, now: int,
                     target: Target, voucherId: Option<nat>, couponId: Option<nat>)
    requires Exists(t.events, body.eventId) && At(t.events, body.eventId).isPublished
    requires ResolveTarget(t, body) == Ok(target) && SeatsLeft(t, target) >= body.qty
    requires ResolveVoucher(t.vouchers, body.voucherCode, body.eventId, now) == Ok(voucherId)
    requires ResolveCoupon(t.coupons, body.couponCode, customerId, now) == Ok(couponId)
    ensures var subtotal := UnitPrice(t, target) * body.qty;
            PlanCreate(t, customerId, body, now)
            == Ok(Plan(body.eventId, target, subtotal, voucherId, couponId,
                       ComputeAmounts(subtotal, VoucherAmount(t, voucherId), CouponAmount(t, couponId),
                                      body.pointsUsed, AvailablePoints(t.ledger, customerId, now))))
  {
  }

  /**
    The refusals of `create`, each tied to the first check that fails, in the
    source's order: event, publication, ticket type, seats, voucher, coupon.
   */
  lemma PlanCreateRefusals(t: Tables, customerId: nat, body: CreateBody, now: int)
    ensures var r := PlanCreate(t, customerId, body, now);
            && (r == Err(EventNotFound) <==> !Exists(t.events, body.eventId))
            && (r == Err(EventNotPublished) <==> Exists(t.events, body.eventId) && !At(t.events, body.eventId).isPublished)
            && (Exists(t.events, body.eventId) && At(t.events, body.eventId).isPublished ==>
                  (match ResolveTarget(t, body)
                   case Err(e) => r == Err(e)
                   case Ok(target) =>
                     && (SeatsLeft(t, target) < body.qty ==>
                           r == Err(if target.TicketTypeSeats? then NotEnoughTicketSeats else NotEnoughEventSeats))
                     && (SeatsLeft(t, target) >= body.qty ==>
                           (match ResolveVoucher(t.vouchers, body.voucherCode, body.eventId, now)
                            case Err(e) => r == Err(e)
                            case Ok(_) =>
                              ResolveCoupon(t.coupons, body.couponCode, customerId, now).Err? ==>
                                r == Err(ResolveCoupon(t.coupons, body.couponCode, customerId, now).error)))))
  {
  }

  /** The reservation write of `create`. */
  method Reserve(db: Store, target: Target, qty: int)
    requires HasTarget(db.Snapshot(), target)
    modifies db
    ensures db.Snapshot() == Reserved(old(db.Snapshot()), target, qty)
  {
    match target {
      case TicketTypeSeats(id) =>
        var tt := At(db.ticketTypes, id);
        db.ticketTypes := Put(db.ticketTypes, id, tt.(remainingSeats := tt.remainingSeats - qty));
      case EventSeats(id) =>
        var ev := At(db.events, id);
        db.events := Put(db.events, id, ev.(remainingSeats := ev.remainingSeats - qty));
    }
  }

  /** The voucher step of `create`: look the code up, check it, count one more use. */
  method RedeemVoucher(db: Store, code: Option<string>, eventId: int, now: int) returns (r: Result<Option<nat>>)
    modifies db
    ensures r == ResolveVoucher(old(db.vouchers), code, eventId, now)
    ensures r.Ok? ==> db.Snapshot() == VoucherRedeemed(old(db.Snapshot()), r.value)
    ensures r.Err? ==> db.Snapshot() == old(db.Snapshot())
  {
    if !GivenText(code) {
      return Ok(None);
    }
    var found := FindFirst(db.vouchers, VoucherWithCode(code.value));
    if found.None? || At(db.vouchers, found.value).eventId != eventId {
      return Err(InvalidVoucher);
    }
    var v := At(db.vouchers, found.value);
    if v.startAt > now || v.endAt < now {
      return Err(VoucherNotActive);
    }
    if v.maxUses.Some? && v.usedCount >= v.maxUses.value {
      return Err(VoucherMaxUsesReached);
    }
    db.vouchers := Put(db.vouchers, found.value, v.(usedCount := v.usedCount + 1));
    r := Ok(found);
  }

  /** The coupon step of `create`: look the code up, check it, mark it used. */
  method RedeemCoupon(db: Store, code: Option<string>, customerId: nat, now: int) returns (r: Result<Option<nat>>)
    modifies db
    ensures r == ResolveCoupon(old(db.coupons), code, customerId, now)
    ensures r.Ok? ==> db.Snapshot() == CouponRedeemed(old(db.Snapshot()), r.value, now)
    ensures r.Err? ==> db.Snapshot() == old(db.Snapshot())
  {
    if !GivenText(code) {
      return Ok(None);
    }
    var found := FindFirst(db.coupons, CouponWithCode(code.value));
    if found.None? || At(db.coupons, found.value).userId != customerId {
      return Err(InvalidCoupon);
    }
    var c := At(db.coupons, found.value);
    if c.expiresAt < now {
      return Err(CouponExpired);
    }
    if c.usedAt.Some? {
      return Err(CouponAlreadyUsed);
    }
    db.coupons := Put(db.coupons, found.value, c.(usedAt := Some(now)));
    r := Ok(found);
  }

  /**
    `create`. A failed check leaves the database as it was, also when it comes
    after the seat write: the atomic block's writes are undone.
   */
  method Create(db: Store, customerId: nat, body: CreateBody, now: int) returns (r: Result<Receipt>)
    requires WellFormed(body)
    modifies db
    ensures (r, db.Snapshot()) == CreateOutcome(old(db.Snapshot()), customerId, body, now)
  {
    var saved := db.Snapshot();
    if !Exists(db.events, body.eventId) {
      return Err(EventNotFound);
    }
    if !At(db.events, body.eventId).isPublished {
      return Err(EventNotPublished);
    }

    // A named ticket type sets the unit price and the seat pool; otherwise the event does.
    var target: Target;
    match ResolveTarget(saved, body) {
      case Err(e) => return Err(e);
      case Ok(found) => target := found;
    }

    // Refuse an order larger than the pool, then take its seats out of the pool.
    if SeatsLeft(saved, target) < body.qty {
      return Err(if target.TicketTypeSeats? then NotEnoughTicketSeats else NotEnoughEventSeats);
    }
    Reserve(db, target, body.qty);
    var subtotal := UnitPrice(saved, target) * body.qty;

    var voucher := RedeemVoucher(db, body.voucherCode, body.eventId, now);
    if voucher.Err? {
      db.Load(saved);
      return Err(voucher.error);
    }
    var coupon := RedeemCoupon(db, body.couponCode, customerId, now);
    if coupon.Err? {
      db.Load(saved);
      return Err(coupon.error);
    }
    var voucherId, couponId := voucher.value, coupon.value;
    ghost var t3 := CouponRedeemed(VoucherRedeemed(Reserved(saved, target, body.qty), voucherId), couponId, now);

    // discounts and points; the balance is read outside the atomic block, from committed rows
    var amounts := ComputeAmounts(subtotal, VoucherAmount(saved, voucherId), CouponAmount(saved, couponId),
                                  body.pointsUsed, AvailablePoints(saved.ledger, customerId, now));
    var plan := Plan(body.eventId, target, subtotal, voucherId, couponId, amounts);
    PlanOfChecks(saved, customerId, body, now, target, voucherId, couponId);
    var row := NewRow(customerId, body, plan, now);
    var id := Settle(db, customerId, row);
    r := Ok(Receipt(id, row.status, row.paymentDueAt, row.totalAmount));
  }

  /** The last writes of `create`: the points debit, if any, then the new row. */
  method Settle(db: Store, customerId: nat, row: Transaction) returns (id: nat)
    modifies db
    ensures db.Snapshot() == Inserted(PointsDebited(old(db.Snapshot()), customerId, row.pointsUsed), row)
    ensures id == |db.transactions| == |old(db.transactions)| + 1
  {
    if row.pointsUsed > 0 {
      db.ledger := db.ledger + [Debit(customerId, row.pointsUsed)];
    }
    db.transactions := db.transactions + [row];
    id := |db.transactions|;
  }

  /**
    The seat reservation: with a ticket type named, that ticket type had at
    least `qty` seats left and loses exactly `qty`, and the event's seats are
    untouched; without one, the same holds of the event, and no ticket type changes.
   */
  lemma CreateReservesSeats(t: Tables, customerId: nat, body: CreateBody, now: int)
    requires PlanCreate(t, customerId, body, now).Ok?
    ensures var p := PlanCreate(t, customerId, body, now).value;
            var t' := AfterCreate(t, customerId, body, p, now);
            && |t'.events| == |t.events| && |t'.ticketTypes| == |t.ticketTypes|
            && (GivenId(body.ticketTypeId) ==>
                  var id := body.ticketTypeId.value;
                  && p.target == TicketTypeSeats(id)
                  && At(t.ticketTypes, id).eventId == body.eventId
                  && At(t.ticketTypes, id).remainingSeats >= body.qty
                  && At(t'.ticketTypes, id).remainingSeats == At(t.ticketTypes, id).remainingSeats - body.qty
                  && (forall k :: Exists(t.ticketTypes, k) && k != id ==> At(t'.ticketTypes, k) == At(t.ticketTypes, k))
                  && t'.events == t.events
                  && p.subtotal == At(t.ticketTypes, id).price * body.qty)
            && (!GivenId(body.ticketTypeId) ==>
                  var id := body.eventId;
                  && p.target == EventSeats(id)
                  && At(t.events, id).remainingSeats >= body.qty
                  && At(t'.events, id).remainingSeats == At(t.events, id).remainingSeats - body.qty
                  && (forall k :: Exists(t.events, k) && k != id ==> At(t'.events, k) == At(t.events, k))
                  && t'.ticketTypes == t.ticketTypes
                  && p.subtotal == At(t.events, id).price * body.qty)
  {
  }

  /**
    Points: one debit row of `-pointsUsed` is appended exactly when
    `pointsUsed > 0`, and the customer's balance drops by that much; the
    inserted row is `DONE`, decided and due now when nothing is left to pay,
    else waiting for payment until two hours from now.
   */
  lemma CreateDebitsAndInserts(t: Tables, customerId: nat, body: CreateBody, now: int)
    requires PlanCreate(t, customerId, body, now).Ok?
    ensures var p := PlanCreate(t, customerId, body, now).value;
            var t' := AfterCreate(t, customerId, body, p, now);
            var pu := p.amounts.pointsUsed;
            && (pu > 0 ==> t'.ledger == t.ledger + [Debit(customerId, pu)])
            && (pu <= 0 ==> t'.ledger == t.ledger)
            && AvailablePoints(t'.ledger, customerId, now) == AvailablePoints(t.ledger, customerId, now) - Max(0, pu)
            && |t'.transactions| == |t.transactions| + 1
            && t'.transactions[..|t.transactions|] == t.transactions
            && var row := At(t'.transactions, |t'.transactions|);
               && row.pointsUsed == pu && row.totalAmount == p.amounts.total
               && (p.amounts.total == 0 ==>
                     row.status == Done && row.decidedAt == Some(now) && row.paymentDueAt == now)
               && (p.amounts.total != 0 ==>
                     row.status == WaitingForPayment && row.decidedAt.None? && row.paymentDueAt == now + 2 * HOUR_MS)
               && row.decisionDueAt.None? && row.paymentProofUrl.None?
  {
    var p := PlanCreate(t, customerId, body, now).value;
    var t' := AfterCreate(t, customerId, body, p, now);
    var pu := p.amounts.pointsUsed;
    if pu > 0 {
      AvailableAfterAppend(t.ledger, Debit(customerId, pu), customerId, now);
    }
  }

  lemma CreatePreservesSeatBounds(t: Tables, customerId: nat, body: CreateBody, p: Plan, now: int)
    requires WellFormed(body) && SeatBounds(t)
    requires PlanCreate(t, customerId, body, now) == Ok(p)
    ensures SeatBounds(AfterCreate(t, customerId, body, p, now))
  {
    CreateReservesSeats(t, customerId, body, now);
  }

  /** What `create` writes, table by table. */
  lemma AfterCreateTables(t: Tables, customerId: nat, body: CreateBody, p: Plan, now: int)
    requires Fits(t, p)
    ensures var t' := AfterCreate(t, customerId, body, p, now);
            && t'.users == t.users && t'.reviews == t.reviews
            && |t'.events| == |t.events| && |t'.ticketTypes| == |t.ticketTypes|
            && (forall i :: 0 <= i < |t.events| ==> t'.events[i].price == t.events[i].price)
            && (forall i :: 0 <= i < |t.ticketTypes| ==> t'.ticketTypes[i].price == t.ticketTypes[i].price)
            && t'.vouchers == VoucherRedeemed(t, p.voucherId).vouchers
            && t'.coupons == CouponRedeemed(t, p.couponId, now).coupons
            && t'.transactions == t.transactions + [NewRow(customerId, body, p, now)]
  {
    var t1 := Reserved(t, p.target, body.qty);
    forall i | 0 <= i < |t.events|
      ensures t1.events[i].price == t.events[i].price
    {
      assert t1.events[i] == At(t1.events, i + 1);
    }
    forall i | 0 <= i < |t.ticketTypes|
      ensures t1.ticketTypes[i].price == t.ticketTypes[i].price
    {
      assert t1.ticketTypes[i] == At(t1.ticketTypes, i + 1);
    }
  }

  /** The redeemed voucher was not exhausted, so counting one more use keeps it within `maxUses`. */
  lemma RedeemKeepsVouchersValid(t: Tables, id: Option<nat>, eventId: int, code: Option<string>, now: int)
    requires forall i :: 0 <= i < |t.vouchers| ==> VoucherValid(t.vouchers[i])
    requires ResolveVoucher(t.vouchers, code, eventId, now) == Ok(id)
    ensures var vs := VoucherRedeemed(t, id).vouchers;
            forall i :: 0 <= i < |vs| ==> VoucherValid(vs[i])
  {
    var vs := VoucherRedeemed(t, id).vouchers;
    forall i | 0 <= i < |vs|
      ensures VoucherValid(vs[i])
    {
      assert VoucherValid(t.vouchers[i]);
      assert t.vouchers[i] == At(t.vouchers, i + 1) && vs[i] == At(vs, i + 1);
    }
  }

  /** The inserted row satisfies every row rule: its amounts add up because its subtotal is not negative. */
  lemma NewRowValid(t: Tables, customerId: nat, body: CreateBody, p: Plan, now: int)
    requires WellFormed(body) && PricesValid(t)
    requires PlanCreate(t, customerId, body, now) == Ok(p)
    ensures RowValid(AfterCreate(t, customerId, body, p, now), NewRow(customerId, body, p, now))
  {
    AfterCreateTables(t, customerId, body, p, now);
    assert UnitPrice(t, p.target) >= 0;
    assert p.subtotal >= 0;
  }

  /** A coupon nobody has used is linked to no row, so the new row keeps coupon links unique. */
  lemma NewRowKeepsCouponsLinkedOnce(t: Tables, customerId: nat, body: CreateBody, p: Plan, now: int)
    requires forall i :: 0 <= i < |t.transactions| ==> RowValid(t, t.transactions[i])
    requires CouponsLinkedOnce(t.transactions)
    requires PlanCreate(t, customerId, body, now) == Ok(p)
    ensures CouponsLinkedOnce(t.transactions + [NewRow(customerId, body, p, now)])
  {
    var txs := t.transactions + [NewRow(customerId, body, p, now)];
    if p.couponId.Some? {
      assert At(t.coupons, p.couponId.value).usedAt.None?;
      forall i | 0 <= i < |t.transactions|
        ensures t.transactions[i].couponId != p.couponId
      {
        assert RowValid(t, t.transactions[i]);
      }
    }
    assert forall i :: 0 <= i < |t.transactions| ==> txs[i] == t.transactions[i];
  }

  lemma CreatePreservesValid(t: Tables, customerId: nat, body: CreateBody, p: Plan, now: int)
    requires WellFormed(body) && Valid(t)
    requires PlanCreate(t, customerId, body, now) == Ok(p)
    ensures Valid(AfterCreate(t, customerId, body, p, now))
  {
    var t' := AfterCreate(t, customerId, body, p, now);
    AfterCreateTables(t, customerId, body, p, now);
    assert KeepsRowsValid(t, t');
    forall i | 0 <= i < |t.transactions|
      ensures RowValid(t', t'.transactions[i])
    {
      RowStaysValid(t, t', t.transactions[i]);
    }
    NewRowValid(t, customerId, body, p, now);
    NewRowKeepsCouponsLinkedOnce(t, customerId, body, p, now);
    RedeemKeepsVouchersValid(t, p.voucherId, body.eventId, body.voucherCode, now);
  }

  /**
    A coupon is good for one purchase: once a purchase has redeemed it, every
    later purchase naming the same code fails, whoever makes it and whenever.
   */
  lemma CouponSingleUse(t: Tables, customerId: nat, body: CreateBody, p: Plan, now: int,
                        otherCustomer: nat, other: CreateBody, later: int)
    requires PlanCreate(t, customerId, body, now) == Ok(p) && p.couponId.Some?
    requires other.couponCode == body.couponCode
    ensures PlanCreate(AfterCreate(t, customerId, body, p, now), otherCustomer, other, later).Err?
  {
    var t' := AfterCreate(t, customerId, body, p, now);
    AfterCreateTables(t, customerId, body, p, now);
    var c := p.couponId.value;
    var code := body.couponCode.value;
    var isCode := CouponWithCode(code);
    assert FindFirst(t.coupons, isCode) == Some(c);
    forall k | 1 <= k < c
      ensures !isCode(At(t'.coupons, k))
    {
      assert !isCode(At(t.coupons, k));
    }
    assert isCode(At(t'.coupons, c));
    assert FindFirst(t'.coupons, isCode) == Some(c);
    assert At(t'.coupons, c).usedAt.Some?;
    assert ResolveCoupon(t'.coupons, other.couponCode, otherCustomer, later).Err?;
  }
}
