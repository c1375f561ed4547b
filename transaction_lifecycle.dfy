/**
  The life of a transaction after `create` in `TransactionService`: the proof
  upload, the organizer's decision, the compensator `rollbackAndSetStatus`,
  and the two sweeps `autoExpire` and `autoCancel`.

  Each operation has a function on `Tables` (what it does) and a method on a
  `Store` (how it does it, write by write).
 */
module TransactionLifecycle {
  import opened Schema
  import opened Integrity
  import opened TransactionAmounts

  // ----- rollbackAndSetStatus -----

  /** The seats of a rolled-back row go back to its ticket type if it names one, else to its event, capped at `totalSeats`. */
  function SeatsRestored(t: Tables, x: Transaction): (r: Tables)
    ensures r == t.(events := r.events, ticketTypes := r.ticketTypes)
    ensures |r.events| == |t.events| && |r.ticketTypes| == |t.ticketTypes|
  {
    if Linked(x.ticketTypeId) then
      var id := x.ticketTypeId.value;
      if Exists(t.ticketTypes, id) then
        var tt := At(t.ticketTypes, id);
        t.(ticketTypes := Put(t.ticketTypes, id, tt.(remainingSeats := Min(tt.totalSeats, tt.remainingSeats + x.qty))))
      else t
    else if Exists(t.events, x.eventId) then
      var e := At(t.events, x.eventId);
      t.(events := Put(t.events, x.eventId, e.(remainingSeats := Min(e.totalSeats, e.remainingSeats + x.qty))))
    else t
  }

  /** The voucher, if the row used one that still exists, counts one use less, never below 0. */
  function VoucherReleased(t: Tables, x: Transaction): (r: Tables)
    ensures r == t.(vouchers := r.vouchers) && |r.vouchers| == |t.vouchers|
  {
    if Linked(x.voucherId) && Exists(t.vouchers, x.voucherId.value) then
      var v := At(t.vouchers, x.voucherId.value);
      t.(vouchers := Put(t.vouchers, x.voucherId.value, v.(usedCount := Max(0, v.usedCount - 1))))
    else t
  }

  /** The coupon, if the row used one, is unused again. */
  function CouponReleased(t: Tables, x: Transaction): (r: Tables)
    requires Linked(x.couponId) ==> Exists(t.coupons, x.couponId.value)
    ensures r == t.(coupons := r.coupons) && |r.coupons| == |t.coupons|
  {
    if Linked(x.couponId) then
      var c := At(t.coupons, x.couponId.value);
      t.(coupons := Put(t.coupons, x.couponId.value, c.(usedAt := None)))
    else t
  }

  /** The credit that gives spent points back; it expires three months after the rollback. */
  function Refund(x: Transaction, id: nat, inThreeMonths: int): LedgerEntry {
    LedgerEntry(x.customerId, x.pointsUsed, RollbackCredit, Some(inThreeMonths), Some(id), None)
  }

  function PointsRefunded(t: Tables, x: Transaction, id: nat, inThreeMonths: int): (r: Tables)
    ensures r == t.(ledger := r.ledger)
  {
    if x.pointsUsed > 0 then t.(ledger := t.ledger + [Refund(x, id, inThreeMonths)]) else t
  }

  /** The row once rolled back: coupon unlinked, points zeroed, `status` and `decidedAt` set. */
  function RolledBackRow(x: Transaction, status: Status, now: int): Transaction {
    var unlinked := if Linked(x.couponId) then x.(couponId := None, couponDiscount := 0) else x;
    var refunded := if x.pointsUsed > 0 then unlinked.(pointsUsed := 0) else unlinked;
    refunded.(status := status, decidedAt := Some(now))
  }

  /**
    `rollbackAndSetStatus`: a missing or terminal row is left alone; otherwise
    seats, voucher, coupon and points go back and the row takes `status`.
    Releasing a coupon that no longer exists is a failed write that aborts the block.
   */
  function Rollback(t: Tables, id: int, status: Status, now: int, inThreeMonths: int): (r: Result<Tables>)
    ensures r.Err? ==> r.error == RowMissing
    ensures r.Ok? ==> |r.value.transactions| == |t.transactions|
    ensures r.Ok? ==> forall k :: Exists(t.transactions, k) && k != id ==> At(r.value.transactions, k) == At(t.transactions, k)
    ensures r.Ok? ==> r.value.users == t.users && r.value.reviews == t.reviews
    ensures r.Ok? ==> && |r.value.events| == |t.events| && |r.value.ticketTypes| == |t.ticketTypes|
                      && |r.value.vouchers| == |t.vouchers| && |r.value.coupons| == |t.coupons|
                      && |r.value.ledger| >= |t.ledger|
  {
    if !Exists(t.transactions, id) || At(t.transactions, id).status.Terminal() then Ok(t)
    else
      var x := At(t.transactions, id);
      if Linked(x.couponId) && !Exists(t.coupons, x.couponId.value) then Err(RowMissing)
      else
        Ok(Settled(VoucherReleased(SeatsRestored(t, x), x), id, x, status, now, inThreeMonths))
  }

  /** The coupon and points steps of a rollback, and the final status write. */
  function Settled(t: Tables, id: nat, x: Transaction, status: Status, now: int, inThreeMonths: int): (r: Tables)
    requires Exists(t.transactions, id)
    requires Linked(x.couponId) ==> Exists(t.coupons, x.couponId.value)
    ensures r.users == t.users && r.reviews == t.reviews && r.events == t.events && r.ticketTypes == t.ticketTypes
    ensures r.vouchers == t.vouchers && |r.coupons| == |t.coupons|
    ensures r.transactions == Put(t.transactions, id, RolledBackRow(x, status, now))
  {
    var t3 := CouponReleased(t, x);
    var t4 := PointsRefunded(t3, x, id, inThreeMonths);
    t4.(transactions := Put(t4.transactions, id, RolledBackRow(x, status, now)))
  }

  /** The seat step of the compensator. */
  method RestoreSeats(db: Store, x: Transaction)
    modifies db
    ensures db.Snapshot() == SeatsRestored(old(db.Snapshot()), x)
  {
    if Linked(x.ticketTypeId) {
      var id := x.ticketTypeId.value;
      if Exists(db.ticketTypes, id) {
        var tt := At(db.ticketTypes, id);
        db.ticketTypes := Put(db.ticketTypes, id, tt.(remainingSeats := Min(tt.totalSeats, tt.remainingSeats + x.qty)));
      }
    } else if Exists(db.events, x.eventId) {
      var e := At(db.events, x.eventId);
      db.events := Put(db.events, x.eventId, e.(remainingSeats := Min(e.totalSeats, e.remainingSeats + x.qty)));
    }
  }

  /** The voucher step of the compensator. */
  method ReleaseVoucher(db: Store, x: Transaction)
    modifies db
    ensures db.Snapshot() == VoucherReleased(old(db.Snapshot()), x)
  {
    if Linked(x.voucherId) && Exists(db.vouchers, x.voucherId.value) {
      var v := At(db.vouchers, x.voucherId.value);
      db.vouchers := Put(db.vouchers, x.voucherId.value, v.(usedCount := Max(0, v.usedCount - 1)));
    }
  }

  /** The coupon and points steps of the compensator, then the status write. */
  method SettleRollback(db: Store, id: nat, x: Transaction, status: Status, now: int, inThreeMonths: int)
    requires Exists(db.transactions, id) && At(db.transactions, id) == x
    requires Linked(x.couponId) ==> Exists(db.coupons, x.couponId.value)
    modifies db
    ensures db.Snapshot() == Settled(old(db.Snapshot()), id, x, status, now, inThreeMonths)
  {
    var row := x;
    if Linked(x.couponId) {
      var c := At(db.coupons, x.couponId.value);
      db.coupons := Put(db.coupons, x.couponId.value, c.(usedAt := None));
      // unlink, so that the coupon can be used again
      row := row.(couponId := None, couponDiscount := 0);
      db.transactions := Put(db.transactions, id, row);
    }
    if x.pointsUsed > 0 {
      db.ledger := db.ledger + [Refund(x, id, inThreeMonths)];
      row := row.(pointsUsed := 0);
      db.transactions := Put(db.transactions, id, row);
    }
    row := row.(status := status, decidedAt := Some(now));
    db.transactions := Put(db.transactions, id, row);
    assert db.transactions == Put(old(db.transactions), id, RolledBackRow(x, status, now));
  }

  /** `rollbackAndSetStatus`, write by write inside one atomic block. */
  method RollbackAndSetStatus(db: Store, id: int, status: Status, now: int, inThreeMonths: int) returns (r: Result<()>)
    modifies db
    ensures var o := Rollback(old(db.Snapshot()), id, status, now, inThreeMonths);
            && (o.Err? ==> r == Err(o.error) && db.Snapshot() == old(db.Snapshot()))
            && (o.Ok? ==> r == Ok(()) && db.Snapshot() == o.value)
  {
    var saved := db.Snapshot();
    if !Exists(db.transactions, id) {
      return Ok(());
    }
    var x := At(db.transactions, id);
    if x.status.Terminal() {
      return Ok(());
    }
    RestoreSeats(db, x);
    ReleaseVoucher(db, x);
    if Linked(x.couponId) && !Exists(db.coupons, x.couponId.value) {
      db.Load(saved);
      return Err(RowMissing);
    }
    SettleRollback(db, id, x, status, now, inThreeMonths);
    r := Ok(());
  }

  /**
    What a rollback of a live row does: seats back to the ticket type (or the
    event) capped at `totalSeats`, one voucher use less floored at 0, the
    coupon unused and unlinked, a refund credit appended to the ledger with no
    existing entry edited, `pointsUsed` zeroed, and `status`/`decidedAt` set;
    `decisionDueAt` and `totalAmount` stay as they were, and so does every
    other field of the rows written (`RollbackFrames` gives the rows not written).
   */
  lemma RollbackEffects(t: Tables, id: int, status: Status, now: int, inThreeMonths: int)
    requires Exists(t.transactions, id) && !At(t.transactions, id).status.Terminal()
    requires Rollback(t, id, status, now, inThreeMonths).Ok?
    ensures var x := At(t.transactions, id);
            var t' := Rollback(t, id, status, now, inThreeMonths).value;
            var y := At(t'.transactions, id);
            && (Linked(x.ticketTypeId) && Exists(t.ticketTypes, x.ticketTypeId.value) ==>
                  var tt := At(t.ticketTypes, x.ticketTypeId.value);
                  At(t'.ticketTypes, x.ticketTypeId.value) == tt.(remainingSeats := Min(tt.totalSeats, tt.remainingSeats + x.qty)))
            && (Linked(x.ticketTypeId) ==> t'.events == t.events)
            && (!Linked(x.ticketTypeId) && Exists(t.events, x.eventId) ==>
                  var e := At(t.events, x.eventId);
                  At(t'.events, x.eventId) == e.(remainingSeats := Min(e.totalSeats, e.remainingSeats + x.qty)))
            && (!Linked(x.ticketTypeId) ==> t'.ticketTypes == t.ticketTypes)
            && (Linked(x.voucherId) && Exists(t.vouchers, x.voucherId.value) ==>
                  var v := At(t.vouchers, x.voucherId.value);
                  At(t'.vouchers, x.voucherId.value) == v.(usedCount := Max(0, v.usedCount - 1)))
            && (!Linked(x.voucherId) ==> t'.vouchers == t.vouchers)
            && (Linked(x.couponId) ==>
                  At(t'.coupons, x.couponId.value) == At(t.coupons, x.couponId.value).(usedAt := None)
                  && y.couponId.None? && y.couponDiscount == 0)
            && (!Linked(x.couponId) ==> t'.coupons == t.coupons && y.couponId == x.couponId)
            && y == RolledBackRow(x, status, now)
            && t'.ledger[..|t.ledger|] == t.ledger
            && (x.pointsUsed > 0 ==> t'.ledger == t.ledger + [Refund(x, id, inThreeMonths)])
            && (x.pointsUsed <= 0 ==> t'.ledger == t.ledger)
            && y.pointsUsed == Min(x.pointsUsed, 0)
            && y.status == status && y.decidedAt == Some(now)
            && y.decisionDueAt == x.decisionDueAt && y.totalAmount == x.totalAmount
  {
  }

  /** A rollback writes no event, ticket type, voucher or coupon other than the row's own. */
  lemma RollbackFrames(t: Tables, id: int, status: Status, now: int, inThreeMonths: int)
    requires Exists(t.transactions, id)
    requires Rollback(t, id, status, now, inThreeMonths).Ok?
    ensures var x := At(t.transactions, id);
            var t' := Rollback(t, id, status, now, inThreeMonths).value;
            && (forall k :: Exists(t.events, k) && k != x.eventId ==> At(t'.events, k) == At(t.events, k))
            && (forall k :: Exists(t.ticketTypes, k) && !(Linked(x.ticketTypeId) && k == x.ticketTypeId.value) ==>
                  At(t'.ticketTypes, k) == At(t.ticketTypes, k))
            && (forall k :: Exists(t.vouchers, k) && !(Linked(x.voucherId) && k == x.voucherId.value) ==>
                  At(t'.vouchers, k) == At(t.vouchers, k))
            && (forall k :: Exists(t.coupons, k) && !(Linked(x.couponId) && k == x.couponId.value) ==>
                  At(t'.coupons, k) == At(t.coupons, k))
  {
  }

  /** The refund raises the customer's balance by exactly the points the row had spent. */
  lemma RollbackRefundsBalance(t: Tables, id: int, status: Status, now: int, inThreeMonths: int, at: int)
    requires Exists(t.transactions, id) && !At(t.transactions, id).status.Terminal()
    requires Rollback(t, id, status, now, inThreeMonths).Ok?
    requires at < inThreeMonths
    ensures var x := At(t.transactions, id);
            var t' := Rollback(t, id, status, now, inThreeMonths).value;
            AvailablePoints(t'.ledger, x.customerId, at) == AvailablePoints(t.ledger, x.customerId, at) + Max(0, x.pointsUsed)
  {
    var x := At(t.transactions, id);
    if x.pointsUsed > 0 {
      AvailableAfterAppend(t.ledger, Refund(x, id, inThreeMonths), x.customerId, at);
    }
  }

  /** A rolled-back row is terminal, so a second rollback of it, with any status, changes nothing. */
  lemma RollbackIdempotent(t: Tables, id: int, status: Status, now: int, inThreeMonths: int,
                           status2: Status, now2: int, inThreeMonths2: int)
    requires status.Terminal()
    requires Rollback(t, id, status, now, inThreeMonths).Ok?
    ensures var t' := Rollback(t, id, status, now, inThreeMonths).value;
            Rollback(t', id, status2, now2, inThreeMonths2) == Ok(t')
  {
    var t' := Rollback(t, id, status, now, inThreeMonths).value;
    if Exists(t.transactions, id) && !At(t.transactions, id).status.Terminal() {
      RollbackEffects(t, id, status, now, inThreeMonths);
    }
  }

  /**
    The rollback zeroes `couponDiscount` and `pointsUsed` but keeps
    `totalAmount`: once a row that used a coupon or points is rolled back, its
    amounts no longer add up.
   */
  lemma RollbackBreaksAmountIdentity(t: Tables, id: int, status: Status, now: int, inThreeMonths: int)
    requires Exists(t.transactions, id) && !At(t.transactions, id).status.Terminal()
    requires Rollback(t, id, status, now, inThreeMonths).Ok?
    requires var x := At(t.transactions, id);
             && AmountsAddUp(x) && x.couponDiscount >= 0 && x.pointsUsed >= 0
             && x.subtotalAmount - x.voucherDiscount - x.couponDiscount - x.pointsUsed >= 0
             && ((Linked(x.couponId) && x.couponDiscount > 0) || x.pointsUsed > 0)
    ensures !AmountsAddUp(At(Rollback(t, id, status, now, inThreeMonths).value.transactions, id))
  {
    RollbackEffects(t, id, status, now, inThreeMonths);
  }

  /** The rollback keeps seat counts within `0..totalSeats`: the restore is capped. */
  lemma RollbackPreservesSeatBounds(t: Tables, id: int, status: Status, now: int, inThreeMonths: int)
    requires Exists(t.transactions, id) ==> At(t.transactions, id).qty >= 0
    requires SeatBounds(t) && Rollback(t, id, status, now, inThreeMonths).Ok?
    ensures SeatBounds(Rollback(t, id, status, now, inThreeMonths).value)
  {
    if Exists(t.transactions, id) && !At(t.transactions, id).status.Terminal() {
      var x := At(t.transactions, id);
      var t1 := SeatsRestored(t, x);
      forall i | 0 <= i < |t1.events|
        ensures 0 <= t1.events[i].remainingSeats <= t1.events[i].totalSeats
      {
        assert t1.events[i] == At(t1.events, i + 1) && t.events[i] == At(t.events, i + 1);
      }
      forall i | 0 <= i < |t1.ticketTypes|
        ensures 0 <= t1.ticketTypes[i].remainingSeats <= t1.ticketTypes[i].totalSeats
      {
        assert t1.ticketTypes[i] == At(t1.ticketTypes, i + 1) && t.ticketTypes[i] == At(t.ticketTypes, i + 1);
      }
    }
  }

  /** Restoring seats and releasing a voucher keep every price, and every voucher within its bounds. */
  lemma ReleasesKeepPricesAndVouchers(t: Tables, x: Transaction)
    requires PricesValid(t) && forall i :: 0 <= i < |t.vouchers| ==> VoucherValid(t.vouchers[i])
    ensures var t2 := VoucherReleased(SeatsRestored(t, x), x);
            && PricesValid(t2)
            && forall i :: 0 <= i < |t2.vouchers| ==> VoucherValid(t2.vouchers[i])
  {
    var t1 := SeatsRestored(t, x);
    var t2 := VoucherReleased(t1, x);
    forall i | 0 <= i < |t1.events|
      ensures t1.events[i].price >= 0
    {
      assert t1.events[i] == At(t1.events, i + 1) && t.events[i] == At(t.events, i + 1);
    }
    forall i | 0 <= i < |t1.ticketTypes|
      ensures t1.ticketTypes[i].price >= 0
    {
      assert t1.ticketTypes[i] == At(t1.ticketTypes, i + 1) && t.ticketTypes[i] == At(t.ticketTypes, i + 1);
    }
    forall i | 0 <= i < |t2.vouchers|
      ensures VoucherValid(t2.vouchers[i])
    {
      assert t2.vouchers[i] == At(t2.vouchers, i + 1) && t1.vouchers[i] == At(t1.vouchers, i + 1);
    }
  }

  /** The rolled-back row itself is valid: it is terminal, decided, and no longer holds its coupon. */
  lemma RolledBackRowValid(t: Tables, t': Tables, x: Transaction, status: Status, now: int)
    requires RowValid(t, x) && status.RolledBack()
    requires |t'.events| == |t.events| && |t'.ticketTypes| == |t.ticketTypes| && |t'.vouchers| == |t.vouchers|
    ensures RowValid(t', RolledBackRow(x, status, now))
  {
  }

  /** Rows other than the rolled-back one keep their coupon, which stays marked used. */
  lemma OtherRowsStayValid(t: Tables, id: nat, status: Status, now: int, inThreeMonths: int)
    requires Valid(t) && Exists(t.transactions, id) && !At(t.transactions, id).status.Terminal()
    requires Rollback(t, id, status, now, inThreeMonths).Ok?
    ensures var t' := Rollback(t, id, status, now, inThreeMonths).value;
            forall k :: Exists(t.transactions, k) && k != id ==> RowValid(t', At(t'.transactions, k))
  {
    var x := At(t.transactions, id);
    var t' := Rollback(t, id, status, now, inThreeMonths).value;
    forall k | Exists(t.transactions, k) && k != id
      ensures RowValid(t', At(t'.transactions, k))
    {
      var y := At(t.transactions, k);
      assert RowValid(t, y) by {
        assert y == t.transactions[k - 1];
      }
      if y.couponId.Some? && Linked(x.couponId) {
        assert y.couponId != x.couponId by {
          if k < id {
            assert t.transactions[k - 1].couponId != t.transactions[id - 1].couponId;
          } else {
            assert t.transactions[id - 1].couponId != t.transactions[k - 1].couponId;
          }
        }
      }
    }
  }

  /** A rollback to `REJECTED`, `EXPIRED` or `CANCELED` keeps the database valid. */
  lemma RollbackPreservesValid(t: Tables, id: int, status: Status, now: int, inThreeMonths: int)
    requires Valid(t) && status.RolledBack()
    requires Rollback(t, id, status, now, inThreeMonths).Ok?
    ensures Valid(Rollback(t, id, status, now, inThreeMonths).value)
  {
    if Exists(t.transactions, id) && !At(t.transactions, id).status.Terminal() {
      var x := At(t.transactions, id);
      var t' := Rollback(t, id, status, now, inThreeMonths).value;
      var t2 := VoucherReleased(SeatsRestored(t, x), x);
      ReleasesKeepPricesAndVouchers(t, x);
      OtherRowsStayValid(t, id, status, now, inThreeMonths);
      assert RowValid(t, x) by {
        assert x == t.transactions[id - 1];
      }
      RolledBackRowValid(t, t', x, status, now);
      assert t'.transactions == Put(t.transactions, id, RolledBackRow(x, status, now));
      forall i | 0 <= i < |t'.transactions|
        ensures RowValid(t', t'.transactions[i]) && t'.transactions[i].qty >= 1
      {
        assert t'.transactions[i] == At(t'.transactions, i + 1);
        assert t.transactions[i] == At(t.transactions, i + 1);
      }
      UnlinkKeepsCouponsLinkedOnce(t.transactions, id, RolledBackRow(x, status, now));
    }
  }

  /** Under `Valid` a linked coupon exists, so the compensator never aborts. */
  lemma RollbackNeverFailsOnValid(t: Tables, id: int, status: Status, now: int, inThreeMonths: int)
    requires Valid(t)
    ensures Rollback(t, id, status, now, inThreeMonths).Ok?
  {
    if Exists(t.transactions, id) {
      assert RowValid(t, At(t.transactions, id)) by {
        assert At(t.transactions, id) == t.transactions[id - 1];
      }
    }
  }

  // ----- uploadPaymentProof -----

  /** The row once its payment proof is in: waiting for the organizer for three days. */
  function Uploaded(x: Transaction, proofUrl: string, now: int): Transaction {
    x.(paymentProofUrl := Some(proofUrl), paymentProofUploadedAt := Some(now),
       status := WaitingForAdminConfirmation, decisionDueAt := Some(AddDays(now, 3)))
  }

  /**
    `uploadPaymentProof`: only the row's customer, only while it waits for
    payment, and only until `paymentDueAt` (inclusive). A late upload is
    refused and nothing else happens: the row is not expired here.
   */
  function Upload(t: Tables, customerId: nat, id: int, proofUrl: string, now: int): (r: Result<Tables>)
    ensures r.Ok? <==> && Exists(t.transactions, id)
                       && Exists(t.events, At(t.transactions, id).eventId)
                       && At(t.transactions, id).customerId == customerId
                       && At(t.transactions, id).status == WaitingForPayment
                       && now <= At(t.transactions, id).paymentDueAt
    ensures r == Err(TransactionNotFound) <==> !Exists(t.transactions, id)
    ensures Exists(t.transactions, id) ==>
              var x := At(t.transactions, id);
              && (r == Err(RowMissing) <==> !Exists(t.events, x.eventId))
              && (r == Err(Forbidden) <==> Exists(t.events, x.eventId) && x.customerId != customerId)
              && (r == Err(NotWaitingForPayment) <==>
                    Exists(t.events, x.eventId) && x.customerId == customerId && x.status != WaitingForPayment)
              && (r == Err(PaymentTimeExpired) <==>
                    Exists(t.events, x.eventId) && x.customerId == customerId && x.status == WaitingForPayment
                    && now > x.paymentDueAt)
    ensures r.Ok? ==> r.value == t.(transactions := r.value.transactions)
  {
    if !Exists(t.transactions, id) then Err(TransactionNotFound)
    else
      var x := At(t.transactions, id);
      if !Exists(t.events, x.eventId) then Err(RowMissing)
      else if x.customerId != customerId then Err(Forbidden)
      else if x.status != WaitingForPayment then Err(NotWaitingForPayment)
      else if now > x.paymentDueAt then Err(PaymentTimeExpired)
      else Ok(t.(transactions := Put(t.transactions, id, Uploaded(x, proofUrl, now))))
  }

  method UploadPaymentProof(db: Store, customerId: nat, id: int, proofUrl: string, now: int) returns (r: Result<Transaction>)
    modifies db
    ensures var o := Upload(old(db.Snapshot()), customerId, id, proofUrl, now);
            && (o.Err? ==> r == Err(o.error) && db.Snapshot() == old(db.Snapshot()))
            && (o.Ok? ==> db.Snapshot() == o.value && r == Ok(At(db.transactions, id)))
  {
    if !Exists(db.transactions, id) {
      return Err(TransactionNotFound);
    }
    var x := At(db.transactions, id);
    if !Exists(db.events, x.eventId) {
      return Err(RowMissing);
    }
    if x.customerId != customerId {
      return Err(Forbidden);
    }
    if x.status != WaitingForPayment {
      return Err(NotWaitingForPayment);
    }
    if now > x.paymentDueAt {
      return Err(PaymentTimeExpired);
    }
    var updated := x.(paymentProofUrl := Some(proofUrl), paymentProofUploadedAt := Some(now),
                      status := WaitingForAdminConfirmation, decisionDueAt := Some(AddDays(now, 3)));
    db.transactions := Put(db.transactions, id, updated);
    r := Ok(updated);
  }

  /** An accepted upload leaves the row waiting for the organizer until three days later, with the proof recorded. */
  lemma UploadEffect(t: Tables, customerId: nat, id: int, proofUrl: string, now: int)
    requires Upload(t, customerId, id, proofUrl, now).Ok?
    ensures var t' := Upload(t, customerId, id, proofUrl, now).value;
            var x, y := At(t.transactions, id), At(t'.transactions, id);
            && |t'.transactions| == |t.transactions|
            && (forall k :: Exists(t.transactions, k) && k != id ==> At(t'.transactions, k) == At(t.transactions, k))
            && y.status == WaitingForAdminConfirmation
            && y.paymentProofUrl == Some(proofUrl) && y.paymentProofUploadedAt == Some(now)
            && y.decisionDueAt == Some(now + 3 * DAY_MS)
            && y == x.(status := y.status, paymentProofUrl := y.paymentProofUrl,
                       paymentProofUploadedAt := y.paymentProofUploadedAt, decisionDueAt := y.decisionDueAt)
  {
  }

  lemma UploadPreservesValid(t: Tables, customerId: nat, id: int, proofUrl: string, now: int)
    requires Valid(t) && Upload(t, customerId, id, proofUrl, now).Ok?
    ensures Valid(Upload(t, customerId, id, proofUrl, now).value)
  {
    var t' := Upload(t, customerId, id, proofUrl, now).value;
    var x := At(t.transactions, id);
    assert RowValid(t, x) by {
      assert x == t.transactions[id - 1];
    }
    forall i | 0 <= i < |t'.transactions|
      ensures RowValid(t', t'.transactions[i]) && t'.transactions[i].qty >= 1
    {
      assert t'.transactions[i] == At(t'.transactions, i + 1);
      assert t.transactions[i] == At(t.transactions, i + 1);
    }
    UnlinkKeepsCouponsLinkedOnce(t.transactions, id, Uploaded(x, proofUrl, now));
  }

  // ----- organizerAccept / organizerReject -----

  /**
    The checks both organizer decisions make, in order: the row exists, its
    event is the caller's, and it waits for a decision. Nothing else is
    checked: not the proof, not `decisionDueAt`.
   */
  function CheckDecision(t: Tables, organizerId: nat, id: int): (r: Result<Transaction>)
    ensures r.Ok? <==> && Exists(t.transactions, id)
                       && Exists(t.events, At(t.transactions, id).eventId)
                       && At(t.events, At(t.transactions, id).eventId).organizerId == organizerId
                       && At(t.transactions, id).status == WaitingForAdminConfirmation
    ensures r.Ok? ==> r.value == At(t.transactions, id)
    ensures r == Err(TransactionNotFound) <==> !Exists(t.transactions, id)
    ensures Exists(t.transactions, id) ==>
              var x := At(t.transactions, id);
              && (r == Err(RowMissing) <==> !Exists(t.events, x.eventId))
              && (r == Err(Forbidden) <==> Exists(t.events, x.eventId) && At(t.events, x.eventId).organizerId != organizerId)
              && (r == Err(NotWaitingForAdminConfirmation) <==>
                    Exists(t.events, x.eventId) && At(t.events, x.eventId).organizerId == organizerId
                    && x.status != WaitingForAdminConfirmation)
  {
    if !Exists(t.transactions, id) then Err(TransactionNotFound)
    else
      var x := At(t.transactions, id);
      if !Exists(t.events, x.eventId) then Err(RowMissing)
      else if At(t.events, x.eventId).organizerId != organizerId then Err(Forbidden)
      else if x.status != WaitingForAdminConfirmation then Err(NotWaitingForAdminConfirmation)
      else Ok(x)
  }

  /** `organizerAccept`: the row becomes `DONE`, decided now. */
  function Accept(t: Tables, organizerId: nat, id: int, now: int): (r: Result<Tables>)
    ensures r.Ok? <==> CheckDecision(t, organizerId, id).Ok?
    ensures r.Err? ==> r == Err(CheckDecision(t, organizerId, id).error)
    ensures r.Ok? ==> r.value == t.(transactions := r.value.transactions)
  {
    match CheckDecision(t, organizerId, id)
    case Err(e) => Err(e)
    case Ok(x) => Ok(t.(transactions := Put(t.transactions, id, x.(status := Done, decidedAt := Some(now)))))
  }

  /** `organizerReject`: the compensator with `REJECTED`. */
  function Reject(t: Tables, organizerId: nat, id: int, now: int, inThreeMonths: int): (r: Result<Tables>)
    ensures CheckDecision(t, organizerId, id).Err? ==> r == Err(CheckDecision(t, organizerId, id).error)
    ensures CheckDecision(t, organizerId, id).Ok? ==> r == Rollback(t, id, Rejected, now, inThreeMonths)
  {
    match CheckDecision(t, organizerId, id)
    case Err(e) => Err(e)
    case Ok(_) => Rollback(t, id, Rejected, now, inThreeMonths)
  }

  /** `organizerAccept`; the notification email is left out. */
  method OrganizerAccept(db: Store, organizerId: nat, id: int, now: int) returns (r: Result<Status>)
    modifies db
    ensures var o := Accept(old(db.Snapshot()), organizerId, id, now);
            && (o.Err? ==> r == Err(o.error) && db.Snapshot() == old(db.Snapshot()))
            && (o.Ok? ==> r == Ok(Done) && db.Snapshot() == o.value)
  {
    if !Exists(db.transactions, id) {
      return Err(TransactionNotFound);
    }
    var x := At(db.transactions, id);
    if !Exists(db.events, x.eventId) {
      return Err(RowMissing);
    }
    if At(db.events, x.eventId).organizerId != organizerId {
      return Err(Forbidden);
    }
    if x.status != WaitingForAdminConfirmation {
      return Err(NotWaitingForAdminConfirmation);
    }
    db.transactions := Put(db.transactions, id, x.(status := Done, decidedAt := Some(now)));
    r := Ok(Done);
  }

  /** `organizerReject`; the notification email is left out. */
  method OrganizerReject(db: Store, organizerId: nat, id: int, now: int, inThreeMonths: int) returns (r: Result<()>)
    modifies db
    ensures var o := Reject(old(db.Snapshot()), organizerId, id, now, inThreeMonths);
            && (o.Err? ==> r == Err(o.error) && db.Snapshot() == old(db.Snapshot()))
            && (o.Ok? ==> r == Ok(()) && db.Snapshot() == o.value)
  {
    if !Exists(db.transactions, id) {
      return Err(TransactionNotFound);
    }
    var x := At(db.transactions, id);
    if !Exists(db.events, x.eventId) {
      return Err(RowMissing);
    }
    if At(db.events, x.eventId).organizerId != organizerId {
      return Err(Forbidden);
    }
    if x.status != WaitingForAdminConfirmation {
      return Err(NotWaitingForAdminConfirmation);
    }
    r := RollbackAndSetStatus(db, id, Rejected, now, inThreeMonths);
  }

  /**
    Accepting checks neither the proof nor the deadline, and leaves
    `decisionDueAt` in place: an accepted row is `DONE` and still carries the
    decision deadline it had, which may already be past.
   */
  lemma AcceptEffect(t: Tables, organizerId: nat, id: int, now: int)
    requires Accept(t, organizerId, id, now).Ok?
    ensures var t' := Accept(t, organizerId, id, now).value;
            var x, y := At(t.transactions, id), At(t'.transactions, id);
            && |t'.transactions| == |t.transactions|
            && (forall k :: Exists(t.transactions, k) && k != id ==> At(t'.transactions, k) == At(t.transactions, k))
            && y.status == Done && y.decidedAt == Some(now)
            && y.decisionDueAt == x.decisionDueAt && y.paymentProofUrl == x.paymentProofUrl
            && y == x.(status := Done, decidedAt := Some(now))
  {
  }

  /** Acceptance does not depend on the clock: a row past its decision deadline can still be accepted. */
  lemma AcceptIgnoresDeadline(t: Tables, organizerId: nat, id: int, now: int, later: int)
    requires Accept(t, organizerId, id, now).Ok?
    ensures Accept(t, organizerId, id, later).Ok?
  {
  }

  lemma AcceptPreservesValid(t: Tables, organizerId: nat, id: int, now: int)
    requires Valid(t) && Accept(t, organizerId, id, now).Ok?
    ensures Valid(Accept(t, organizerId, id, now).value)
  {
    var t' := Accept(t, organizerId, id, now).value;
    var x := At(t.transactions, id);
    assert RowValid(t, x) by {
      assert x == t.transactions[id - 1];
    }
    forall i | 0 <= i < |t'.transactions|
      ensures RowValid(t', t'.transactions[i]) && t'.transactions[i].qty >= 1
    {
      assert t'.transactions[i] == At(t'.transactions, i + 1);
      assert t.transactions[i] == At(t.transactions, i + 1);
    }
    UnlinkKeepsCouponsLinkedOnce(t.transactions, id, x.(status := Done, decidedAt := Some(now)));
  }

  lemma RejectPreservesValid(t: Tables, organizerId: nat, id: int, now: int, inThreeMonths: int)
    requires Valid(t)
    ensures Reject(t, organizerId, id, now, inThreeMonths).Ok? <==> CheckDecision(t, organizerId, id).Ok?
    ensures Reject(t, organizerId, id, now, inThreeMonths).Ok? ==> Valid(Reject(t, organizerId, id, now, inThreeMonths).value)
  {
    RollbackNeverFailsOnValid(t, id, Rejected, now, inThreeMonths);
    if CheckDecision(t, organizerId, id).Ok? {
      RollbackPreservesValid(t, id, Rejected, now, inThreeMonths);
    }
  }

  // ----- autoExpire / autoCancel -----

  /** The `autoExpire` filter: waiting for payment, past due, no proof upload time. */
  predicate OverdueUnpaid(x: Transaction, now: int) {
    x.status == WaitingForPayment && x.paymentDueAt < now && x.paymentProofUploadedAt.None?
  }

  /** The `autoCancel` filter: waiting for the organizer past `decisionDueAt` (a null deadline never matches). */
  predicate OverdueUndecided(x: Transaction, now: int) {
    x.status == WaitingForAdminConfirmation && x.decisionDueAt.Some? && x.decisionDueAt.value < now
  }

  function ExpireTargets(t: Tables, now: int): seq<nat> {
    Where(t.transactions, (x: Transaction) => OverdueUnpaid(x, now))
  }

  function CancelTargets(t: Tables, now: int): seq<nat> {
    Where(t.transactions, (x: Transaction) => OverdueUndecided(x, now))
  }

  /**
    The compensator applied to `ids` in order, each call its own atomic block:
    a failure stops the sweep and keeps the blocks already committed.
   */
  function RollbackEach(t: Tables, ids: seq<nat>, status: Status, now: int, inThreeMonths: int): (s: Swept)
    ensures |s.tables.transactions| == |t.transactions|
    ensures s.tables.users == t.users && s.tables.reviews == t.reviews
  {
    if ids == [] then Swept(t, None)
    else RollbackNext(RollbackEach(t, ids[..|ids| - 1], status, now, inThreeMonths), ids[|ids| - 1], status, now, inThreeMonths)
  }

  /** The sweep after one more target: a failed sweep stays as it is, otherwise the target's block runs. */
  function RollbackNext(prefix: Swept, id: nat, status: Status, now: int, inThreeMonths: int): (s: Swept)
    ensures prefix.failure.Some? ==> s == prefix
    ensures |s.tables.transactions| == |prefix.tables.transactions|
    ensures s.tables.users == prefix.tables.users && s.tables.reviews == prefix.tables.reviews
  {
    if prefix.failure.Some? then prefix
    else
      match Rollback(prefix.tables, id, status, now, inThreeMonths)
      case Err(e) => Swept(prefix.tables, Some(e))
      case Ok(t') => Swept(t', None)
  }

  /** A sweep: the compensator on every target, one block each; reports how many targets there were. */
  method Sweep(db: Store, targets: seq<nat>, status: Status, now: int, inThreeMonths: int) returns (r: Result<nat>)
    modifies db
    ensures var s := RollbackEach(old(db.Snapshot()), targets, status, now, inThreeMonths);
            && db.Snapshot() == s.tables
            && r == (if s.failure.Some? then Err(s.failure.value) else Ok(|targets|))
  {
    ghost var start := db.Snapshot();
    for i := 0 to |targets|
      invariant RollbackEach(start, targets[..i], status, now, inThreeMonths) == Swept(db.Snapshot(), None)
    {
      assert targets[..i + 1][..i] == targets[..i];
      var res := RollbackAndSetStatus(db, targets[i], status, now, inThreeMonths);
      if res.Err? {
        assert RollbackEach(start, targets[..i + 1], status, now, inThreeMonths).failure == Some(res.error);
        RollbackEachStops(start, targets, i, status, now, inThreeMonths);
        return Err(res.error);
      }
    }
    assert targets[..|targets|] == targets;
    r := Ok(|targets|);
  }

  /** Once a sweep has failed, the remaining targets change nothing. */
  lemma {:induction false} RollbackEachStops(t: Tables, ids: seq<nat>, i: nat, status: Status, now: int, inThreeMonths: int)
    requires i < |ids|
    requires RollbackEach(t, ids[..i + 1], status, now, inThreeMonths).failure.Some?
    ensures RollbackEach(t, ids, status, now, inThreeMonths) == RollbackEach(t, ids[..i + 1], status, now, inThreeMonths)
    decreases |ids|
  {
    if |ids| == i + 1 {
      assert ids[..i + 1] == ids;
    } else {
      var n := |ids|;
      assert ids[..n - 1][..i + 1] == ids[..i + 1];
      RollbackEachStops(t, ids[..n - 1], i, status, now, inThreeMonths);
    }
  }

  /** `autoExpire`: rows past their payment deadline with no upload become `EXPIRED`. */
  method AutoExpire(db: Store, now: int, inThreeMonths: int) returns (r: Result<nat>)
    modifies db
    ensures var s := RollbackEach(old(db.Snapshot()), ExpireTargets(old(db.Snapshot()), now), Expired, now, inThreeMonths);
            && db.Snapshot() == s.tables
            && r == (if s.failure.Some? then Err(s.failure.value) else Ok(|ExpireTargets(old(db.Snapshot()), now)|))
  {
    var targets := ExpireTargets(db.Snapshot(), now);
    r := Sweep(db, targets, Expired, now, inThreeMonths);
  }

  /** `autoCancel`: rows past their decision deadline become `CANCELED`. */
  method AutoCancel(db: Store, now: int, inThreeMonths: int) returns (r: Result<nat>)
    modifies db
    ensures var s := RollbackEach(old(db.Snapshot()), CancelTargets(old(db.Snapshot()), now), Canceled, now, inThreeMonths);
            && db.Snapshot() == s.tables
            && r == (if s.failure.Some? then Err(s.failure.value) else Ok(|CancelTargets(old(db.Snapshot()), now)|))
  {
    var targets := CancelTargets(db.Snapshot(), now);
    r := Sweep(db, targets, Canceled, now, inThreeMonths);
  }

  /**
    What a completed sweep leaves: every row it targeted is terminal, and every
    other row is as it was.
   */
  lemma {:induction false} RollbackEachEffect(t: Tables, ids: seq<nat>, status: Status, now: int, inThreeMonths: int)
    requires status.Terminal()
    requires RollbackEach(t, ids, status, now, inThreeMonths).failure.None?
    ensures var t' := RollbackEach(t, ids, status, now, inThreeMonths).tables;
            && (forall k :: Exists(t.transactions, k) && k in ids ==> At(t'.transactions, k).status.Terminal())
            && (forall k :: Exists(t.transactions, k) && k !in ids ==> At(t'.transactions, k) == At(t.transactions, k))
  {
    if ids != [] {
      var n := |ids|;
      var prefix := RollbackEach(t, ids[..n - 1], status, now, inThreeMonths);
      RollbackEachEffect(t, ids[..n - 1], status, now, inThreeMonths);
      var id := ids[n - 1];
      var t' := Rollback(prefix.tables, id, status, now, inThreeMonths).value;
      if Exists(prefix.tables.transactions, id) && !At(prefix.tables.transactions, id).status.Terminal() {
        RollbackEffects(prefix.tables, id, status, now, inThreeMonths);
      }
      forall k | Exists(t.transactions, k) && k in ids
        ensures At(t'.transactions, k).status.Terminal()
      {
        if k != id {
          assert k in ids[..n - 1];
        }
      }
    }
  }

  /**
    A completed `autoExpire` leaves no overdue unpaid row, so a second run at
    the same instant finds nothing and changes nothing.
   */
  lemma AutoExpireIdempotent(t: Tables, now: int, inThreeMonths: int)
    requires RollbackEach(t, ExpireTargets(t, now), Expired, now, inThreeMonths).failure.None?
    ensures var t' := RollbackEach(t, ExpireTargets(t, now), Expired, now, inThreeMonths).tables;
            && (forall k :: Exists(t'.transactions, k) ==> !OverdueUnpaid(At(t'.transactions, k), now))
            && ExpireTargets(t', now) == []
            && RollbackEach(t', ExpireTargets(t', now), Expired, now, inThreeMonths) == Swept(t', None)
  {
    var targets := ExpireTargets(t, now);
    var t' := RollbackEach(t, targets, Expired, now, inThreeMonths).tables;
    RollbackEachEffect(t, targets, Expired, now, inThreeMonths);
    WhereEmpty(t'.transactions, (x: Transaction) => OverdueUnpaid(x, now));
  }

  /** The same for `autoCancel`. */
  lemma AutoCancelIdempotent(t: Tables, now: int, inThreeMonths: int)
    requires RollbackEach(t, CancelTargets(t, now), Canceled, now, inThreeMonths).failure.None?
    ensures var t' := RollbackEach(t, CancelTargets(t, now), Canceled, now, inThreeMonths).tables;
            && (forall k :: Exists(t'.transactions, k) ==> !OverdueUndecided(At(t'.transactions, k), now))
            && CancelTargets(t', now) == []
            && RollbackEach(t', CancelTargets(t', now), Canceled, now, inThreeMonths) == Swept(t', None)
  {
    var targets := CancelTargets(t, now);
    var t' := RollbackEach(t, targets, Canceled, now, inThreeMonths).tables;
    RollbackEachEffect(t, targets, Canceled, now, inThreeMonths);
    WhereEmpty(t'.transactions, (x: Transaction) => OverdueUndecided(x, now));
  }

  /** On a valid database a sweep never fails and keeps the database valid. */
  lemma {:induction false} RollbackEachPreservesValid(t: Tables, ids: seq<nat>, status: Status, now: int, inThreeMonths: int)
    requires Valid(t) && status.RolledBack()
    ensures var s := RollbackEach(t, ids, status, now, inThreeMonths);
            s.failure.None? && Valid(s.tables)
  {
    if ids != [] {
      var n := |ids|;
      RollbackEachPreservesValid(t, ids[..n - 1], status, now, inThreeMonths);
      var prefix := RollbackEach(t, ids[..n - 1], status, now, inThreeMonths);
      RollbackNeverFailsOnValid(prefix.tables, ids[n - 1], status, now, inThreeMonths);
      RollbackPreservesValid(prefix.tables, ids[n - 1], status, now, inThreeMonths);
    }
  }
}
