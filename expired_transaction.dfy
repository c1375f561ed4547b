/**
  The cron sweeper of `src/scripts/expired-transaction.ts`, a second sweeper
  independent of `TransactionService`. Each tick expires rows unpaid past
  their deadline, then cancels rows undecided past theirs. Each row is
  handled in its own atomic block: a compare-and-set status write, and only
  if it matched, `rollbackResources`.
 */
module ExpiredTransaction {
  import opened Schema
  import opened Integrity
  import opened TransactionAmounts

  /** The columns of a target row the sweeper reads when it selects its targets (`TxLite`). */
  datatype TxLite = TxLite(
    id: nat,
    customerId: nat,
    eventId: nat,
    ticketTypeId: Option<nat>,
    qty: int,
    pointsUsed: int,
    voucherId: Option<nat>,
    couponId: Option<nat>)

  function Lite(t: Tables, id: nat): TxLite
    requires Exists(t.transactions, id)
  {
    var x := At(t.transactions, id);
    TxLite(id, x.customerId, x.eventId, x.ticketTypeId, x.qty, x.pointsUsed, x.voucherId, x.couponId)
  }

  /** The expiry filter: waiting for payment, past due, and no proof URL. */
  predicate UnpaidPastDue(x: Transaction, now: int) {
    x.status == WaitingForPayment && x.paymentDueAt < now && x.paymentProofUrl.None?
  }

  /** The cancel filter: waiting for the organizer past `decisionDueAt` (a null deadline never matches). */
  predicate UndecidedPastDue(x: Transaction, now: int) {
    x.status == WaitingForAdminConfirmation && x.decisionDueAt.Some? && x.decisionDueAt.value < now
  }

  /** The selected rows, in id order, as the sweeper reads them. */
  function Lites(t: Tables, ids: seq<nat>): (lites: seq<TxLite>)
    requires forall i :: 0 <= i < |ids| ==> Exists(t.transactions, ids[i])
    ensures |lites| == |ids|
    ensures forall i :: 0 <= i < |ids| ==> lites[i] == Lite(t, ids[i])
    ensures Ids(lites) == ids
  {
    var lites := seq(|ids|, i requires 0 <= i < |ids| => Lite(t, ids[i]));
    assert forall i :: 0 <= i < |ids| ==> Ids(lites)[i] == ids[i];
    lites
  }

  function ExpireSelection(t: Tables, now: int): seq<TxLite> {
    Lites(t, Where(t.transactions, (x: Transaction) => UnpaidPastDue(x, now)))
  }

  function CancelSelection(t: Tables, now: int): seq<TxLite> {
    Lites(t, Where(t.transactions, (x: Transaction) => UndecidedPastDue(x, now)))
  }

  /** The compare-and-set guard: the row still has the expected status and no `decidedAt`. */
  predicate Guard(t: Tables, id: nat, expected: Status) {
    Exists(t.transactions, id) && At(t.transactions, id).status == expected && At(t.transactions, id).decidedAt.None?
  }

  /** The status write: the target status, decided now, no decision deadline. */
  function StatusWritten(t: Tables, id: nat, target: Status, now: int): (r: Tables)
    requires Exists(t.transactions, id)
    ensures r == t.(transactions := r.transactions)
  {
    var x := At(t.transactions, id);
    t.(transactions := Put(t.transactions, id, x.(status := target, decidedAt := Some(now), decisionDueAt := None)))
  }

  /** Seats go back to the event, and to the ticket type if one is set, uncapped; a missing row fails the write. */
  function SeatsIncremented(t: Tables, trx: TxLite): (r: Result<Tables>)
    ensures r.Err? ==> r.error == RowMissing
    ensures r.Ok? ==> r.value == t.(events := r.value.events, ticketTypes := r.value.ticketTypes)
    ensures r.Ok? ==> |r.value.events| == |t.events| && |r.value.ticketTypes| == |t.ticketTypes|
  {
    if !Exists(t.events, trx.eventId) then Err(RowMissing)
    else
      var e := At(t.events, trx.eventId);
      var t1 := t.(events := Put(t.events, trx.eventId, e.(remainingSeats := e.remainingSeats + trx.qty)));
      if !Linked(trx.ticketTypeId) then Ok(t1)
      else if !Exists(t1.ticketTypes, trx.ticketTypeId.value) then Err(RowMissing)
      else
        var tt := At(t1.ticketTypes, trx.ticketTypeId.value);
        Ok(t1.(ticketTypes := Put(t1.ticketTypes, trx.ticketTypeId.value, tt.(remainingSeats := tt.remainingSeats + trx.qty))))
  }

  /** How many uses go back to the voucher: `min(qty, usedCount)`, a missing voucher counting as 0 uses. */
  function VoucherDecrement(t: Tables, trx: TxLite): int {
    if Linked(trx.voucherId) then
      Min(trx.qty, if Exists(t.vouchers, trx.voucherId.value) then At(t.vouchers, trx.voucherId.value).usedCount else 0)
    else 0
  }

  function VoucherDecremented(t: Tables, trx: TxLite): (r: Tables)
    ensures r == t.(vouchers := r.vouchers) && |r.vouchers| == |t.vouchers|
  {
    var dec := VoucherDecrement(t, trx);
    if dec > 0 then
      var v := At(t.vouchers, trx.voucherId.value);
      t.(vouchers := Put(t.vouchers, trx.voucherId.value, v.(usedCount := v.usedCount - dec)))
    else t
  }

  /** The credit that gives spent points back, three months from the rollback. */
  function CronRefund(trx: TxLite, inThreeMonths: int): LedgerEntry {
    LedgerEntry(trx.customerId, trx.pointsUsed, RollbackCredit, Some(inThreeMonths), Some(trx.id), None)
  }

  /** The coupon is released and unlinked (a missing coupon fails the write), then the points are refunded. */
  function CouponAndPointsReleased(t: Tables, trx: TxLite, inThreeMonths: int): (r: Result<Tables>)
    requires Exists(t.transactions, trx.id)
    ensures r.Err? ==> r.error == RowMissing
    ensures r.Ok? ==> && r.value.users == t.users && r.value.reviews == t.reviews
                      && r.value.events == t.events && r.value.ticketTypes == t.ticketTypes
                      && r.value.vouchers == t.vouchers && |r.value.coupons| == |t.coupons|
                      && |r.value.transactions| == |t.transactions|
  {
    if Linked(trx.couponId) && !Exists(t.coupons, trx.couponId.value) then Err(RowMissing)
    else
      var t1 :=
        if Linked(trx.couponId) then
          var c := At(t.coupons, trx.couponId.value);
          var x := At(t.transactions, trx.id);
          t.(coupons := Put(t.coupons, trx.couponId.value, c.(usedAt := None)),
             transactions := Put(t.transactions, trx.id, x.(couponId := None, couponDiscount := 0)))
        else t;
      if trx.pointsUsed > 0 then
        var x := At(t1.transactions, trx.id);
        Ok(t1.(ledger := t1.ledger + [CronRefund(trx, inThreeMonths)],
               transactions := Put(t1.transactions, trx.id, x.(pointsUsed := 0))))
      else Ok(t1)
  }

  /** `rollbackResources`, with the values the sweeper read at selection time. */
  function RollbackResources(t: Tables, trx: TxLite, inThreeMonths: int): (r: Result<Tables>)
    requires Exists(t.transactions, trx.id)
    ensures r.Err? ==> r.error == RowMissing
    ensures r.Ok? ==> r.value.users == t.users && r.value.reviews == t.reviews && |r.value.transactions| == |t.transactions|
  {
    match SeatsIncremented(t, trx)
    case Err(e) => Err(e)
    case Ok(t1) => CouponAndPointsReleased(VoucherDecremented(t1, trx), trx, inThreeMonths)
  }

  /**
    One row's atomic block: the compare-and-set status write, then the
    rollback; a failed write undoes the block and stops the sweep.
   */
  function CronStep(t: Tables, trx: TxLite, expected: Status, target: Status, now: int, inThreeMonths: int): (r: Result<Tables>)
    ensures !Guard(t, trx.id, expected) ==> r == Ok(t)
    ensures r.Err? ==> r.error == RowMissing
    ensures r.Ok? ==> r.value.users == t.users && r.value.reviews == t.reviews && |r.value.transactions| == |t.transactions|
  {
    if !Guard(t, trx.id, expected) then Ok(t)
    else RollbackResources(StatusWritten(t, trx.id, target, now), trx, inThreeMonths)
  }

  /** The steps over the selected rows in order; a failure stops the loop, keeping the blocks already committed. */
  function CronPass(t: Tables, lites: seq<TxLite>, expected: Status, target: Status, now: int, inThreeMonths: int): (s: Swept)
    ensures s.tables.users == t.users && s.tables.reviews == t.reviews
    ensures |s.tables.transactions| == |t.transactions|
  {
    if lites == [] then Swept(t, None)
    else CronNext(CronPass(t, lites[..|lites| - 1], expected, target, now, inThreeMonths), lites[|lites| - 1],
                  expected, target, now, inThreeMonths)
  }

  /** The pass after one more row: a failed pass stays as it is, otherwise the row's block runs. */
  function CronNext(prefix: Swept, trx: TxLite, expected: Status, target: Status, now: int, inThreeMonths: int): (s: Swept)
    ensures prefix.failure.Some? ==> s == prefix
    ensures s.tables.users == prefix.tables.users && s.tables.reviews == prefix.tables.reviews
    ensures |s.tables.transactions| == |prefix.tables.transactions|
  {
    if prefix.failure.Some? then prefix
    else
      match CronStep(prefix.tables, trx, expected, target, now, inThreeMonths)
      case Err(e) => Swept(prefix.tables, Some(e))
      case Ok(t') => Swept(t', None)
  }

  /** One tick: the expiry pass, then, unless it failed, the cancel pass. */
  function Tick(t: Tables, now: int, inThreeMonths: int): Swept {
    var expired := CronPass(t, ExpireSelection(t, now), WaitingForPayment, Expired, now, inThreeMonths);
    if expired.failure.Some? then expired
    else
      var t1 := expired.tables;
      CronPass(t1, CancelSelection(t1, now), WaitingForAdminConfirmation, Canceled, now, inThreeMonths)
  }

  // ----- the sweeper, write by write -----

  /** The seat writes of `rollbackResources`. */
  method IncrementSeats(db: Store, trx: TxLite) returns (r: Result<()>)
    modifies db
    ensures var o := SeatsIncremented(old(db.Snapshot()), trx);
            && (o.Err? ==> r == Err(o.error))
            && (o.Ok? ==> r == Ok(()) && db.Snapshot() == o.value)
  {
    if !Exists(db.events, trx.eventId) {
      return Err(RowMissing);
    }
    var e := At(db.events, trx.eventId);
    db.events := Put(db.events, trx.eventId, e.(remainingSeats := e.remainingSeats + trx.qty));
    if Linked(trx.ticketTypeId) {
      if !Exists(db.ticketTypes, trx.ticketTypeId.value) {
        return Err(RowMissing);
      }
      var tt := At(db.ticketTypes, trx.ticketTypeId.value);
      db.ticketTypes := Put(db.ticketTypes, trx.ticketTypeId.value, tt.(remainingSeats := tt.remainingSeats + trx.qty));
    }
    r := Ok(());
  }

  /** The voucher, coupon and points writes of `rollbackResources`. */
  method ReleaseRest(db: Store, trx: TxLite, inThreeMonths: int) returns (r: Result<()>)
    requires Exists(db.transactions, trx.id)
    modifies db
    ensures var o := CouponAndPointsReleased(VoucherDecremented(old(db.Snapshot()), trx), trx, inThreeMonths);
            && (o.Err? ==> r == Err(o.error))
            && (o.Ok? ==> r == Ok(()) && db.Snapshot() == o.value)
  {
    if Linked(trx.voucherId) {
      var used := if Exists(db.vouchers, trx.voucherId.value) then At(db.vouchers, trx.voucherId.value).usedCount else 0;
      var dec := Min(trx.qty, used);
      if dec > 0 {
        var v := At(db.vouchers, trx.voucherId.value);
        db.vouchers := Put(db.vouchers, trx.voucherId.value, v.(usedCount := v.usedCount - dec));
      }
    }
    if Linked(trx.couponId) {
      if !Exists(db.coupons, trx.couponId.value) {
        return Err(RowMissing);
      }
      var c := At(db.coupons, trx.couponId.value);
      db.coupons := Put(db.coupons, trx.couponId.value, c.(usedAt := None));
      var x := At(db.transactions, trx.id);
      db.transactions := Put(db.transactions, trx.id, x.(couponId := None, couponDiscount := 0));
    }
    if trx.pointsUsed > 0 {
      db.ledger := db.ledger + [CronRefund(trx, inThreeMonths)];
      var x := At(db.transactions, trx.id);
      db.transactions := Put(db.transactions, trx.id, x.(pointsUsed := 0));
    }
    r := Ok(());
  }

  /** The status write and the rollback of a row the compare-and-set matched; a failure undoes both. */
  method WriteAndRollBack(db: Store, trx: TxLite, target: Status, now: int, inThreeMonths: int)
    returns (failure: Option<Error>)
    requires Exists(db.transactions, trx.id)
    modifies db
    ensures var o := RollbackResources(StatusWritten(old(db.Snapshot()), trx.id, target, now), trx, inThreeMonths);
            && (o.Err? ==> failure == Some(o.error) && db.Snapshot() == old(db.Snapshot()))
            && (o.Ok? ==> failure.None? && db.Snapshot() == o.value)
  {
    var saved := db.Snapshot();
    var x := At(db.transactions, trx.id);
    db.transactions := Put(db.transactions, trx.id, x.(status := target, decidedAt := Some(now), decisionDueAt := None));
    var seats := IncrementSeats(db, trx);
    if seats.Err? {
      db.Load(saved);
      return Some(seats.error);
    }
    var rest := ReleaseRest(db, trx, inThreeMonths);
    if rest.Err? {
      db.Load(saved);
      return Some(rest.error);
    }
    failure := None;
  }

  /** One row's atomic block: `updateMany` on id, expected status and no `decidedAt`, then the rollback if it matched. */
  method Step(db: Store, trx: TxLite, expected: Status, target: Status, now: int, inThreeMonths: int)
    returns (failure: Option<Error>)
    modifies db
    ensures CronNext(Swept(old(db.Snapshot()), None), trx, expected, target, now, inThreeMonths) == Swept(db.Snapshot(), failure)
  {
    ghost var t := db.Snapshot();
    if !(Exists(db.transactions, trx.id) && At(db.transactions, trx.id).status == expected
         && At(db.transactions, trx.id).decidedAt.None?) {
      assert !Guard(t, trx.id, expected);
      return None;
    }
    assert CronStep(t, trx, expected, target, now, inThreeMonths)
        == RollbackResources(StatusWritten(t, trx.id, target, now), trx, inThreeMonths);
    failure := WriteAndRollBack(db, trx, target, now, inThreeMonths);
  }

  /** A pass over the selected rows; returns the failure that stopped it, if any. */
  method Pass(db: Store, lites: seq<TxLite>, expected: Status, target: Status, now: int, inThreeMonths: int)
    returns (failure: Option<Error>)
    modifies db
    ensures CronPass(old(db.Snapshot()), lites, expected, target, now, inThreeMonths) == Swept(db.Snapshot(), failure)
  {
    ghost var start := db.Snapshot();
    for i := 0 to |lites|
      invariant CronPass(start, lites[..i], expected, target, now, inThreeMonths) == Swept(db.Snapshot(), None)
    {
      assert lites[..i + 1][..i] == lites[..i];
      failure := Step(db, lites[i], expected, target, now, inThreeMonths);
      if failure.Some? {
        CronPassStops(start, lites, i, expected, target, now, inThreeMonths);
        return;
      }
    }
    assert lites[..|lites|] == lites;
    failure := None;
  }

  /** Once a pass has failed, the remaining rows change nothing. */
  lemma {:induction false} CronPassStops(t: Tables, lites: seq<TxLite>, i: nat, expected: Status, target: Status, now: int, inThreeMonths: int)
    requires i < |lites|
    requires CronPass(t, lites[..i + 1], expected, target, now, inThreeMonths).failure.Some?
    ensures CronPass(t, lites, expected, target, now, inThreeMonths) == CronPass(t, lites[..i + 1], expected, target, now, inThreeMonths)
    decreases |lites|
  {
    if |lites| == i + 1 {
      assert lites[..i + 1] == lites;
    } else {
      var n := |lites|;
      assert CronPass(t, lites[..n - 1], expected, target, now, inThreeMonths)
          == CronPass(t, lites[..i + 1], expected, target, now, inThreeMonths) by {
        assert lites[..n - 1][..i + 1] == lites[..i + 1];
        CronPassStops(t, lites[..n - 1], i, expected, target, now, inThreeMonths);
      }
      FailedPassStaysFailed(t, lites, expected, target, now, inThreeMonths);
    }
  }

  /** A pass whose prefix without the last row has failed ends as that prefix. */
  lemma FailedPassStaysFailed(t: Tables, lites: seq<TxLite>, expected: Status, target: Status, now: int, inThreeMonths: int)
    requires lites != []
    requires CronPass(t, lites[..|lites| - 1], expected, target, now, inThreeMonths).failure.Some?
    ensures CronPass(t, lites, expected, target, now, inThreeMonths) == CronPass(t, lites[..|lites| - 1], expected, target, now, inThreeMonths)
  {
  }

  /** `expireWaitingForPayment`. */
  method ExpireWaitingForPayment(db: Store, now: int, inThreeMonths: int) returns (failure: Option<Error>)
    modifies db
    ensures var s := CronPass(old(db.Snapshot()), ExpireSelection(old(db.Snapshot()), now), WaitingForPayment, Expired, now, inThreeMonths);
            s == Swept(db.Snapshot(), failure)
  {
    var targets := ExpireSelection(db.Snapshot(), now);
    failure := Pass(db, targets, WaitingForPayment, Expired, now, inThreeMonths);
  }

  /** `cancelWaitingForAdminConfirmation`. */
  method CancelWaitingForAdminConfirmation(db: Store, now: int, inThreeMonths: int) returns (failure: Option<Error>)
    modifies db
    ensures var s := CronPass(old(db.Snapshot()), CancelSelection(old(db.Snapshot()), now), WaitingForAdminConfirmation, Canceled, now, inThreeMonths);
            s == Swept(db.Snapshot(), failure)
  {
    var targets := CancelSelection(db.Snapshot(), now);
    failure := Pass(db, targets, WaitingForAdminConfirmation, Canceled, now, inThreeMonths);
  }

  /** One scheduled tick; a failure of the expiry pass is caught and skips the cancel pass. */
  method RunTick(db: Store, now: int, inThreeMonths: int) returns (failure: Option<Error>)
    modifies db
    ensures Tick(old(db.Snapshot()), now, inThreeMonths) == Swept(db.Snapshot(), failure)
  {
    failure := ExpireWaitingForPayment(db, now, inThreeMonths);
    if failure.None? {
      failure := CancelWaitingForAdminConfirmation(db, now, inThreeMonths);
    }
  }

  // ----- the compare-and-set makes every block run at most once -----

  /** The row a matched block leaves: the target status, decided now, no decision deadline. */
  predicate SweptRow(y: Transaction, target: Status, now: int) {
    y.status == target && y.decidedAt == Some(now) && y.decisionDueAt.None?
  }

  /** Of the transactions, the rollback touches only the target row, and there only the coupon link and the points. */
  lemma RollbackTouchesOneRow(t: Tables, trx: TxLite, inThreeMonths: int)
    requires Exists(t.transactions, trx.id)
    requires RollbackResources(t, trx, inThreeMonths).Ok?
    ensures var t' := RollbackResources(t, trx, inThreeMonths).value;
            var x := At(t.transactions, trx.id);
            && (forall k :: Exists(t.transactions, k) && k != trx.id ==> At(t'.transactions, k) == At(t.transactions, k))
            && At(t'.transactions, trx.id) == x.(couponId := if Linked(trx.couponId) then None else x.couponId,
                                                couponDiscount := if Linked(trx.couponId) then 0 else x.couponDiscount,
                                                pointsUsed := if trx.pointsUsed > 0 then 0 else x.pointsUsed)
  {
  }

  /**
    A block that commits changes the transactions only at its own row, which
    it leaves swept if the compare-and-set matched; either way that row no
    longer matches.
   */
  lemma StepFrame(t: Tables, trx: TxLite, expected: Status, target: Status, now: int, inThreeMonths: int)
    requires CronStep(t, trx, expected, target, now, inThreeMonths).Ok?
    ensures var t' := CronStep(t, trx, expected, target, now, inThreeMonths).value;
            && (forall k :: Exists(t.transactions, k) && k != trx.id ==> At(t'.transactions, k) == At(t.transactions, k))
            && (Guard(t, trx.id, expected) ==> SweptRow(At(t'.transactions, trx.id), target, now))
            && (!Guard(t, trx.id, expected) ==> t' == t)
            && !Guard(t', trx.id, expected)
  {
    if Guard(t, trx.id, expected) {
      RollbackTouchesOneRow(StatusWritten(t, trx.id, target, now), trx, inThreeMonths);
    }
  }

  /** The ids of the selected rows. */
  function Ids(lites: seq<TxLite>): (ids: seq<nat>)
    ensures |ids| == |lites| && forall i :: 0 <= i < |lites| ==> ids[i] == lites[i].id
  {
    if lites == [] then [] else Ids(lites[..|lites| - 1]) + [lites[|lites| - 1].id]
  }

  /** What one block does to row `k`. */
  lemma StepRow(t: Tables, trx: TxLite, expected: Status, target: Status, now: int, inThreeMonths: int, k: nat)
    requires CronStep(t, trx, expected, target, now, inThreeMonths).Ok?
    requires Exists(t.transactions, k)
    ensures var t' := CronStep(t, trx, expected, target, now, inThreeMonths).value;
            && (k != trx.id ==> At(t'.transactions, k) == At(t.transactions, k))
            && (k == trx.id ==> !Guard(t', k, expected))
            && (k == trx.id ==> At(t'.transactions, k) == At(t.transactions, k) || SweptRow(At(t'.transactions, k), target, now))
  {
    StepFrame(t, trx, expected, target, now, inThreeMonths);
  }

  /**
    After a pass that did not fail, a row is either as it was or swept; a row
    not selected is as it was, and a selected row no longer matches the
    compare-and-set.
   */
  lemma {:induction false} PassRow(t: Tables, lites: seq<TxLite>, expected: Status, target: Status, now: int, inThreeMonths: int, k: nat)
    requires CronPass(t, lites, expected, target, now, inThreeMonths).failure.None?
    requires Exists(t.transactions, k)
    ensures var t' := CronPass(t, lites, expected, target, now, inThreeMonths).tables;
            && (At(t'.transactions, k) == At(t.transactions, k) || SweptRow(At(t'.transactions, k), target, now))
            && (k !in Ids(lites) ==> At(t'.transactions, k) == At(t.transactions, k))
            && (k in Ids(lites) ==> !Guard(t', k, expected))
    decreases |lites|
  {
    if lites != [] {
      var n := |lites|;
      var init := lites[..n - 1];
      PassStep(t, lites, expected, target, now, inThreeMonths);
      var p := CronPass(t, init, expected, target, now, inThreeMonths).tables;
      PassRow(t, init, expected, target, now, inThreeMonths, k);
      StepRow(p, lites[n - 1], expected, target, now, inThreeMonths, k);
      assert Ids(lites) == Ids(init) + [lites[n - 1].id];
      if k != lites[n - 1].id {
        assert k in Ids(lites) <==> k in Ids(init);
      }
    }
  }

  /** A completed pass is a completed pass over all rows but the last, then a committed block for the last. */
  lemma PassStep(t: Tables, lites: seq<TxLite>, expected: Status, target: Status, now: int, inThreeMonths: int)
    requires lites != []
    requires CronPass(t, lites, expected, target, now, inThreeMonths).failure.None?
    ensures var prefix := CronPass(t, lites[..|lites| - 1], expected, target, now, inThreeMonths);
            && prefix.failure.None?
            && CronStep(prefix.tables, lites[|lites| - 1], expected, target, now, inThreeMonths).Ok?
            && CronPass(t, lites, expected, target, now, inThreeMonths).tables
               == CronStep(prefix.tables, lites[|lites| - 1], expected, target, now, inThreeMonths).value
  {
  }

  /** A pass over rows none of which matches the compare-and-set changes nothing. */
  lemma {:induction false} PassOverUnmatched(t: Tables, lites: seq<TxLite>, expected: Status, target: Status, now: int, inThreeMonths: int)
    requires forall i :: 0 <= i < |lites| ==> !Guard(t, lites[i].id, expected)
    ensures CronPass(t, lites, expected, target, now, inThreeMonths) == Swept(t, None)
    decreases |lites|
  {
    if lites != [] {
      PassOverUnmatched(t, lites[..|lites| - 1], expected, target, now, inThreeMonths);
    }
  }

  /** Replaying a completed pass with its own, now stale, selection changes nothing. */
  lemma PassIdempotent(t: Tables, lites: seq<TxLite>, expected: Status, target: Status, now: int, inThreeMonths: int)
    requires CronPass(t, lites, expected, target, now, inThreeMonths).failure.None?
    ensures var t' := CronPass(t, lites, expected, target, now, inThreeMonths).tables;
            CronPass(t', lites, expected, target, now, inThreeMonths) == Swept(t', None)
  {
    var t' := CronPass(t, lites, expected, target, now, inThreeMonths).tables;
    forall i | 0 <= i < |lites|
      ensures !Guard(t', lites[i].id, expected)
    {
      if Exists(t.transactions, lites[i].id) {
        assert lites[i].id in Ids(lites);
        PassRow(t, lites, expected, target, now, inThreeMonths, lites[i].id);
      }
    }
    PassOverUnmatched(t', lites, expected, target, now, inThreeMonths);
  }

  // ----- a tick leaves nothing overdue -----

  /** A row that is not terminal has no `decidedAt` (a consequence of `Valid`). */
  ghost predicate WaitingUndecided(t: Tables) {
    forall k :: Exists(t.transactions, k) && !At(t.transactions, k).status.Terminal() ==> At(t.transactions, k).decidedAt.None?
  }

  /** A completed pass sweeps every selected row that was waiting in the expected state. */
  lemma PassSweepsSelected(t: Tables, lites: seq<TxLite>, expected: Status, target: Status, now: int, inThreeMonths: int, k: nat)
    requires WaitingUndecided(t) && !expected.Terminal()
    requires CronPass(t, lites, expected, target, now, inThreeMonths).failure.None?
    requires Exists(t.transactions, k) && k in Ids(lites) && At(t.transactions, k).status == expected
    ensures SweptRow(At(CronPass(t, lites, expected, target, now, inThreeMonths).tables.transactions, k), target, now)
  {
    PassRow(t, lites, expected, target, now, inThreeMonths, k);
  }

  /** After a completed pass, row `k` is not matched by a filter that selected every row it matched. */
  lemma PassClearsRow(t: Tables, lites: seq<TxLite>, p: Transaction -> bool, expected: Status, target: Status, now: int, inThreeMonths: int, k: nat)
    requires WaitingUndecided(t) && target.Terminal() && !expected.Terminal()
    requires forall x: Transaction :: p(x) ==> x.status == expected
    requires CronPass(t, lites, expected, target, now, inThreeMonths).failure.None?
    requires Exists(t.transactions, k) && (p(At(t.transactions, k)) ==> k in Ids(lites))
    ensures var y := At(CronPass(t, lites, expected, target, now, inThreeMonths).tables.transactions, k);
            !p(y) && (!y.status.Terminal() ==> y.decidedAt.None?)
  {
    PassRow(t, lites, expected, target, now, inThreeMonths, k);
    if p(At(t.transactions, k)) {
      PassSweepsSelected(t, lites, expected, target, now, inThreeMonths, k);
    }
  }

  /** A completed pass keeps `WaitingUndecided` and leaves no row matched by a filter that selected every row it matched. */
  lemma PassClearsRows(t: Tables, lites: seq<TxLite>, p: Transaction -> bool, expected: Status, target: Status, now: int, inThreeMonths: int)
    requires WaitingUndecided(t) && target.Terminal() && !expected.Terminal()
    requires forall x: Transaction :: p(x) ==> x.status == expected
    requires CronPass(t, lites, expected, target, now, inThreeMonths).failure.None?
    requires forall k :: Exists(t.transactions, k) && p(At(t.transactions, k)) ==> k in Ids(lites)
    ensures var t' := CronPass(t, lites, expected, target, now, inThreeMonths).tables;
            WaitingUndecided(t') && forall k :: Exists(t'.transactions, k) ==> !p(At(t'.transactions, k))
  {
    var t' := CronPass(t, lites, expected, target, now, inThreeMonths).tables;
    forall k | Exists(t'.transactions, k)
      ensures !p(At(t'.transactions, k))
      ensures !At(t'.transactions, k).status.Terminal() ==> At(t'.transactions, k).decidedAt.None?
    {
      PassClearsRow(t, lites, p, expected, target, now, inThreeMonths, k);
    }
  }

  /** A completed pass keeps `WaitingUndecided` and leaves no row its filter selects. */
  lemma PassClears(t: Tables, p: Transaction -> bool, expected: Status, target: Status, now: int, inThreeMonths: int)
    requires WaitingUndecided(t) && target.Terminal() && !expected.Terminal()
    requires forall x: Transaction :: p(x) ==> x.status == expected
    requires CronPass(t, Lites(t, Where(t.transactions, p)), expected, target, now, inThreeMonths).failure.None?
    ensures var t' := CronPass(t, Lites(t, Where(t.transactions, p)), expected, target, now, inThreeMonths).tables;
            && WaitingUndecided(t')
            && (forall k :: Exists(t'.transactions, k) ==> !p(At(t'.transactions, k)))
            && Where(t'.transactions, p) == []
  {
    var lites := Lites(t, Where(t.transactions, p));
    PassClearsRows(t, lites, p, expected, target, now, inThreeMonths);
    WhereEmpty(CronPass(t, lites, expected, target, now, inThreeMonths).tables.transactions, p);
  }

  /**
    A tick that completes leaves no row unpaid past its deadline and none
    undecided past its deadline.
   */
  lemma TickClears(t: Tables, now: int, inThreeMonths: int)
    requires WaitingUndecided(t)
    requires Tick(t, now, inThreeMonths).failure.None?
    ensures var t' := Tick(t, now, inThreeMonths).tables;
            && ExpireSelection(t', now) == []
            && CancelSelection(t', now) == []
  {
    var unpaid := (x: Transaction) => UnpaidPastDue(x, now);
    var undecided := (x: Transaction) => UndecidedPastDue(x, now);
    PassClears(t, unpaid, WaitingForPayment, Expired, now, inThreeMonths);
    var t1 := CronPass(t, ExpireSelection(t, now), WaitingForPayment, Expired, now, inThreeMonths).tables;
    PassClears(t1, undecided, WaitingForAdminConfirmation, Canceled, now, inThreeMonths);
    var lites := CancelSelection(t1, now);
    var t' := Tick(t, now, inThreeMonths).tables;
    forall k | Exists(t'.transactions, k)
      ensures !unpaid(At(t'.transactions, k))
    {
      PassRow(t1, lites, WaitingForAdminConfirmation, Canceled, now, inThreeMonths, k);
    }
    WhereEmpty(t'.transactions, unpaid);
  }

  // ----- what the rollback gives back -----

  /**
    The rollback puts the quantity back on the event, and on the ticket type
    if one is linked, without capping either at its total.
   */
  lemma CronSeatEffects(t: Tables, trx: TxLite, inThreeMonths: int)
    requires Exists(t.transactions, trx.id)
    requires RollbackResources(t, trx, inThreeMonths).Ok?
    ensures var t' := RollbackResources(t, trx, inThreeMonths).value;
            && Exists(t.events, trx.eventId)
            && At(t'.events, trx.eventId).remainingSeats == At(t.events, trx.eventId).remainingSeats + trx.qty
            && At(t'.events, trx.eventId).totalSeats == At(t.events, trx.eventId).totalSeats
            && (forall k :: Exists(t.events, k) && k != trx.eventId ==> At(t'.events, k) == At(t.events, k))
            && (Linked(trx.ticketTypeId) ==>
                  && Exists(t.ticketTypes, trx.ticketTypeId.value)
                  && At(t'.ticketTypes, trx.ticketTypeId.value).remainingSeats
                     == At(t.ticketTypes, trx.ticketTypeId.value).remainingSeats + trx.qty)
            && (!Linked(trx.ticketTypeId) ==> t'.ticketTypes == t.ticketTypes)
  {
  }

  /**
    The rollback takes `min(qty, usedCount)` uses off a linked voucher, never
    leaving it below zero, and credits spent points back once.
   */
  lemma CronVoucherAndLedgerEffects(t: Tables, trx: TxLite, inThreeMonths: int)
    requires Exists(t.transactions, trx.id)
    requires RollbackResources(t, trx, inThreeMonths).Ok?
    ensures var t' := RollbackResources(t, trx, inThreeMonths).value;
            && (Linked(trx.voucherId) && Exists(t.vouchers, trx.voucherId.value) ==>
                  var used := At(t.vouchers, trx.voucherId.value).usedCount;
                  && At(t'.vouchers, trx.voucherId.value).usedCount == used - Max(0, Min(trx.qty, used))
                  && (used >= 0 ==> At(t'.vouchers, trx.voucherId.value).usedCount >= 0))
            && (!Linked(trx.voucherId) ==> t'.vouchers == t.vouchers)
            && t'.ledger == t.ledger + (if trx.pointsUsed > 0 then [CronRefund(trx, inThreeMonths)] else [])
  {
  }

  // ----- a committed block keeps the database valid -----

  /** The row a committed block leaves: swept, unlinked from its coupon, its points refunded. */
  function CronRow(x: Transaction, trx: TxLite, target: Status, now: int): Transaction {
    var swept := x.(status := target, decidedAt := Some(now), decisionDueAt := None);
    var unlinked := if Linked(trx.couponId) then swept.(couponId := None, couponDiscount := 0) else swept;
    if trx.pointsUsed > 0 then unlinked.(pointsUsed := 0) else unlinked
  }

  /** A committed block that matched rewrites exactly its own row, to `CronRow`. */
  lemma StepWritesRow(t: Tables, trx: TxLite, expected: Status, target: Status, now: int, inThreeMonths: int)
    requires Guard(t, trx.id, expected)
    requires CronStep(t, trx, expected, target, now, inThreeMonths).Ok?
    ensures CronStep(t, trx, expected, target, now, inThreeMonths).value.transactions
         == Put(t.transactions, trx.id, CronRow(At(t.transactions, trx.id), trx, target, now))
  {
    var t' := CronStep(t, trx, expected, target, now, inThreeMonths).value;
    var r := Put(t.transactions, trx.id, CronRow(At(t.transactions, trx.id), trx, target, now));
    RollbackTouchesOneRow(StatusWritten(t, trx.id, target, now), trx, inThreeMonths);
    forall i | 0 <= i < |r|
      ensures t'.transactions[i] == r[i]
    {
      assert t'.transactions[i] == At(t'.transactions, i + 1) && r[i] == At(r, i + 1);
    }
  }

  /** The rollback moves seats and voucher uses only: every price stays, every voucher stays within its bounds. */
  lemma CronKeepsPricesAndVouchers(t: Tables, trx: TxLite, inThreeMonths: int)
    requires Exists(t.transactions, trx.id)
    requires PricesValid(t) && forall i :: 0 <= i < |t.vouchers| ==> VoucherValid(t.vouchers[i])
    requires RollbackResources(t, trx, inThreeMonths).Ok?
    ensures var t' := RollbackResources(t, trx, inThreeMonths).value;
            && PricesValid(t')
            && forall i :: 0 <= i < |t'.vouchers| ==> VoucherValid(t'.vouchers[i])
  {
    var t1 := SeatsIncremented(t, trx).value;
    var t2 := VoucherDecremented(t1, trx);
    forall i | 0 <= i < |t1.events|
      ensures t1.events[i].price >= 0
    {
      assert t1.events[i] == At(t1.events, i + 1) && t.events[i] == At(t.events, i + 1);
    }
    forall i | 0 <= i < |t1.ticketTypes|
      ensures t1.ticketTypes[i].price >= 0
    {
      assert t1.ticketTypes[i] == At(t1.ticketTypes, i + 1) && t.ticketTypes[i] == At(t.ticketTypes, i + 1);
    }
    forall i | 0 <= i < |t2.vouchers|
      ensures VoucherValid(t2.vouchers[i])
    {
      assert t2.vouchers[i] == At(t2.vouchers, i + 1) && t1.vouchers[i] == At(t1.vouchers, i + 1);
    }
  }

  /** The rollback marks its coupon unused, keeping its code, owner and expiry, and changes no other coupon. */
  lemma CronCoupons(t: Tables, trx: TxLite, inThreeMonths: int)
    requires Exists(t.transactions, trx.id)
    requires RollbackResources(t, trx, inThreeMonths).Ok?
    ensures var t' := RollbackResources(t, trx, inThreeMonths).value;
            && |t'.coupons| == |t.coupons|
            && (Linked(trx.couponId) ==>
                  Exists(t.coupons, trx.couponId.value)
                  && At(t'.coupons, trx.couponId.value) == At(t.coupons, trx.couponId.value).(usedAt := None))
            && (forall k :: Exists(t.coupons, k) && !(Linked(trx.couponId) && k == trx.couponId.value) ==> At(t'.coupons, k) == At(t.coupons, k))
  {
  }

  /** Rows other than the swept one keep their coupon, which stays marked used. */
  lemma CronOtherRowsStayValid(t: Tables, trx: TxLite, expected: Status, target: Status, now: int, inThreeMonths: int, k: nat)
    requires Valid(t) && Guard(t, trx.id, expected) && Lite(t, trx.id) == trx
    requires CronStep(t, trx, expected, target, now, inThreeMonths).Ok?
    requires Exists(t.transactions, k) && k != trx.id
    ensures RowValid(CronStep(t, trx, expected, target, now, inThreeMonths).value, At(t.transactions, k))
  {
    var y := At(t.transactions, k);
    var tw := StatusWritten(t, trx.id, target, now);
    CronCoupons(tw, trx, inThreeMonths);
    assert RowValid(t, y) by {
      assert y == t.transactions[k - 1];
    }
    if y.couponId.Some? && Linked(trx.couponId) {
      assert y.couponId != trx.couponId by {
        if k < trx.id {
          assert t.transactions[k - 1].couponId != t.transactions[trx.id - 1].couponId;
        } else {
          assert t.transactions[trx.id - 1].couponId != t.transactions[k - 1].couponId;
        }
      }
    }
  }

  /** The swept row is valid: terminal, decided, and no longer holding its coupon. */
  lemma CronRowValid(t: Tables, t': Tables, x: Transaction, trx: TxLite, target: Status, now: int)
    requires RowValid(t, x) && target.RolledBack() && x.couponId == trx.couponId
    requires |t'.events| == |t.events| && |t'.ticketTypes| == |t.ticketTypes| && |t'.vouchers| == |t.vouchers|
    ensures RowValid(t', CronRow(x, trx, target, now))
  {
  }

  /** Every row after a committed block that matched is valid and keeps its quantity. */
  lemma CronRowsValid(t: Tables, trx: TxLite, expected: Status, target: Status, now: int, inThreeMonths: int)
    requires Valid(t) && target.RolledBack() && Guard(t, trx.id, expected) && Lite(t, trx.id) == trx
    requires CronStep(t, trx, expected, target, now, inThreeMonths).Ok?
    ensures var t' := CronStep(t, trx, expected, target, now, inThreeMonths).value;
            forall i :: 0 <= i < |t'.transactions| ==> RowValid(t', t'.transactions[i]) && t'.transactions[i].qty >= 1
  {
    var x := At(t.transactions, trx.id);
    var t' := CronStep(t, trx, expected, target, now, inThreeMonths).value;
    StepWritesRow(t, trx, expected, target, now, inThreeMonths);
    assert RowValid(t, x) by {
      assert x == t.transactions[trx.id - 1];
    }
    CronRowValid(t, t', x, trx, target, now);
    forall i | 0 <= i < |t'.transactions|
      ensures RowValid(t', t'.transactions[i]) && t'.transactions[i].qty >= 1
    {
      assert t'.transactions[i] == At(t'.transactions, i + 1);
      assert t.transactions[i] == At(t.transactions, i + 1);
      if i + 1 != trx.id {
        CronOtherRowsStayValid(t, trx, expected, target, now, inThreeMonths, i + 1);
      }
    }
  }

  /**
    A committed block of the sweeper keeps the database valid, provided the
    row it was given still holds the values the sweeper selected.
   */
  lemma CronStepPreservesValid(t: Tables, trx: TxLite, expected: Status, target: Status, now: int, inThreeMonths: int)
    requires Valid(t) && target.RolledBack()
    requires Exists(t.transactions, trx.id) ==> Lite(t, trx.id) == trx
    requires CronStep(t, trx, expected, target, now, inThreeMonths).Ok?
    ensures Valid(CronStep(t, trx, expected, target, now, inThreeMonths).value)
  {
    if Guard(t, trx.id, expected) {
      var x := At(t.transactions, trx.id);
      CronKeepsPricesAndVouchers(StatusWritten(t, trx.id, target, now), trx, inThreeMonths);
      StepWritesRow(t, trx, expected, target, now, inThreeMonths);
      CronRowsValid(t, trx, expected, target, now, inThreeMonths);
      UnlinkKeepsCouponsLinkedOnce(t.transactions, trx.id, CronRow(x, trx, target, now));
    }
  }

  /** Each selected row is read once, and holds the values the sweeper read. */
  ghost predicate SelectionOf(t: Tables, lites: seq<TxLite>) {
    && (forall i :: 0 <= i < |lites| && Exists(t.transactions, lites[i].id) ==> Lite(t, lites[i].id) == lites[i])
    && (forall i, j :: 0 <= i < j < |lites| ==> lites[i].id != lites[j].id)
  }

  /** The sweeper's own selections qualify. */
  lemma SelectionsAreSelections(t: Tables, now: int)
    ensures SelectionOf(t, ExpireSelection(t, now)) && SelectionOf(t, CancelSelection(t, now))
  {
  }

  /** One more block after a pass keeps the database valid if the row it was given was not touched by the pass. */
  lemma CronNextPreservesValid(t: Tables, init: seq<TxLite>, trx: TxLite, expected: Status, target: Status, now: int, inThreeMonths: int)
    requires target.RolledBack() && Valid(CronPass(t, init, expected, target, now, inThreeMonths).tables)
    requires Exists(t.transactions, trx.id) ==> Lite(t, trx.id) == trx && trx.id !in Ids(init)
    ensures Valid(CronNext(CronPass(t, init, expected, target, now, inThreeMonths), trx, expected, target, now, inThreeMonths).tables)
  {
    var prefix := CronPass(t, init, expected, target, now, inThreeMonths);
    if prefix.failure.None? && CronStep(prefix.tables, trx, expected, target, now, inThreeMonths).Ok? {
      if Exists(t.transactions, trx.id) {
        PassRow(t, init, expected, target, now, inThreeMonths, trx.id);
      }
      CronStepPreservesValid(prefix.tables, trx, expected, target, now, inThreeMonths);
    }
  }

  /** A pass keeps the database valid, whether or not it completes. */
  lemma {:induction false} CronPassPreservesValid(t: Tables, lites: seq<TxLite>, expected: Status, target: Status, now: int, inThreeMonths: int)
    requires Valid(t) && target.RolledBack() && SelectionOf(t, lites)
    ensures Valid(CronPass(t, lites, expected, target, now, inThreeMonths).tables)
    decreases |lites|
  {
    if lites != [] {
      var n := |lites|;
      var init := lites[..n - 1];
      CronPassPreservesValid(t, init, expected, target, now, inThreeMonths);
      assert lites[n - 1].id !in Ids(init);
      CronNextPreservesValid(t, init, lites[n - 1], expected, target, now, inThreeMonths);
    }
  }

  /** A tick keeps the database valid, whether or not it completes. */
  lemma TickPreservesValid(t: Tables, now: int, inThreeMonths: int)
    requires Valid(t)
    ensures Valid(Tick(t, now, inThreeMonths).tables)
  {
    SelectionsAreSelections(t, now);
    CronPassPreservesValid(t, ExpireSelection(t, now), WaitingForPayment, Expired, now, inThreeMonths);
    var t1 := CronPass(t, ExpireSelection(t, now), WaitingForPayment, Expired, now, inThreeMonths).tables;
    SelectionsAreSelections(t1, now);
    CronPassPreservesValid(t1, CancelSelection(t1, now), WaitingForAdminConfirmation, Canceled, now, inThreeMonths);
  }
}
