/**
  The two compensators side by side: `rollbackAndSetStatus` of the
  transaction service and `rollbackResources` of the cron sweeper. They
  agree on which rows they sweep and never both release the same row, but
  they give back different amounts.
 */
module RollbackComparison {
  import opened Schema
  import opened Integrity
  import TransactionLifecycle
  import ExpiredTransaction

  /** Two filters that agree on every row of a table select the same ids. */
  lemma {:induction false} WhereAgree(table: seq<Transaction>, p: Transaction -> bool, q: Transaction -> bool)
    requires forall i :: 0 <= i < |table| ==> p(table[i]) == q(table[i])
    ensures Where(table, p) == Where(table, q)
    decreases |table|
  {
    if table != [] {
      WhereAgree(table[..|table| - 1], p, q);
    }
  }

  /**
    On a valid database the service's expiry filter (no `paymentProofUploadedAt`)
    and the sweeper's (no `paymentProofUrl`) select the same rows, and so do
    the two cancel filters.
   */
  lemma FiltersAgreeOnValid(t: Tables, now: int)
    requires Valid(t)
    ensures TransactionLifecycle.ExpireTargets(t, now)
         == Where(t.transactions, (x: Transaction) => ExpiredTransaction.UnpaidPastDue(x, now))
    ensures TransactionLifecycle.CancelTargets(t, now)
         == Where(t.transactions, (x: Transaction) => ExpiredTransaction.UndecidedPastDue(x, now))
  {
    WhereAgree(t.transactions, (x: Transaction) => TransactionLifecycle.OverdueUnpaid(x, now),
               (x: Transaction) => ExpiredTransaction.UnpaidPastDue(x, now));
    WhereAgree(t.transactions, (x: Transaction) => TransactionLifecycle.OverdueUndecided(x, now),
               (x: Transaction) => ExpiredTransaction.UndecidedPastDue(x, now));
  }

  /** A row with a proof URL but no upload time: the service expires it, the sweeper does not. */
  lemma FiltersDifferOffValid()
    ensures var x := Transaction(1, 1, None, 1, 100, None, 0, None, 0, 0, 100, WaitingForPayment,
                                 10, Some("https://proof"), None, None, None);
            TransactionLifecycle.OverdueUnpaid(x, 20) && !ExpiredTransaction.UnpaidPastDue(x, 20)
  {
  }

  /**
    A completed service expiry sweep leaves the sweeper nothing to expire
    on a valid database.
   */
  lemma ServiceSweepLeavesCronNothing(t: Tables, now: int, inThreeMonths: int)
    requires Valid(t)
    ensures var t' := TransactionLifecycle.RollbackEach(t, TransactionLifecycle.ExpireTargets(t, now), Expired, now, inThreeMonths).tables;
            ExpiredTransaction.ExpireSelection(t', now) == []
  {
    var t' := TransactionLifecycle.RollbackEach(t, TransactionLifecycle.ExpireTargets(t, now), Expired, now, inThreeMonths).tables;
    TransactionLifecycle.RollbackEachPreservesValid(t, TransactionLifecycle.ExpireTargets(t, now), Expired, now, inThreeMonths);
    TransactionLifecycle.AutoExpireIdempotent(t, now, inThreeMonths);
    FiltersAgreeOnValid(t', now);
  }

  /** After the service has rolled a row back, the sweeper's compare-and-set misses it. */
  lemma ServiceThenCronReleasesOnce(t: Tables, id: nat, status: Status, now: int, inThreeMonths: int,
                                    trx: ExpiredTransaction.TxLite, expected: Status, target: Status)
    requires Exists(t.transactions, id) && status.Terminal() && !expected.Terminal() && trx.id == id
    requires TransactionLifecycle.Rollback(t, id, status, now, inThreeMonths).Ok?
    ensures var t' := TransactionLifecycle.Rollback(t, id, status, now, inThreeMonths).value;
            ExpiredTransaction.CronStep(t', trx, expected, target, now, inThreeMonths) == Ok(t')
  {
    if !At(t.transactions, id).status.Terminal() {
      TransactionLifecycle.RollbackEffects(t, id, status, now, inThreeMonths);
    }
  }

  /** After the sweeper has rolled a row back, the service's compensator leaves it alone. */
  lemma CronThenServiceReleasesOnce(t: Tables, trx: ExpiredTransaction.TxLite, expected: Status, target: Status,
                                    now: int, inThreeMonths: int, status: Status)
    requires ExpiredTransaction.Guard(t, trx.id, expected) && target.Terminal()
    requires ExpiredTransaction.CronStep(t, trx, expected, target, now, inThreeMonths).Ok?
    ensures var t' := ExpiredTransaction.CronStep(t, trx, expected, target, now, inThreeMonths).value;
            TransactionLifecycle.Rollback(t', trx.id, status, now, inThreeMonths) == Ok(t')
  {
    ExpiredTransaction.StepFrame(t, trx, expected, target, now, inThreeMonths);
  }

  /**
    The service's rollback keeps `decisionDueAt`; the sweeper clears it.
   */
  lemma DecisionDeadlineDiffers(t: Tables, trx: ExpiredTransaction.TxLite, now: int, inThreeMonths: int)
    requires ExpiredTransaction.Guard(t, trx.id, WaitingForAdminConfirmation)
    requires At(t.transactions, trx.id).decisionDueAt.Some?
    requires TransactionLifecycle.Rollback(t, trx.id, Canceled, now, inThreeMonths).Ok?
    requires ExpiredTransaction.CronStep(t, trx, WaitingForAdminConfirmation, Canceled, now, inThreeMonths).Ok?
    ensures var byService := TransactionLifecycle.Rollback(t, trx.id, Canceled, now, inThreeMonths).value;
            var byCron := ExpiredTransaction.CronStep(t, trx, WaitingForAdminConfirmation, Canceled, now, inThreeMonths).value;
            && At(byService.transactions, trx.id).decisionDueAt == At(t.transactions, trx.id).decisionDueAt
            && At(byCron.transactions, trx.id).decisionDueAt.None?
  {
    TransactionLifecycle.RollbackEffects(t, trx.id, Canceled, now, inThreeMonths);
    ExpiredTransaction.StepFrame(t, trx, WaitingForAdminConfirmation, Canceled, now, inThreeMonths);
  }

  /**
    For a row booked on a ticket type, `create` took no event seat, yet the
    sweeper puts `qty` seats back on the event: an event whose own count
    shows no seat sold (remaining equal to total) ends above its total. The service's rollback keeps every
    seat count within bounds.
   */
  lemma CronOverfillsEvent(t: Tables, trx: ExpiredTransaction.TxLite, expected: Status, target: Status, now: int, inThreeMonths: int)
    requires ExpiredTransaction.Guard(t, trx.id, expected)
    requires ExpiredTransaction.CronStep(t, trx, expected, target, now, inThreeMonths).Ok?
    requires Linked(trx.ticketTypeId) && trx.qty >= 1
    requires Exists(t.events, trx.eventId) && At(t.events, trx.eventId).remainingSeats == At(t.events, trx.eventId).totalSeats
    ensures !SeatBounds(ExpiredTransaction.CronStep(t, trx, expected, target, now, inThreeMonths).value)
  {
    var t' := ExpiredTransaction.CronStep(t, trx, expected, target, now, inThreeMonths).value;
    ExpiredTransaction.CronSeatEffects(ExpiredTransaction.StatusWritten(t, trx.id, target, now), trx, inThreeMonths);
    assert t'.events[trx.eventId - 1] == At(t'.events, trx.eventId);
  }

  /**
    `create` adds one use to the voucher; the service gives back one, the
    sweeper `min(qty, usedCount)`: for two or more tickets on a voucher used
    at least twice, the sweeper gives back more than the purchase took.
   */
  lemma CronOverReleasesVoucher(t: Tables, trx: ExpiredTransaction.TxLite, expected: Status, target: Status, now: int, inThreeMonths: int)
    requires ExpiredTransaction.Guard(t, trx.id, expected)
    requires ExpiredTransaction.CronStep(t, trx, expected, target, now, inThreeMonths).Ok?
    requires Linked(trx.voucherId) && Exists(t.vouchers, trx.voucherId.value) && trx.qty >= 2
    requires At(t.vouchers, trx.voucherId.value).usedCount >= 2
    ensures var used := At(t.vouchers, trx.voucherId.value).usedCount;
            var t' := ExpiredTransaction.CronStep(t, trx, expected, target, now, inThreeMonths).value;
            At(t'.vouchers, trx.voucherId.value).usedCount <= used - 2 < Max(0, used - 1)
  {
    ExpiredTransaction.CronVoucherAndLedgerEffects(ExpiredTransaction.StatusWritten(t, trx.id, target, now), trx, inThreeMonths);
  }
}
