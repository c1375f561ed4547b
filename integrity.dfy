/**
  The database invariants: what the schema's foreign keys and unique keys
  guarantee, and what the services keep true of every row they write.
  Each service operation is shown to preserve `Valid`; the service operations
  (but not the cron sweeper) also preserve `SeatBounds`.
 */
module Integrity {
  import opened Schema

  /** The amount identity of a transaction that has not been rolled back. */
  predicate AmountsAddUp(x: Transaction) {
    x.totalAmount == Max(0, x.subtotalAmount - x.voucherDiscount - x.couponDiscount - x.pointsUsed)
  }

  /** What must hold of every transaction row. */
  predicate RowValid(t: Tables, x: Transaction) {
    // foreign keys
    && Exists(t.events, x.eventId)
    && (x.ticketTypeId.Some? ==> Exists(t.ticketTypes, x.ticketTypeId.value))
    && (x.voucherId.Some? ==> Exists(t.vouchers, x.voucherId.value))
    // a linked coupon is marked used
    && (x.couponId.Some? ==> Exists(t.coupons, x.couponId.value) && At(t.coupons, x.couponId.value).usedAt.Some?)
    // `decidedAt` is set exactly when the row is terminal
    && (x.decidedAt.Some? <==> x.status.Terminal())
    // the fields of each waiting stage
    && (x.status == WaitingForPayment ==>
          x.paymentProofUrl.None? && x.paymentProofUploadedAt.None? && x.decisionDueAt.None?)
    && (x.status == WaitingForAdminConfirmation ==>
          x.paymentProofUrl.Some? && x.paymentProofUploadedAt.Some? && x.decisionDueAt.Some?)
    && (!x.status.RolledBack() ==> AmountsAddUp(x))
  }

  predicate VoucherValid(v: Voucher) {
    0 <= v.usedCount && (v.maxUses.Some? ==> v.usedCount <= v.maxUses.value)
  }

  /** The unique key on `Transaction.couponId`. */
  predicate CouponsLinkedOnce(txs: seq<Transaction>) {
    forall i, j :: 0 <= i < j < |txs| && txs[i].couponId.Some? ==> txs[i].couponId != txs[j].couponId
  }

  /** The unique key on (user, event) of reviews, and the rating range. */
  predicate ReviewsValid(rs: seq<Review>) {
    && (forall i :: 0 <= i < |rs| ==> 1 <= rs[i].rating <= 5)
    && (forall i, j :: 0 <= i < j < |rs| ==> rs[i].userId != rs[j].userId || rs[i].eventId != rs[j].eventId)
  }

  predicate EmailsUnique(us: seq<User>) {
    forall i, j :: 0 <= i < j < |us| ==> us[i].email != us[j].email
  }

  predicate PricesValid(t: Tables) {
    && (forall i :: 0 <= i < |t.events| ==> t.events[i].price >= 0)
    && (forall i :: 0 <= i < |t.ticketTypes| ==> t.ticketTypes[i].price >= 0)
  }

  predicate Valid(t: Tables) {
    && (forall i :: 0 <= i < |t.transactions| ==> RowValid(t, t.transactions[i]))
    && (forall i :: 0 <= i < |t.transactions| ==> t.transactions[i].qty >= 1)
    && (forall i :: 0 <= i < |t.vouchers| ==> VoucherValid(t.vouchers[i]))
    && CouponsLinkedOnce(t.transactions)
    && ReviewsValid(t.reviews)
    && EmailsUnique(t.users)
    && PricesValid(t)
  }

  /** `0 <= remainingSeats <= totalSeats` on every event and ticket type. */
  predicate SeatBounds(t: Tables) {
    && (forall i :: 0 <= i < |t.events| ==> 0 <= t.events[i].remainingSeats <= t.events[i].totalSeats)
    && (forall i :: 0 <= i < |t.ticketTypes| ==> 0 <= t.ticketTypes[i].remainingSeats <= t.ticketTypes[i].totalSeats)
  }

  /** The tables only grow and a coupon marked used stays marked: every valid row stays valid. */
  ghost predicate KeepsRowsValid(t: Tables, t': Tables) {
    && |t.events| <= |t'.events| && |t.ticketTypes| <= |t'.ticketTypes|
    && |t.vouchers| <= |t'.vouchers| && |t.coupons| <= |t'.coupons|
    && (forall k :: Exists(t.coupons, k) && At(t.coupons, k).usedAt.Some? ==> At(t'.coupons, k).usedAt.Some?)
  }

  lemma RowStaysValid(t: Tables, t': Tables, x: Transaction)
    requires RowValid(t, x) && KeepsRowsValid(t, t')
    ensures RowValid(t', x)
  {
  }

  /** Replacing a row by one with the same coupon or none keeps coupon links unique. */
  lemma UnlinkKeepsCouponsLinkedOnce(txs: seq<Transaction>, id: nat, row: Transaction)
    requires CouponsLinkedOnce(txs) && Exists(txs, id)
    requires row.couponId.None? || row.couponId == At(txs, id).couponId
    ensures CouponsLinkedOnce(Put(txs, id, row))
  {
    var txs' := Put(txs, id, row);
    forall i, j | 0 <= i < j < |txs'| && txs'[i].couponId.Some?
      ensures txs'[i].couponId != txs'[j].couponId
    {
      assert txs'[i] == At(txs', i + 1) && txs'[j] == At(txs', j + 1);
      assert txs[i] == At(txs, i + 1) && txs[j] == At(txs, j + 1);
    }
  }
}
