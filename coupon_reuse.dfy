/**
  A coupon freed by a rollback can be redeemed again. Both compensators,
  the service's `rollbackAndSetStatus` and the sweeper's `rollbackResources`,
  clear `usedAt` and keep the coupon's code, owner and expiry, so the next
  `create` of the same customer with the same code finds it and redeems it.
 */
module CouponReuse {
  import opened Schema
  import opened Integrity
  import TransactionCreation
  import TransactionLifecycle
  import ExpiredTransaction

  /**
    A lookup by a predicate finds the same row in a table that agrees with
    the old one on whether each row up to it satisfies the predicate.
   */
  lemma FindFirstKept<T>(a: seq<T>, b: seq<T>, p: T -> bool, id: nat)
    requires FindFirst(a, p) == Some(id) && Exists(b, id) && p(At(b, id))
    requires forall k :: 1 <= k < id ==> Exists(b, k) && p(At(b, k)) == p(At(a, k))
    ensures FindFirst(b, p) == Some(id)
  {
    assert forall k :: 1 <= k < id ==> !p(At(b, k));
  }

  /**
    The owner's coupon, unexpired at `later` and released by the service's
    rollback, is redeemed again by `create`'s coupon check at `later`.
   */
  lemma ServiceRollbackFreesCoupon(t: Tables, id: int, status: Status, now: int, inThreeMonths: int, later: int)
    requires Exists(t.transactions, id) && !At(t.transactions, id).status.Terminal()
    requires Linked(At(t.transactions, id).couponId)
    requires TransactionLifecycle.Rollback(t, id, status, now, inThreeMonths).Ok?
    requires var x := At(t.transactions, id);
             var c := At(t.coupons, x.couponId.value);
             && c.code != "" && c.userId == x.customerId && later <= c.expiresAt
             && FindFirst(t.coupons, TransactionCreation.CouponWithCode(c.code)) == Some(x.couponId.value)
    ensures var x := At(t.transactions, id);
            var c := At(t.coupons, x.couponId.value);
            var t' := TransactionLifecycle.Rollback(t, id, status, now, inThreeMonths).value;
            && At(t'.coupons, x.couponId.value) == c.(usedAt := None)
            && TransactionCreation.ResolveCoupon(t'.coupons, Some(c.code), x.customerId, later) == Ok(Some(x.couponId.value))
  {
    var x := At(t.transactions, id);
    var cid := x.couponId.value;
    var c := At(t.coupons, cid);
    var t' := TransactionLifecycle.Rollback(t, id, status, now, inThreeMonths).value;
    TransactionLifecycle.RollbackEffects(t, id, status, now, inThreeMonths);
    TransactionLifecycle.RollbackFrames(t, id, status, now, inThreeMonths);
    FindFirstKept(t.coupons, t'.coupons, TransactionCreation.CouponWithCode(c.code), cid);
  }

  /**
    The same for the sweeper: a row it expires or cancels gives its coupon
    back, and `create` redeems it again for its owner.
   */
  lemma CronRollbackFreesCoupon(t: Tables, trx: ExpiredTransaction.TxLite, expected: Status, target: Status,
                                now: int, inThreeMonths: int, later: int)
    requires ExpiredTransaction.Guard(t, trx.id, expected)
    requires Linked(trx.couponId)
    requires ExpiredTransaction.CronStep(t, trx, expected, target, now, inThreeMonths).Ok?
    requires Exists(t.coupons, trx.couponId.value)
    requires var c := At(t.coupons, trx.couponId.value);
             && c.code != "" && c.userId == trx.customerId && later <= c.expiresAt
             && FindFirst(t.coupons, TransactionCreation.CouponWithCode(c.code)) == Some(trx.couponId.value)
    ensures var c := At(t.coupons, trx.couponId.value);
            var t' := ExpiredTransaction.CronStep(t, trx, expected, target, now, inThreeMonths).value;
            && At(t'.coupons, trx.couponId.value) == c.(usedAt := None)
            && TransactionCreation.ResolveCoupon(t'.coupons, Some(c.code), trx.customerId, later) == Ok(Some(trx.couponId.value))
  {
    var cid := trx.couponId.value;
    var c := At(t.coupons, cid);
    var t1 := ExpiredTransaction.StatusWritten(t, trx.id, target, now);
    var t' := ExpiredTransaction.CronStep(t, trx, expected, target, now, inThreeMonths).value;
    assert t' == ExpiredTransaction.RollbackResources(t1, trx, inThreeMonths).value;
    ExpiredTransaction.CronCoupons(t1, trx, inThreeMonths);
    FindFirstKept(t.coupons, t'.coupons, TransactionCreation.CouponWithCode(c.code), cid);
  }

  /**
    The round trip: after the service rolls a purchase back, the same
    customer's next purchase with that coupon code, all its other checks
    passing, is planned with that very coupon.
   */
  lemma RollbackThenCreateReusesCoupon(t: Tables, id: int, status: Status, now: int, inThreeMonths: int,
                                       body: TransactionCreation.CreateBody, later: int)
    requires Exists(t.transactions, id) && !At(t.transactions, id).status.Terminal()
    requires Linked(At(t.transactions, id).couponId)
    requires TransactionLifecycle.Rollback(t, id, status, now, inThreeMonths).Ok?
    requires var x := At(t.transactions, id);
             var c := At(t.coupons, x.couponId.value);
             && c.code != "" && c.userId == x.customerId && later <= c.expiresAt
             && FindFirst(t.coupons, TransactionCreation.CouponWithCode(c.code)) == Some(x.couponId.value)
             && body.couponCode == Some(c.code)
    requires var t' := TransactionLifecycle.Rollback(t, id, status, now, inThreeMonths).value;
             && Exists(t'.events, body.eventId) && At(t'.events, body.eventId).isPublished
             && TransactionCreation.ResolveTarget(t', body).Ok?
             && TransactionCreation.SeatsLeft(t', TransactionCreation.ResolveTarget(t', body).value) >= body.qty
             && TransactionCreation.ResolveVoucher(t'.vouchers, body.voucherCode, body.eventId, later).Ok?
    ensures var x := At(t.transactions, id);
            var t' := TransactionLifecycle.Rollback(t, id, status, now, inThreeMonths).value;
            var plan := TransactionCreation.PlanCreate(t', x.customerId, body, later);
            plan.Ok? && plan.value.couponId == Some(x.couponId.value)
  {
    var x := At(t.transactions, id);
    var t' := TransactionLifecycle.Rollback(t, id, status, now, inThreeMonths).value;
    ServiceRollbackFreesCoupon(t, id, status, now, inThreeMonths, later);
    TransactionCreation.PlanOfChecks(t', x.customerId, body, later,
                                     TransactionCreation.ResolveTarget(t', body).value,
                                     TransactionCreation.ResolveVoucher(t'.vouchers, body.voucherCode, body.eventId, later).value,
                                     Some(x.couponId.value));
  }
}
