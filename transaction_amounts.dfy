/**
  The pure arithmetic of a purchase: the point balance read from the ledger
  (`calcAvailablePoints`) and the discount stack of `create`
  (voucher, then coupon, then points, then the total).
 */
module TransactionAmounts {
  import opened Schema

  /** A ledger row the balance query selects: the user's, with no expiry or one strictly after `now`. */
  predicate Counts(e: LedgerEntry, userId: nat, now: int) {
    e.userId == userId && (e.expiresAt.None? || e.expiresAt.value > now)
  }

  /** The amounts of the rows the balance query selects, in table order. */
  function SelectedAmounts(ledger: seq<LedgerEntry>, userId: nat, now: int): (xs: seq<int>)
    ensures |xs| <= |ledger|
  {
    if ledger == [] then []
    else (if Counts(ledger[0], userId, now) then [ledger[0].amount] else [])
         + SelectedAmounts(ledger[1..], userId, now)
  }

  /** The `reduce((sum, r) => sum + r.amount, 0)`. */
  function Sum(xs: seq<int>): int {
    if xs == [] then 0 else xs[0] + Sum(xs[1..])
  }

  /** `calcAvailablePoints`: the user's balance at `now`. */
  function AvailablePoints(ledger: seq<LedgerEntry>, userId: nat, now: int): int {
    Sum(SelectedAmounts(ledger, userId, now))
  }

  lemma {:induction false} SumAppend(xs: seq<int>, ys: seq<int>)
    ensures Sum(xs + ys) == Sum(xs) + Sum(ys)
  {
    if xs == [] {
      assert xs + ys == ys;
    } else {
      assert (xs + ys)[1..] == xs[1..] + ys;
      SumAppend(xs[1..], ys);
    }
  }

  lemma {:induction false} SelectedAppend(ledger: seq<LedgerEntry>, e: LedgerEntry, userId: nat, now: int)
    ensures SelectedAmounts(ledger + [e], userId, now)
         == SelectedAmounts(ledger, userId, now) + (if Counts(e, userId, now) then [e.amount] else [])
  {
    if ledger == [] {
      assert ledger + [e] == [e];
    } else {
      var head := if Counts(ledger[0], userId, now) then [ledger[0].amount] else [];
      var tail := if Counts(e, userId, now) then [e.amount] else [];
      assert (ledger + [e])[1..] == ledger[1..] + [e];
      assert SelectedAmounts(ledger + [e], userId, now) == head + SelectedAmounts(ledger[1..] + [e], userId, now);
      SelectedAppend(ledger[1..], e, userId, now);
      assert head + (SelectedAmounts(ledger[1..], userId, now) + tail)
          == (head + SelectedAmounts(ledger[1..], userId, now)) + tail;
    }
  }

  /**
    Appending a ledger row changes a user's balance by the row's amount if the
    query selects it, and not at all otherwise: existing rows are never edited.
   */
  lemma AvailableAfterAppend(ledger: seq<LedgerEntry>, e: LedgerEntry, userId: nat, now: int)
    ensures AvailablePoints(ledger + [e], userId, now)
         == AvailablePoints(ledger, userId, now) + (if Counts(e, userId, now) then e.amount else 0)
  {
    SelectedAppend(ledger, e, userId, now);
    SumAppend(SelectedAmounts(ledger, userId, now), if Counts(e, userId, now) then [e.amount] else []);
  }

  /**
    The balance is the sum over selected rows; it is at least zero whenever
    every selected row is a credit.
   */
  lemma {:induction false} AvailableNonNegative(ledger: seq<LedgerEntry>, userId: nat, now: int)
    requires forall i :: 0 <= i < |ledger| && Counts(ledger[i], userId, now) ==> ledger[i].amount >= 0
    ensures AvailablePoints(ledger, userId, now) >= 0
  {
    if ledger != [] {
      assert forall i :: 0 <= i < |ledger[1..]| ==> ledger[1..][i] == ledger[i + 1];
      AvailableNonNegative(ledger[1..], userId, now);
      var head := if Counts(ledger[0], userId, now) then [ledger[0].amount] else [];
      SumAppend(head, SelectedAmounts(ledger[1..], userId, now));
    }
  }

  /**
    Debits never expire but credits do: a referral credit that was spent, the
    purchase rolled back, and both credits past their expiry leave the balance
    negative.
   */
  lemma BalanceCanGoNegative()
    ensures var referralExpiry, refundExpiry, now := 1000, 2000, 3000;
            var ledger := [
              LedgerEntry(7, 10000, ReferralReward, Some(referralExpiry), None, Some(8)),
              LedgerEntry(7, -10000, UsedInTransaction, None, None, None),
              LedgerEntry(7, 10000, RollbackCredit, Some(refundExpiry), Some(1), None)];
            AvailablePoints(ledger, 7, now) == -10000
  {
    var referral := LedgerEntry(7, 10000, ReferralReward, Some(1000), None, Some(8));
    var debit := LedgerEntry(7, -10000, UsedInTransaction, None, None, None);
    var refund := LedgerEntry(7, 10000, RollbackCredit, Some(2000), Some(1), None);
    var empty: seq<LedgerEntry> := [];
    AvailableAfterAppend(empty, referral, 7, 3000);
    assert empty + [referral] == [referral];
    AvailableAfterAppend([referral], debit, 7, 3000);
    AvailableAfterAppend([referral, debit], refund, 7, 3000);
    assert [referral] + [debit] == [referral, debit];
    assert [referral, debit] + [refund] == [referral, debit, refund];
  }

  /** The discount breakdown of one purchase. */
  datatype Amounts = Amounts(voucherDiscount: int, couponDiscount: int, maxPayable: int, pointsUsed: int, total: int)

  /**
    The discount stack in its fixed order: the voucher takes `min(subtotal, amount)`,
    the coupon `min(what is left, amount)`, points `min(requested, balance, what is left)`.
    `voucherAmount`/`couponAmount` are the redeemed voucher's and coupon's
    `discountAmount`, if any; `requested` is the body's `pointsUsed`.
   */
  function ComputeAmounts(subtotal: int, voucherAmount: Option<int>, couponAmount: Option<int>,
                          requested: Option<int>, available: int): (a: Amounts)
    ensures voucherAmount.None? ==> a.voucherDiscount == 0
    ensures voucherAmount.Some? ==>
              && a.voucherDiscount <= subtotal && a.voucherDiscount <= voucherAmount.value
              && (a.voucherDiscount == subtotal || a.voucherDiscount == voucherAmount.value)
    ensures couponAmount.None? ==> a.couponDiscount == 0
    ensures couponAmount.Some? ==>
              && a.couponDiscount <= subtotal - a.voucherDiscount && a.couponDiscount <= couponAmount.value
              && (a.couponDiscount == subtotal - a.voucherDiscount || a.couponDiscount == couponAmount.value)
    ensures a.maxPayable == Max(0, subtotal - a.voucherDiscount - a.couponDiscount)
    ensures a.total >= 0
    ensures a.voucherDiscount <= Max(subtotal, 0) && a.couponDiscount <= Max(subtotal, 0) - a.voucherDiscount
    ensures subtotal >= 0 ==> a.total == Max(0, subtotal - a.voucherDiscount - a.couponDiscount - a.pointsUsed)
    ensures a.pointsUsed <= a.maxPayable && a.pointsUsed <= available
    ensures a.pointsUsed <= Max(0, requested.GetOr(0))
  {
    var vd := if voucherAmount.Some? then Min(subtotal, voucherAmount.value) else 0;
    var cd := if couponAmount.Some? then Min(subtotal - vd, couponAmount.value) else 0;
    var maxPayable := Max(0, subtotal - vd - cd);
    var req := Max(0, requested.GetOr(0));
    var pu := Min(Min(req, available), maxPayable);
    Amounts(vd, cd, maxPayable, pu, Max(0, maxPayable - pu))
  }

  /**
    With a balance of zero or more, the points spent lie between zero and each
    of the three caps, and the total is what is left after them.
   */
  lemma PointsWithinCaps(subtotal: int, voucherAmount: Option<int>, couponAmount: Option<int>,
                         requested: Option<int>, available: int)
    requires subtotal >= 0 && available >= 0
    ensures var a := ComputeAmounts(subtotal, voucherAmount, couponAmount, requested, available);
            && 0 <= a.pointsUsed
            && (a.pointsUsed == Max(0, requested.GetOr(0)) || a.pointsUsed == available || a.pointsUsed == a.maxPayable)
            && a.total == a.maxPayable - a.pointsUsed
            && 0 <= a.total <= subtotal - a.voucherDiscount - a.couponDiscount
  {
  }

  /**
    With a negative balance, `pointsUsed` is that negative balance and the
    total exceeds what was payable after the discounts: the customer is charged
    for the missing points.
   */
  lemma NegativeBalanceRaisesTotal(subtotal: int, voucherAmount: Option<int>, couponAmount: Option<int>,
                                   requested: Option<int>, available: int)
    requires subtotal >= 0 && available < 0
    ensures var a := ComputeAmounts(subtotal, voucherAmount, couponAmount, requested, available);
            a.pointsUsed == available && a.total == a.maxPayable - available > a.maxPayable
  {
  }

  /** Subtotal 100000, voucher 30000, coupon 20000, 60000 points asked with 40000 held. */
  lemma PointsCappedByBalanceExample()
    ensures ComputeAmounts(100000, Some(30000), Some(20000), Some(60000), 40000)
         == Amounts(30000, 20000, 50000, 40000, 10000)
  {
  }
}
