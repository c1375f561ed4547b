# Event ticketing: the purchase lifecycle, modelled in Dafny

This project models the core of an event-ticketing backend: buying tickets, paying, and having the purchase accepted, rejected or expired. Four parts are modelled:

- **The transaction service.** `create` reserves seats and applies a voucher, a coupon and loyalty points in that order. It inserts a transaction that is either `DONE` or `WAITING_FOR_PAYMENT`. The state transitions are `uploadPaymentProof`, `organizerAccept` and `organizerReject`. `rollbackAndSetStatus` is the compensator, and `autoExpire` and `autoCancel` sweep overdue rows.
- **The cron sweeper** (`expired-transaction.ts`). It is a second, independent sweeper. It writes the status with a compare-and-set and then rolls resources back by its own rules. Those rules differ from the service's compensator, and `rollback_comparison.dfy` states the differences. `coupon_reuse.dfy` states that a coupon released by either of them can be redeemed again.
- **Three rule sets around the core.** They read and write the same tables:
  - event `list` paging, `create`, `update`, `createVoucher` and the active-voucher window of `detail`;
  - review eligibility and the review list;
  - `register`, with its referral rewards.

**How the database is modelled.**

- One `Store` object holds one sequence per table. The row with id `k` sits at index `k - 1`.
- Each database `$transaction` block is one method. When such a block throws after some writes, the method restores the tables it saw on entry.
- Each operation has two parts:
  - a function on the value `Tables`, which is its specification;
  - a method on `Store`, which performs the writes in the source's order and is proved to end in the state that function gives.
- The properties are lemmas about those functions. This includes the invariants the operations keep: `Integrity.Valid` (foreign keys, coupon links, row rules, unique keys) and `Integrity.SeatBounds`.

**Inputs taken as parameters.**

- Times are integers in milliseconds, and `now` is a parameter.
- `addMonths(now, 3)` is the parameter `inThreeMonths`.
- The random `genCode` results are parameters.

**Errors.** They are the `ApiError`s of the source, each with its HTTP status. Two more stand for database failures:

- `UniqueViolation` is a unique key refusing an insert.
- `RowMissing` is an `update` or a required relation that finds no row.

Both surface as 500.

## Model

| member | source | states |
|---|---|---|
| Schema.HttpStatus | src/modules/transaction/transaction.service.ts:53-54 | each error maps to the HTTP status the service throws it with: 404 only for a missing event or transaction, 403 only for forbidden access or a missing `DONE` purchase, 500 only for database failures |
| Schema.FindFirst | src/modules/transaction/transaction.service.ts:87 | a `findFirst`/`findUnique` lookup returns the first matching row, or none exactly when no row matches |
| Schema.Where | src/modules/transaction/transaction.service.ts:307-314 | a `findMany` returns the ids of exactly the matching rows, each once. The model lists them in increasing id order, an order the query itself does not fix |
| Schema.WhereEmpty | src/modules/transaction/transaction.service.ts:307-314 | a `findMany` with no matching row returns nothing |
| Integrity.RowStaysValid | src/modules/transaction/transaction.service.ts:141-160 | a valid transaction row stays valid when tables only grow and used coupons stay used |
| Integrity.UnlinkKeepsCouponsLinkedOnce | src/modules/transaction/transaction.service.ts:404-408 | rewriting a row so that it keeps its coupon or drops it keeps the one-transaction-per-coupon key |
| TransactionAmounts.AvailablePoints | src/modules/transaction/transaction.service.ts:33-43 | `calcAvailablePoints`: the sum of the user's ledger rows that have no expiry or expire after `now`. Its properties are the two lemmas below |
| TransactionAmounts.AvailableAfterAppend | src/modules/transaction/transaction.service.ts:33-43 | the balance is the sum of the user's unexpired ledger rows (expiry null or strictly after `now`). Appending a row changes it by that row's amount when the row counts, and not at all otherwise |
| TransactionAmounts.AvailableNonNegative | src/modules/transaction/transaction.service.ts:33-43 | the balance is at least 0 when every counted row is a credit |
| TransactionAmounts.BalanceCanGoNegative | src/modules/transaction/transaction.service.ts:126-134 | debits never expire but credits do, so a spent referral credit plus an expired refund leave a balance of -10000 |
| TransactionAmounts.ComputeAmounts | src/modules/transaction/transaction.service.ts:81-137 | the discount stack. With no voucher its discount is 0, otherwise it is the smaller of the voucher amount and the subtotal. With no coupon its discount is 0, otherwise it is the smaller of the coupon amount and what the voucher left. `maxPayable = max(0, subtotal - vd - cd)`. Points are capped by the request, the balance and what is left. The total is never negative, and on a non-negative subtotal it is `max(0, subtotal - vd - cd - pu)` |
| TransactionAmounts.PointsWithinCaps | src/modules/transaction/transaction.service.ts:119-137 | with a non-negative balance, `pointsUsed` is between 0 and its three caps and equals one of them, and the total is what remains after it |
| TransactionAmounts.NegativeBalanceRaisesTotal | src/modules/transaction/transaction.service.ts:120-137 | with a negative balance, `pointsUsed` is that negative balance and the total exceeds the payable amount |
| TransactionAmounts.PointsCappedByBalanceExample | src/modules/transaction/transaction.service.ts:119-137 | a worked purchase: 100000 with a voucher of 30000, a coupon of 20000 and 60000 points asked of 40000 held costs 10000 |
| TransactionCreation.ResolveTarget | src/modules/transaction/transaction.service.ts:56-64 | with no ticket type id the event itself is the seat target. A given id yields that ticket type exactly when it exists and belongs to the event, and `InvalidTicketType` otherwise |
| TransactionCreation.ResolveVoucher | src/modules/transaction/transaction.service.ts:83-99 | no code means no voucher. With a code, the lookup is the first voucher with that code. `InvalidVoucher` exactly when there is none or it is another event's, then `VoucherNotActive` exactly when `now` is outside `[startAt, endAt]`, then `VoucherMaxUsesReached` exactly when it is exhausted. When every check passes, that voucher is returned |
| TransactionCreation.ResolveCoupon | src/modules/transaction/transaction.service.ts:101-117 | no code means no coupon. With a code, the lookup is the first coupon with that code. `InvalidCoupon` exactly when there is none or it is another user's, then `CouponExpired` exactly when `expiresAt < now`, then `CouponAlreadyUsed` exactly when it is used. When every check passes, that coupon is returned |
| TransactionCreation.PlanCreate | src/modules/transaction/transaction.service.ts:48-137 | the checks of `create` in source order; a successful plan names rows that exist |
| TransactionCreation.PlanCreateRefusals | src/modules/transaction/transaction.service.ts:48-117 | `EventNotFound` exactly for a missing event and `EventNotPublished` exactly for an unpublished one. Then the ticket-type error, then `NotEnoughTicketSeats` or `NotEnoughEventSeats` when the chosen pool holds fewer than `qty` seats, then the voucher error, then the coupon error, each refusing the plan when its check fails |
| TransactionCreation.PlanOfChecks | src/modules/transaction/transaction.service.ts:48-137 | once every check passes, the plan's subtotal is unit price times qty and its amounts are `ComputeAmounts` of the redeemed discounts and the current balance |
| TransactionCreation.Reserve | src/modules/transaction/transaction.service.ts:66-79 | the seat write decrements only the chosen target |
| TransactionCreation.RedeemVoucher | src/modules/transaction/transaction.service.ts:83-99 | the voucher step returns `ResolveVoucher` and counts one more use only on success |
| TransactionCreation.RedeemCoupon | src/modules/transaction/transaction.service.ts:101-117 | the coupon step returns `ResolveCoupon` and marks the coupon used at `now` only on success |
| TransactionCreation.Settle | src/modules/transaction/transaction.service.ts:125-160 | the points debit is appended only when `pointsUsed > 0`, then the row is inserted under the next id |
| TransactionCreation.NewRow | src/modules/transaction/transaction.service.ts:141-160 | the inserted row: `DONE`, due and decided at `now` when the total is 0, else `WAITING_FOR_PAYMENT` due in two hours; `NewRowValid` and `CreateDebitsAndInserts` state its properties |
| TransactionCreation.AfterCreate | src/modules/transaction/transaction.service.ts:66-160 | the committed state: seats reserved, voucher and coupon redeemed, points debited, row inserted; `AfterCreateTables` states its effect table by table |
| TransactionCreation.CreateOutcome | src/modules/transaction/transaction.service.ts:45-169 | the error with the database unchanged, or the receipt of the new row with `AfterCreate`; `Create` is proved to end in it |
| TransactionCreation.Create | src/modules/transaction/transaction.service.ts:45-169 | `create` as one atomic block: any failed check, including one after the seat write, returns its error with every table unchanged; otherwise the receipt and the committed state |
| TransactionCreation.CreateReservesSeats | src/modules/transaction/transaction.service.ts:57-81 | with a ticket type, that type had at least `qty` seats and loses exactly `qty` while the events stay; without one, the same holds of the event and no ticket type changes. The subtotal is that target's price times `qty` |
| TransactionCreation.CreateDebitsAndInserts | src/modules/transaction/transaction.service.ts:119-160 | one `-pointsUsed` debit exactly when `pointsUsed > 0`, and the customer's balance drops by that much. The new row is appended and carries the points and total; when the total is 0 it is `DONE`, decided and due now |
| TransactionCreation.AfterCreateTables | src/modules/transaction/transaction.service.ts:66-160 | what `create` writes, table by table: users and reviews untouched, prices kept, vouchers and coupons only as redeemed |
| TransactionCreation.CreatePreservesSeatBounds | src/modules/transaction/transaction.service.ts:66-79 | the reservation keeps `0 <= remainingSeats <= totalSeats` because it checks `remainingSeats >= qty` first |
| TransactionCreation.RedeemKeepsVouchersValid | src/modules/transaction/transaction.service.ts:90-98 | the usage check before the increment keeps every voucher within `maxUses` |
| TransactionCreation.NewRowValid | src/modules/transaction/transaction.service.ts:141-160 | the inserted row satisfies every row rule, and its amounts add up |
| TransactionCreation.NewRowKeepsCouponsLinkedOnce | src/modules/transaction/transaction.service.ts:151 | an unused coupon is linked to no row, so the new link keeps the unique key on `couponId` |
| TransactionCreation.CreatePreservesValid | src/modules/transaction/transaction.service.ts:45-169 | a successful `create` keeps the database valid |
| TransactionCreation.CouponSingleUse | src/modules/transaction/transaction.service.ts:104-117 | once a purchase has redeemed a coupon, every later purchase with that code fails |
| TransactionLifecycle.SeatsRestored | src/modules/transaction/transaction.service.ts:371-384 | the seat step writes only events or ticket types, and keeps their count |
| TransactionLifecycle.VoucherReleased | src/modules/transaction/transaction.service.ts:386-395 | the voucher step writes only vouchers |
| TransactionLifecycle.CouponReleased | src/modules/transaction/transaction.service.ts:397-402 | the coupon step writes only coupons |
| TransactionLifecycle.PointsRefunded | src/modules/transaction/transaction.service.ts:411-427 | the points step writes only the ledger |
| TransactionLifecycle.Refund | src/modules/transaction/transaction.service.ts:411-421 | the `ROLLBACK` credit of the spent points, expiring in three months and referencing the row; `RollbackRefundsBalance` states its effect on the balance |
| TransactionLifecycle.RolledBackRow | src/modules/transaction/transaction.service.ts:404-433 | the row after the compensator: coupon unlinked, points zeroed, status and `decidedAt` set; `RolledBackRowValid` and `RollbackEffects` state its properties |
| TransactionLifecycle.Rollback | src/modules/transaction/transaction.service.ts:341-435 | the compensator can fail only with `RowMissing`. It keeps the other transaction rows, the users and the reviews, keeps the size of every other table, and never shrinks the ledger |
| TransactionLifecycle.Settled | src/modules/transaction/transaction.service.ts:397-433 | the coupon and points steps and the status write change only coupons, ledger and the one row, which becomes the rolled-back row |
| TransactionLifecycle.RestoreSeats | src/modules/transaction/transaction.service.ts:371-384 | the seat writes of the compensator match `SeatsRestored` |
| TransactionLifecycle.ReleaseVoucher | src/modules/transaction/transaction.service.ts:386-395 | the voucher write of the compensator matches `VoucherReleased` |
| TransactionLifecycle.SettleRollback | src/modules/transaction/transaction.service.ts:397-433 | the remaining writes of the compensator match `Settled` |
| TransactionLifecycle.RollbackAndSetStatus | src/modules/transaction/transaction.service.ts:341-435 | `rollbackAndSetStatus` as one atomic block whose outcome is `Rollback`; a failure leaves every table unchanged |
| TransactionLifecycle.RollbackEffects | src/modules/transaction/transaction.service.ts:371-433 | a non-terminal row gives back `qty` seats to its ticket type, or else its event, capped at `totalSeats`; that row is otherwise kept, and with a ticket type the events are untouched, without one the ticket types are. The voucher loses one use, floored at 0, and is otherwise kept; with no voucher the vouchers are untouched. The coupon is the same coupon with `usedAt` cleared. A refund credit is appended and no ledger row is edited. The row becomes exactly `RolledBackRow`: unlinked from its coupon, `pointsUsed` 0, `status`/`decidedAt` set, every other field (`decisionDueAt` and `totalAmount` included) kept |
| TransactionLifecycle.RollbackFrames | src/modules/transaction/transaction.service.ts:371-402 | no event, ticket type, voucher or coupon other than the row's own is written |
| TransactionLifecycle.RollbackRefundsBalance | src/modules/transaction/transaction.service.ts:411-421 | until the refund expires, the customer's balance rises by exactly the points the row had spent |
| TransactionLifecycle.RollbackIdempotent | src/modules/transaction/transaction.service.ts:359-369 | once a row is rolled back it is terminal, so a second rollback with any status changes nothing |
| TransactionLifecycle.RollbackBreaksAmountIdentity | src/modules/transaction/transaction.service.ts:404-426 | a rolled-back row that used a coupon or points no longer satisfies `total = max(0, subtotal - vd - cd - pu)` |
| TransactionLifecycle.RollbackPreservesSeatBounds | src/modules/transaction/transaction.service.ts:371-384 | the capped restore keeps every seat count within `0..totalSeats` |
| TransactionLifecycle.ReleasesKeepPricesAndVouchers | src/modules/transaction/transaction.service.ts:371-395 | restoring seats and releasing a voucher keep every price and every voucher within its bounds |
| TransactionLifecycle.RolledBackRowValid | src/modules/transaction/transaction.service.ts:397-433 | the rolled-back row is terminal, decided and holds no coupon, so it is valid |
| TransactionLifecycle.OtherRowsStayValid | src/modules/transaction/transaction.service.ts:397-402 | the other rows keep their coupon, which stays marked used |
| TransactionLifecycle.RollbackPreservesValid | src/modules/transaction/transaction.service.ts:341-435 | a rollback to `REJECTED`, `EXPIRED` or `CANCELED` keeps the database valid |
| TransactionLifecycle.RollbackNeverFailsOnValid | src/modules/transaction/transaction.service.ts:397-402 | on a valid database the coupon exists, so the compensator never aborts |
| TransactionLifecycle.Upload | src/modules/transaction/transaction.service.ts:171-198 | the upload succeeds exactly when the row exists, its event row exists, it is the caller's, it waits for payment and `now <= paymentDueAt`. `TransactionNotFound` (404), `RowMissing`, `Forbidden` (403), `NotWaitingForPayment` (400) and `PaymentTimeExpired` (400) each hold exactly when their check is the first one missed. Only the transactions table changes |
| TransactionLifecycle.UploadPaymentProof | src/modules/transaction/transaction.service.ts:171-198 | the upload write matches `Upload` and returns the updated row |
| TransactionLifecycle.Uploaded | src/modules/transaction/transaction.service.ts:186-195 | the row after an upload; `UploadEffect` states what it changes |
| TransactionLifecycle.UploadEffect | src/modules/transaction/transaction.service.ts:186-195 | an accepted upload records the proof and the upload time and sets `WAITING_FOR_ADMIN_CONFIRMATION` with a three-day decision deadline; nothing else in the row changes |
| TransactionLifecycle.UploadPreservesValid | src/modules/transaction/transaction.service.ts:171-198 | an upload keeps the database valid |
| TransactionLifecycle.CheckDecision | src/modules/transaction/transaction.service.ts:200-210 | a decision is allowed exactly when the row exists, its event exists and is the caller's, and it waits for confirmation. `TransactionNotFound`, `RowMissing`, `Forbidden` and `NotWaitingForAdminConfirmation` each hold exactly when their check is the first one missed. The proof and the deadline are not checked |
| TransactionLifecycle.Accept | src/modules/transaction/transaction.service.ts:200-217 | acceptance succeeds exactly when `CheckDecision` does, with its error otherwise, and writes only the transactions table |
| TransactionLifecycle.Reject | src/modules/transaction/transaction.service.ts:232-244 | rejection runs the checks, then the compensator with `REJECTED` |
| TransactionLifecycle.OrganizerAccept | src/modules/transaction/transaction.service.ts:200-230 | the accept method matches `Accept` |
| TransactionLifecycle.OrganizerReject | src/modules/transaction/transaction.service.ts:232-256 | the reject method matches `Reject` |
| TransactionLifecycle.AcceptEffect | src/modules/transaction/transaction.service.ts:213-216 | accepting sets only `DONE` and `decidedAt`; `decisionDueAt` stays |
| TransactionLifecycle.AcceptIgnoresDeadline | src/modules/transaction/transaction.service.ts:200-217 | acceptance does not depend on the clock, so a row past its decision deadline can still be accepted |
| TransactionLifecycle.AcceptPreservesValid | src/modules/transaction/transaction.service.ts:200-217 | acceptance keeps the database valid |
| TransactionLifecycle.RejectPreservesValid | src/modules/transaction/transaction.service.ts:232-244 | on a valid database rejection fails only at the checks and keeps the database valid |
| TransactionLifecycle.RollbackEach | src/modules/transaction/transaction.service.ts:316-318 | the sweep loop keeps the transaction count, the users and the reviews |
| TransactionLifecycle.RollbackNext | src/modules/transaction/transaction.service.ts:316-318 | after a failure no further target changes anything |
| TransactionLifecycle.Sweep | src/modules/transaction/transaction.service.ts:316-320 | the loop over targets ends in `RollbackEach`; on success it returns the number of targets |
| TransactionLifecycle.RollbackEachStops | src/modules/transaction/transaction.service.ts:316-318 | a failure stops the sweep and keeps the blocks already committed |
| TransactionLifecycle.ExpireTargets | src/modules/transaction/transaction.service.ts:306-313 | the `autoExpire` selection; `AutoExpireIdempotent` and `RollbackComparison.FiltersAgreeOnValid` state its properties |
| TransactionLifecycle.CancelTargets | src/modules/transaction/transaction.service.ts:324-330 | the `autoCancel` selection; `AutoCancelIdempotent` states its property |
| TransactionLifecycle.AutoExpire | src/modules/transaction/transaction.service.ts:305-321 | `autoExpire` selects rows that wait for payment, are past `paymentDueAt` and have no upload time, then expires them one block each |
| TransactionLifecycle.AutoCancel | src/modules/transaction/transaction.service.ts:323-338 | `autoCancel` selects rows that wait for confirmation and are past `decisionDueAt`, then cancels them one block each |
| TransactionLifecycle.RollbackEachEffect | src/modules/transaction/transaction.service.ts:316-318 | after a completed sweep every target is terminal and every other row is unchanged |
| TransactionLifecycle.AutoExpireIdempotent | src/modules/transaction/transaction.service.ts:305-321 | a completed `autoExpire` leaves no target, so a second run at the same instant changes nothing |
| TransactionLifecycle.AutoCancelIdempotent | src/modules/transaction/transaction.service.ts:323-338 | the same for `autoCancel` |
| TransactionLifecycle.RollbackEachPreservesValid | src/modules/transaction/transaction.service.ts:316-318 | on a valid database a sweep never fails and keeps the database valid |
| ExpiredTransaction.Lites | src/scripts/expired-transaction.ts:47-56 | the selected rows are read once into `TxLite` values, one per selected id and in the selection's order, each carrying that row's values |
| ExpiredTransaction.ExpireSelection | src/scripts/expired-transaction.ts:41-57 | the expiry pass's selection; `SelectionsAreSelections` and `TickClears` state its properties |
| ExpiredTransaction.CancelSelection | src/scripts/expired-transaction.ts:79-94 | the cancel pass's selection; `SelectionsAreSelections` and `TickClears` state its properties |
| ExpiredTransaction.Guard | src/scripts/expired-transaction.ts:64-69 | the compare-and-set: the row still has the expected status and no `decidedAt`; `StepFrame` and `PassIdempotent` state what it guards |
| ExpiredTransaction.StatusWritten | src/scripts/expired-transaction.ts:64-67 | the status write sets the target status, `decidedAt = now` and no `decisionDueAt`, in that row only |
| ExpiredTransaction.SeatsIncremented | src/scripts/expired-transaction.ts:115-127 | `qty` goes back to the event, and to the ticket type if one is set, with no cap. A missing row fails the block |
| ExpiredTransaction.VoucherDecrement | src/scripts/expired-transaction.ts:129-135 | `min(qty, usedCount)`, a missing voucher counting 0 uses; `CronVoucherAndLedgerEffects` and `CronOverReleasesVoucher` state its effect |
| ExpiredTransaction.VoucherDecremented | src/scripts/expired-transaction.ts:129-142 | the voucher step writes only vouchers |
| ExpiredTransaction.CouponAndPointsReleased | src/scripts/expired-transaction.ts:144-180 | a missing coupon fails the block. Otherwise the coupon and the one row are released and a refund may be appended, and the other tables are kept |
| ExpiredTransaction.RollbackResources | src/scripts/expired-transaction.ts:114-181 | `rollbackResources` fails only with `RowMissing` and keeps users, reviews and the transaction count |
| ExpiredTransaction.CronStep | src/scripts/expired-transaction.ts:62-72 | a row that fails the compare-and-set is left as it was. Otherwise it is status write then rollback, failing only with `RowMissing` |
| ExpiredTransaction.CronPass | src/scripts/expired-transaction.ts:61-73 | the loop over the selection keeps users, reviews and the transaction count |
| ExpiredTransaction.CronNext | src/scripts/expired-transaction.ts:61-73 | after a failure no further row changes anything |
| ExpiredTransaction.IncrementSeats | src/scripts/expired-transaction.ts:115-127 | the seat writes match `SeatsIncremented` |
| ExpiredTransaction.ReleaseRest | src/scripts/expired-transaction.ts:129-180 | the voucher, coupon and points writes match the specification |
| ExpiredTransaction.WriteAndRollBack | src/scripts/expired-transaction.ts:62-72 | the status write and the rollback match `RollbackResources` of `StatusWritten`; a failure restores every table |
| ExpiredTransaction.Step | src/scripts/expired-transaction.ts:62-72 | one atomic block matches `CronNext` |
| ExpiredTransaction.Pass | src/scripts/expired-transaction.ts:61-73 | the `for` loop over the selection ends in `CronPass` and returns the failure that stopped it |
| ExpiredTransaction.CronPassStops | src/scripts/expired-transaction.ts:61-73 | once a pass has failed, the remaining rows change nothing |
| ExpiredTransaction.ExpireWaitingForPayment | src/scripts/expired-transaction.ts:40-76 | selects rows that wait for payment, are past `paymentDueAt` and have no proof URL, then expires them by compare-and-set |
| ExpiredTransaction.CancelWaitingForAdminConfirmation | src/scripts/expired-transaction.ts:78-112 | selects rows that wait for confirmation and are past `decisionDueAt`, then cancels them by compare-and-set |
| ExpiredTransaction.Tick | src/scripts/expired-transaction.ts:26-35 | the expiry pass, then the cancel pass unless the first failed; `TickClears` and `TickPreservesValid` state its properties |
| ExpiredTransaction.RunTick | src/scripts/expired-transaction.ts:26-35 | one tick ends in `Tick`: expire, then cancel unless the expiry pass threw |
| ExpiredTransaction.RollbackTouchesOneRow | src/scripts/expired-transaction.ts:144-180 | of the transactions, the rollback rewrites only its own row, and there only the coupon link and the points |
| ExpiredTransaction.StepFrame | src/scripts/expired-transaction.ts:62-72 | a committed block changes only its own row. It sweeps that row if the compare-and-set matched, and leaves everything as it was otherwise. Either way the row no longer matches |
| ExpiredTransaction.Ids | src/scripts/expired-transaction.ts:61 | the ids of the selection, elementwise |
| ExpiredTransaction.StepRow | src/scripts/expired-transaction.ts:62-72 | what one block does to any given row |
| ExpiredTransaction.PassRow | src/scripts/expired-transaction.ts:61-73 | after a completed pass every row is unchanged or swept, an unselected row is unchanged, and a selected row no longer matches |
| ExpiredTransaction.PassOverUnmatched | src/scripts/expired-transaction.ts:64-69 | a pass whose rows all fail the compare-and-set changes nothing |
| ExpiredTransaction.PassIdempotent | src/scripts/expired-transaction.ts:62-72 | replaying a completed pass with its own stale selection changes nothing, so nothing is rolled back twice |
| ExpiredTransaction.PassSweepsSelected | src/scripts/expired-transaction.ts:61-73 | a completed pass sweeps every selected row that was still undecided in the expected state |
| ExpiredTransaction.PassClearsRow | src/scripts/expired-transaction.ts:40-73 | after a completed pass, a row that matched the filter no longer matches it |
| ExpiredTransaction.PassClearsRows | src/scripts/expired-transaction.ts:40-73 | after a completed pass no row matches the filter, and waiting rows stay undecided |
| ExpiredTransaction.PassClears | src/scripts/expired-transaction.ts:40-73 | after a completed pass the filter selects nothing |
| ExpiredTransaction.TickClears | src/scripts/expired-transaction.ts:26-35 | after a completed tick no row is unpaid past its deadline and none is undecided past its deadline |
| ExpiredTransaction.CronSeatEffects | src/scripts/expired-transaction.ts:115-127 | the event gains exactly `qty` seats with `totalSeats` unchanged, the ticket type gains `qty` if one is linked, and nothing else changes |
| ExpiredTransaction.CronVoucherAndLedgerEffects | src/scripts/expired-transaction.ts:129-180 | a linked voucher loses `max(0, min(qty, usedCount))` uses and stays at 0 or more. The ledger gains exactly one refund when `pointsUsed > 0` and is otherwise unchanged |
| ExpiredTransaction.StepWritesRow | src/scripts/expired-transaction.ts:62-180 | a matched block rewrites exactly its own row: swept, unlinked and refunded |
| ExpiredTransaction.CronKeepsPricesAndVouchers | src/scripts/expired-transaction.ts:115-142 | the rollback keeps every price and every voucher within its bounds |
| ExpiredTransaction.CronCoupons | src/scripts/expired-transaction.ts:144-149 | the rollback marks its coupon unused, keeping its code, owner, amount and expiry, and changes no other coupon |
| ExpiredTransaction.CronOtherRowsStayValid | src/scripts/expired-transaction.ts:144-159 | the other rows keep their coupon, which stays marked used |
| ExpiredTransaction.CronRowValid | src/scripts/expired-transaction.ts:64-67 | the swept row is terminal, decided and holds no coupon |
| ExpiredTransaction.CronRowsValid | src/scripts/expired-transaction.ts:62-180 | every row after a matched block is valid and keeps its quantity |
| ExpiredTransaction.CronStepPreservesValid | src/scripts/expired-transaction.ts:62-180 | a committed block keeps the database valid when its row still holds the selected values |
| ExpiredTransaction.SelectionsAreSelections | src/scripts/expired-transaction.ts:40-57 | the sweeper's selections have distinct ids and values matching their rows |
| ExpiredTransaction.CronNextPreservesValid | src/scripts/expired-transaction.ts:61-73 | one more block keeps validity when the pass has not touched its row |
| ExpiredTransaction.CronPassPreservesValid | src/scripts/expired-transaction.ts:61-73 | a pass keeps the database valid whether or not it completes |
| ExpiredTransaction.TickPreservesValid | src/scripts/expired-transaction.ts:26-35 | a tick keeps the database valid whether or not it completes |
| RollbackComparison.FiltersAgreeOnValid | src/scripts/expired-transaction.ts:42-46 | on a valid database the two expiry filters (no upload time, no proof URL) select the same rows, and so do the two cancel filters |
| RollbackComparison.FiltersDifferOffValid | src/modules/transaction/transaction.service.ts:308-312 | a row with a proof URL but no upload time is expired by the service and not by the sweeper |
| RollbackComparison.ServiceSweepLeavesCronNothing | src/modules/transaction/transaction.service.ts:305-321 | after a completed `autoExpire` on a valid database the sweeper selects nothing to expire |
| RollbackComparison.ServiceThenCronReleasesOnce | src/scripts/expired-transaction.ts:64-69 | after the service rolled a row back, the sweeper's compare-and-set misses it |
| RollbackComparison.CronThenServiceReleasesOnce | src/modules/transaction/transaction.service.ts:361-369 | after the sweeper rolled a row back, the service's terminal guard skips it |
| RollbackComparison.DecisionDeadlineDiffers | src/scripts/expired-transaction.ts:100-103 | the service's rollback keeps `decisionDueAt`, while the sweeper clears it |
| RollbackComparison.CronOverfillsEvent | src/scripts/expired-transaction.ts:115-119 | for a ticket-typed purchase on an event whose own count shows no seat sold (remaining equal to total), the sweeper pushes the event above its total |
| RollbackComparison.CronOverReleasesVoucher | src/scripts/expired-transaction.ts:135-141 | for two or more tickets on a voucher used at least twice, the sweeper gives back at least two uses where the service gives back one |
| CouponReuse.ServiceRollbackFreesCoupon | src/modules/transaction/transaction.service.ts:397-402 | after the service's rollback, the row's coupon is the same coupon with `usedAt` cleared. If it belongs to the row's customer, has a non-empty code that finds it and has not expired at `later`, `create`'s coupon check at `later` redeems it again |
| CouponReuse.CronRollbackFreesCoupon | src/scripts/expired-transaction.ts:144-149 | the same for the sweeper's block: its coupon is released unchanged but for `usedAt`, and the owner can redeem it again |
| CouponReuse.RollbackThenCreateReusesCoupon | src/modules/transaction/transaction.service.ts:101-117 | after a rollback, the same customer's next `create` with that coupon code whose other checks pass is planned with that very coupon |
| EventService.CeilDiv | src/modules/event/event.service.ts:57 | `Math.ceil(total / limit)`: the fewest pages of `limit` rows that hold `total` rows |
| EventService.ListPaging | src/modules/event/event.service.ts:11-14 | `page >= 1`, `1 <= limit <= 50` and `skip = (page - 1) * limit`. An absent (or empty) page is 1, a given one below 1 is 1, and a valid page is kept. An absent (or empty) limit is 10. A given limit below 1, 0 included, is 1, one above 50 is 50, and one in 1..50 is kept. `totalPages = ceil(total / limit)` |
| EventService.PagesCoverRows | src/modules/event/event.service.ts:12-57 | every matching row lies on a page between 1 and `totalPages`, and that page's `skip` window contains it |
| EventService.RowOnPage | src/modules/event/event.service.ts:57 | row `i` lies on page `i / limit + 1`, which is at most `ceil(total / limit)` |
| EventService.CheckEventBody | src/modules/event/event.service.ts:112-118 | the body passes exactly when `startAt < endAt`, `totalSeats >= 1` and `price` (0 when absent) is at least 0. `EndNotAfterStart` is exactly `endAt <= startAt`. `TotalSeatsTooSmall` is exactly ordered dates with `totalSeats < 1`. `NegativePrice` is exactly both of those passing with a price below 0 |
| EventService.NewEvent | src/modules/event/event.service.ts:120-134 | the row `create` inserts; `CreatedEventShape` states its properties |
| EventService.CreateEvent | src/modules/event/event.service.ts:105-139 | a rejected body writes nothing; an accepted one appends exactly one event |
| EventService.CreatedEventShape | src/modules/event/event.service.ts:120-134 | the new event is the caller's and unsold (`remainingSeats = totalSeats >= 1`), with its dates in order and a price of at least 0. Price defaults to 0 and `isPublished` to true |
| EventService.CreateEventPreservesInvariants | src/modules/event/event.service.ts:120-136 | creating an event keeps the database valid and the seat bounds |
| EventService.Create | src/modules/event/event.service.ts:105-139 | the create method matches `CreateEvent` and returns the new id |
| EventService.CheckPatch | src/modules/event/event.service.ts:169-188 | a patch passes exactly when the dates, if both are given, are in order, a given price is at least 0, and a given total is at least 1 and at least the sold seats. In that check order, `EndNotAfterStart`, `NegativePrice`, `TotalSeatsTooSmall` and `TotalSeatsBelowUsed` (carrying the sold seats) each hold exactly when their check is the first one missed |
| EventService.Patched | src/modules/event/event.service.ts:151-188 | the event with the given fields written; `UpdateChangesOnlyGivenFields` and `ResizeKeepsUsedSeats` state its properties |
| EventService.UpdateEvent | src/modules/event/event.service.ts:141-192 | 404 exactly for a missing event and 403 exactly for another organizer's, both before any write. A success rewrites that one event |
| EventService.Update | src/modules/event/event.service.ts:141-192 | the method builds the written fields one by one and matches `UpdateEvent` |
| EventService.CopyDescriptive | src/modules/event/event.service.ts:151-157 | name, description, category, location, `isPublished` and image are copied only when given, and an empty image URL clears the image |
| EventService.UpdateChangesOnlyGivenFields | src/modules/event/event.service.ts:149-190 | only the named event changes, and only in fields the body gives. The owner never changes, and the seat pair changes only through a resize |
| EventService.ResizeKeepsUsedSeats | src/modules/event/event.service.ts:179-188 | a resize keeps the sold seats (`total - remaining`) fixed and the new total at least them, so seat bounds survive |
| EventService.ResizeBelowUsedRefused | src/modules/event/event.service.ts:183-184 | a total below the sold seats is refused with that number of sold seats |
| EventService.UpdateOneDateUnchecked | src/modules/event/event.service.ts:169-171 | only a body with both dates is checked, so moving the end alone before the start is accepted |
| EventService.UpdatePreservesInvariants | src/modules/event/event.service.ts:141-192 | an update keeps the database valid and the seat bounds |
| EventService.CreateVoucher | src/modules/event/event.service.ts:194-225 | 404 exactly for a missing event and 403 exactly for another organizer's. Then `EndNotAfterStart` exactly when `endAt <= startAt`, `DiscountTooSmall` exactly when the discount is below 1, and `UniqueViolation` exactly when the code is taken. Success exactly when all pass, and it appends one unused voucher with `maxUses` as given |
| EventService.NewVoucher | src/modules/event/event.service.ts:194-225 | the method matches `CreateVoucher` and returns the new id |
| EventService.CreatedVoucherShape | src/modules/event/event.service.ts:212-220 | the new voucher is unused and the caller's. Without `maxUses` it is never exhausted. It is active exactly on `[startAt, endAt]`, and codes stay unique |
| EventService.CreateVoucherPreservesValid | src/modules/event/event.service.ts:212-222 | with `maxUses` absent or at least 1, a new voucher keeps the database valid |
| EventService.ActiveVoucherIds | src/modules/event/event.service.ts:85-101 | a missing event is 404 |
| EventService.ActiveVouchersAreRedeemableWindow | src/modules/event/event.service.ts:85-96 | a voucher is listed exactly when it is the event's and `create` would find it active at the same instant; ids are ascending |
| ReviewService.CreateReview | src/modules/review/review.service.ts:40-92 | a success appends exactly the new review, created at `now` |
| ReviewService.ReviewEligibility | src/modules/review/review.service.ts:40-92 | a review is accepted exactly when the event exists and has ended, the user has a `DONE` transaction for it, and has not reviewed it yet. `EventNotFound` is exactly the missing event and `ReviewBeforeEventEnd` exactly an unfinished one. `NoDoneTransaction` is exactly an ended event with no `DONE` purchase, and `AlreadyReviewed` exactly a second review after such a purchase |
| ReviewService.ReviewOnce | src/modules/review/review.service.ts:67-90 | after a first review, a second one by the same user for the same event is refused at any instant: with `AlreadyReviewed` at or after the event's end, and with `ReviewBeforeEventEnd` before it |
| ReviewService.CreateReviewPreservesValid | src/modules/review/review.service.ts:67-82 | with a rating in 1..5, a new review keeps the ratings in range and the (user, event) key unique |
| ReviewService.CreateForEvent | src/modules/review/review.service.ts:40-92 | the method matches `CreateReview` and returns the new id |
| ReviewService.InsertByDate | src/modules/review/review.service.ts:20 | inserting keeps every item and adds one |
| ReviewService.InsertKeepsNewestFirst | src/modules/review/review.service.ts:20 | inserting into a newest-first list keeps it newest first |
| ReviewService.SortNewestFirst | src/modules/review/review.service.ts:20 | the ordering is a permutation of its input |
| ReviewService.SortIsNewestFirst | src/modules/review/review.service.ts:20 | the ordering is newest first |
| ReviewService.EventReviews | src/modules/review/review.service.ts:18-19 | the event's reviews with their own ids, one per matching row |
| ReviewService.ListByEvent | src/modules/review/review.service.ts:11-37 | `totalReviews` equals the number of listed items |
| ReviewService.ListByEventSpec | src/modules/review/review.service.ts:11-37 | the list is newest first, and holds each of the event's reviews exactly once with its own id and nothing else. `totalReviews` is their number |
| ReviewService.EventReviewsMember | src/modules/review/review.service.ts:18-19 | every selected item is one of the event's reviews |
| ReviewService.EventReviewsOnce | src/modules/review/review.service.ts:18-19 | each of the event's reviews is selected exactly once |
| AuthService.PickCode | src/modules/auth/auth.service.ts:46-52 | the retry loop ends on one of the draws |
| AuthService.PickCodeFresh | src/modules/auth/auth.service.ts:46-52 | if one of the ten checked draws is free, the loop ends on the first free one, which no user holds |
| AuthService.RetriesCanRunOut | src/modules/auth/auth.service.ts:47-52 | when every checked draw collides, the last, unchecked draw is kept even though another user holds it |
| AuthService.GenerateReferralCode | src/modules/auth/auth.service.ts:46-52 | the loop with its early `break` ends in `PickCode` |
| AuthService.FindReferrer | src/modules/auth/auth.service.ts:57-61 | a found referrer holds the code and is the first user who does |
| AuthService.ReferrerFoundIff | src/modules/auth/auth.service.ts:57-63 | a referrer is found exactly when some user holds the code |
| AuthService.ReferralCoupon | src/modules/auth/auth.service.ts:86-96 | the new user's `REF-` coupon; `ReferralRewards` states its fields |
| AuthService.ReferralCredit | src/modules/auth/auth.service.ts:98-107 | the referrer's reward credit; `ReferralRewards` and `ReferralCreditsReferrer` state its fields and its effect |
| AuthService.Register | src/modules/auth/auth.service.ts:31-114 | `register` fails only with the email, referral or unique-key error, and with the email error exactly when the email is taken |
| AuthService.RegisterOutcome | src/modules/auth/auth.service.ts:31-111 | registration succeeds exactly when the email is free and, if a referral code is given, some user holds it and the drawn coupon code is free. `InvalidReferralCode` is exactly a free email with a code nobody holds. `UniqueViolation` is exactly a free email with a held code and a taken coupon code |
| AuthService.RegisterWithCode | src/modules/auth/auth.service.ts:54-108 | once the email is free and the code chosen, the block fails only with the referral error or the coupon-code unique key |
| AuthService.CreateUserAndRewards | src/modules/auth/auth.service.ts:54-111 | the block's writes end in the state `RegisterWithCode` gives. A taken coupon code throws after the user row was written, and every table is then restored |
| AuthService.RegisterUser | src/modules/auth/auth.service.ts:31-114 | the method matches `Register` and returns the new id |
| AuthService.RegisterEffect | src/modules/auth/auth.service.ts:66-84 | the new user is appended with the body's name and email, role `CUSTOMER` by default and the code the retry loop picks from the draws. `referredById` is the code holder, or none without a code. No other table than users, coupons and ledger changes |
| AuthService.NoReferralNoRewards | src/modules/auth/auth.service.ts:86-108 | without a referral code, registration with a free email succeeds and creates no coupon and no ledger row |
| AuthService.UnknownReferralRefused | src/modules/auth/auth.service.ts:54-64 | with a free email, a referral code is refused exactly when no user holds it |
| AuthService.ReferralRewards | src/modules/auth/auth.service.ts:86-108 | a referred user yields exactly one coupon and one ledger row, both expiring `inThreeMonths`. The coupon is the new user's, worth 20000 and unused. The credit is the referrer's 10000 `REFERRAL_REWARD`, referencing the new user |
| AuthService.ReferralCreditsReferrer | src/modules/auth/auth.service.ts:98-107 | until it expires, the reward raises the referrer's balance by exactly 10000 and no other user's |
| AuthService.RegisterPreservesValid | src/modules/auth/auth.service.ts:31-114 | registration keeps the database valid, and in particular emails stay unique |

## Left out

- Concurrency and isolation are not modelled. Each atomic block is one method, and interleavings of blocks are left out. This covers read-then-write races, the `setInterval`/`node-cron` scheduling and parallel ticks.
- The notification emails of accept and reject are left out. Their failures are swallowed by the source and change no state.
- Authentication internals are left out: login, password reset, hashing and JWTs. The password field of a user is not modelled.
- The Cloudinary upload signing, the controllers, routers, middleware and configuration are not part of this model. The model uses the service signatures.
- The read-only projections are left out: `myTransactions`, `organizerTransactions`, the organizer service, the text search and filters of event `list`, and the selected columns of every query.
- Floating point is left out: the review `avgRating`.
- `Number()` coercion and invalid dates (`NaN`) are left out. Inputs are integers and the request-body validations are preconditions where the model needs them. The `NaN` date checks of event `create`, `update` and `createVoucher` therefore never fire.
- Calendar arithmetic is simplified. `addHours` and `addDays` are exact millisecond offsets, and `addMonths(now, 3)` is the caller-supplied `inThreeMonths`. Each operation reads the clock once, as `now`. The sweeper's refund expiry uses a second clock read, and that read is the same `inThreeMonths`.
- The referral amounts are fixed at their defaults of 20000 and 10000. Overriding them through `REFERRAL_COUPON_AMOUNT` and `REFERRAL_POINT_REWARD` is not modelled.
- `genCode` randomness is taken as parameters: eleven draws for the user's code and one for the coupon suffix.
- The user's `referralCode` is not a unique key in this model, because the source only looks it up with `findFirst`. Voucher and coupon codes are unique keys, because the source looks them up with `findUnique`.
- The foreign key from an event to its organizer is not modelled. Event and voucher creation take the organizer id as given.
- ReviewService.ListByEvent: the order among reviews with equal `createdAt` is left unspecified, as in the query. The model keeps their id order, but no lemma states it.
- ReviewService.CreateReview: the rating is stored as given. The 1..5 range is declared on `CreateReviewDTO`, but no route validates a review body against it and the controller passes the body on as it is. `CreateReviewPreservesValid` takes the range as a precondition, so the model does not show that ratings stay in range.
- TransactionCreation.Create: the seat bounds and validity it keeps are stated as lemmas on its specification (`CreatePreservesSeatBounds`, `CreatePreservesValid`), not as ensures of the method. The same split applies to every other method.
- TransactionCreation.Settle: a unique-key violation on `couponId` at the insert is not modelled as an error. The redeemed coupon is unused, so on a valid database no row links it (`NewRowKeepsCouponsLinkedOnce`), and the insert cannot hit the key.
- TransactionLifecycle.UploadPaymentProof: the `MinLength` of the proof URL is not required. Any string is accepted.
- TransactionLifecycle.CheckDecision: a transaction whose event row is missing fails with `RowMissing`, standing for the failing `include` of the source. TransactionLifecycle.Upload does the same.
- Schema.Where: the `findMany` queries of `autoExpire`, `autoCancel` and the sweeper have no `orderBy`, so the order of their targets is up to the database. The model takes them in increasing id order. With another order a failing sweep stops after a different set of rows, and refund rows are appended in a different order.
- EventService.UpdateEvent: the ticket types of an event are not resized with the event.
