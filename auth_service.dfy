/**
  `register` of the auth service: the email check, the referral-code retry
  loop, and the atomic block that validates the referral code, inserts the
  user and, for a referred user, creates the two referral rewards (a coupon
  for the new user, a point credit for the referrer).

  `genCode` is random: its results are parameters, `draws` for the user's
  own code (the first draw and up to ten regenerations) and `couponDraw` for
  the coupon's suffix. `inThreeMonths` is `addMonths(now, 3)`.
 */
module AuthService {
  import opened Schema
  import opened Integrity
  import TransactionAmounts

  /** `REFERRAL_COUPON_AMOUNT` and `REFERRAL_POINT_REWARD`, at their defaults. */
  const REFERRAL_COUPON_AMOUNT: int := 20000
  const REFERRAL_POINT_REWARD: int := 10000

  /** How many times the user's referral code is regenerated at most. */
  const CODE_RETRIES: nat := 10

  /** The fields of a register body that the model keeps (the password is hashed and stored, and left out). */
  datatype RegisterBody = RegisterBody(name: string, email: string, role: Option<Role>, referralCodeUsed: Option<string>)

  predicate EmailTaken(users: seq<User>, email: string) {
    exists i :: 0 <= i < |users| && users[i].email == email
  }

  predicate CodeInUse(users: seq<User>, code: string) {
    exists i :: 0 <= i < |users| && users[i].referralCode == code
  }

  // ----- the referral-code retry loop -----

  /**
    The code the retry loop settles on, from draw `i` on: the first of draws
    `i..9` that no user holds, and otherwise draw 10, which is not checked.
   */
  function PickCode(users: seq<User>, draws: seq<string>, i: nat): (code: string)
    requires |draws| == CODE_RETRIES + 1 && i <= CODE_RETRIES
    ensures code in draws[i..]
    decreases CODE_RETRIES - i
  {
    if i == CODE_RETRIES || !CodeInUse(users, draws[i]) then draws[i]
    else PickCode(users, draws, i + 1)
  }

  /**
    If one of the ten checked draws is free, the loop ends on the first free
    one and the new code is unused; every draw before it collides.
   */
  lemma {:induction false} PickCodeFresh(users: seq<User>, draws: seq<string>, i: nat, j: nat)
    requires |draws| == CODE_RETRIES + 1 && i <= j < CODE_RETRIES
    requires !CodeInUse(users, draws[j])
    requires forall m :: i <= m < j ==> CodeInUse(users, draws[m])
    ensures PickCode(users, draws, i) == draws[j]
    ensures !CodeInUse(users, PickCode(users, draws, i))
    decreases j - i
  {
    if i < j {
      PickCodeFresh(users, draws, i + 1, j);
    }
  }

  /**
    The loop gives up after ten regenerations: when every checked draw
    collides, the last draw is kept even if another user already holds it.
   */
  lemma RetriesCanRunOut(users: seq<User>, taken: string)
    requires CodeInUse(users, taken)
    ensures var draws := seq(CODE_RETRIES + 1, _ => taken);
            PickCode(users, draws, 0) == taken && CodeInUse(users, PickCode(users, draws, 0))
  {
    var draws := seq(CODE_RETRIES + 1, _ => taken);
    var i := CODE_RETRIES;
    while i > 0
      invariant 0 <= i <= CODE_RETRIES
      invariant PickCode(users, draws, i) == taken
    {
      i := i - 1;
    }
  }

  /** The retry loop: regenerate while some user holds the code, at most ten times. */
  method GenerateReferralCode(db: Store, draws: seq<string>) returns (code: string)
    requires |draws| == CODE_RETRIES + 1
    ensures code == PickCode(db.users, draws, 0)
  {
    code := draws[0];
    var i := 0;
    while i < CODE_RETRIES
      invariant 0 <= i <= CODE_RETRIES
      invariant code == draws[i]
      invariant PickCode(db.users, draws, 0) == PickCode(db.users, draws, i)
    {
      if !CodeInUse(db.users, code) {
        break;
      }
      code := draws[i + 1];
      i := i + 1;
    }
  }

  // ----- register -----

  /** The coupon a referred user receives. */
  function ReferralCoupon(userId: nat, couponDraw: string, inThreeMonths: int): Coupon {
    Coupon(userId, "REF-" + couponDraw, REFERRAL_COUPON_AMOUNT, inThreeMonths, None)
  }

  /** The credit the referrer receives, referencing the new user. */
  function ReferralCredit(referrerId: nat, userId: nat, inThreeMonths: int): LedgerEntry {
    LedgerEntry(referrerId, REFERRAL_POINT_REWARD, ReferralReward, Some(inThreeMonths), None, Some(userId))
  }

  predicate CouponCodeTaken(coupons: seq<Coupon>, code: string) {
    exists i :: 0 <= i < |coupons| && coupons[i].code == code
  }

  /** The referrer named by a given referral code: the first user holding it. */
  function FindReferrer(users: seq<User>, code: string): (id: Option<nat>)
    ensures id.Some? ==> Exists(users, id.value) && At(users, id.value).referralCode == code
    ensures id.Some? ==> forall k :: 1 <= k < id.value ==> At(users, k).referralCode != code
  {
    FindFirst(users, (u: User) => u.referralCode == code)
  }

  /** A referrer is found exactly when some user holds the code. */
  lemma ReferrerFoundIff(users: seq<User>, code: string)
    ensures FindReferrer(users, code).Some? <==> CodeInUse(users, code)
  {
    if CodeInUse(users, code) {
      var i :| 0 <= i < |users| && users[i].referralCode == code;
      assert At(users, i + 1).referralCode == code;
    }
  }

  /**
    `register`: the email check, then the code, then the atomic block. A
    given referral code that no user holds fails the block; a referred user
    gets a coupon and their referrer a credit, and a coupon code that is
    already taken fails the whole block.
   */
  function Register(t: Tables, body: RegisterBody, draws: seq<string>, couponDraw: string, inThreeMonths: int): (r: Result<Tables>)
    requires |draws| == CODE_RETRIES + 1
    ensures r.Err? ==> r.error in {EmailExists, InvalidReferralCode, UniqueViolation}
    ensures r == Err(EmailExists) <==> EmailTaken(t.users, body.email)
  {
    if EmailTaken(t.users, body.email) then Err(EmailExists)
    else RegisterWithCode(t, body, PickCode(t.users, draws, 0), couponDraw, inThreeMonths)
  }

  /** The atomic block of `register` once the email is free and the code chosen. */
  function RegisterWithCode(t: Tables, body: RegisterBody, code: string, couponDraw: string, inThreeMonths: int): (r: Result<Tables>)
    ensures r.Err? ==> r.error in {InvalidReferralCode, UniqueViolation}
  {
    var referrer := if GivenText(body.referralCodeUsed) then FindReferrer(t.users, body.referralCodeUsed.value) else None;
    if GivenText(body.referralCodeUsed) && referrer.None? then Err(InvalidReferralCode)
    else
      var userId := |t.users| + 1;
      var users := t.users + [User(body.name, body.email, body.role.GetOr(Customer), code, referrer)];
      if referrer.None? then Ok(t.(users := users))
      else if CouponCodeTaken(t.coupons, "REF-" + couponDraw) then Err(UniqueViolation)
      else Ok(t.(users := users,
                 coupons := t.coupons + [ReferralCoupon(userId, couponDraw, inThreeMonths)],
                 ledger := t.ledger + [ReferralCredit(referrer.value, userId, inThreeMonths)]))
  }

  /** The atomic block of `register`, from the referral check to the rewards. */
  method CreateUserAndRewards(db: Store, body: RegisterBody, code: string, couponDraw: string, inThreeMonths: int)
    returns (r: Result<nat>)
    modifies db
    ensures var o := RegisterWithCode(old(db.Snapshot()), body, code, couponDraw, inThreeMonths);
            && (o.Err? ==> r == Err(o.error) && db.Snapshot() == old(db.Snapshot()))
            && (o.Ok? ==> r == Ok(|old(db.users)| + 1) && db.Snapshot() == o.value)
  {
    var saved := db.Snapshot();
    var referrer: Option<nat> := None;
    if GivenText(body.referralCodeUsed) {
      referrer := FindReferrer(db.users, body.referralCodeUsed.value);
      if referrer.None? {
        return Err(InvalidReferralCode);
      }
    }
    db.users := db.users + [User(body.name, body.email, body.role.GetOr(Customer), code, referrer)];
    var userId := |db.users|;
    if referrer.Some? {
      if CouponCodeTaken(db.coupons, "REF-" + couponDraw) {
        db.Load(saved);
        return Err(UniqueViolation);
      }
      db.coupons := db.coupons + [ReferralCoupon(userId, couponDraw, inThreeMonths)];
      db.ledger := db.ledger + [ReferralCredit(referrer.value, userId, inThreeMonths)];
    }
    r := Ok(userId);
  }

  /** `register`: the new user's id. */
  method RegisterUser(db: Store, body: RegisterBody, draws: seq<string>, couponDraw: string, inThreeMonths: int)
    returns (r: Result<nat>)
    requires |draws| == CODE_RETRIES + 1
    modifies db
    ensures var o := Register(old(db.Snapshot()), body, draws, couponDraw, inThreeMonths);
            && (o.Err? ==> r == Err(o.error) && db.Snapshot() == old(db.Snapshot()))
            && (o.Ok? ==> r == Ok(|db.users|) && db.Snapshot() == o.value)
  {
    if EmailTaken(db.users, body.email) {
      return Err(EmailExists);
    }
    var code := GenerateReferralCode(db, draws);
    r := CreateUserAndRewards(db, body, code, couponDraw, inThreeMonths);
  }

  /**
    A registered user is the last row, with the body's name and email, the
    role `CUSTOMER` unless one is given, the generated code, and as
    `referredById` the holder of the code used, or none; no event, ticket
    type, voucher, transaction or review changes.
   */
  lemma RegisterEffect(t: Tables, body: RegisterBody, draws: seq<string>, couponDraw: string, inThreeMonths: int)
    requires |draws| == CODE_RETRIES + 1
    requires Register(t, body, draws, couponDraw, inThreeMonths).Ok?
    ensures var t' := Register(t, body, draws, couponDraw, inThreeMonths).value;
            var u := At(t'.users, |t.users| + 1);
            && |t'.users| == |t.users| + 1 && t'.users[..|t.users|] == t.users
            && u.name == body.name && u.email == body.email
            && (body.role.None? ==> u.role == Customer)
            && u.referralCode == PickCode(t.users, draws, 0)
            && (!GivenText(body.referralCodeUsed) ==> u.referredById.None?)
            && (GivenText(body.referralCodeUsed) ==>
                  u.referredById.Some? && Exists(t.users, u.referredById.value)
                  && At(t.users, u.referredById.value).referralCode == body.referralCodeUsed.value)
            && t'.events == t.events && t'.ticketTypes == t.ticketTypes && t'.vouchers == t.vouchers
            && t'.transactions == t.transactions && t'.reviews == t.reviews
  {
    var t' := Register(t, body, draws, couponDraw, inThreeMonths).value;
    assert t'.users[..|t.users|] == t.users;
  }

  /**
    How `register` ends, check by check: a taken email is refused first;
    then a referral code no user holds; then a clash of the drawn coupon
    code with an existing coupon. A free email with no referral code, or
    with a held one and a free coupon code, always succeeds.
   */
  lemma RegisterOutcome(t: Tables, body: RegisterBody, draws: seq<string>, couponDraw: string, inThreeMonths: int)
    requires |draws| == CODE_RETRIES + 1
    ensures var r := Register(t, body, draws, couponDraw, inThreeMonths);
            var referred := GivenText(body.referralCodeUsed);
            && (r.Ok? <==>
                  !EmailTaken(t.users, body.email)
                  && (referred ==> CodeInUse(t.users, body.referralCodeUsed.value)
                                   && !CouponCodeTaken(t.coupons, "REF-" + couponDraw)))
            && (r == Err(InvalidReferralCode) <==>
                  !EmailTaken(t.users, body.email) && referred && !CodeInUse(t.users, body.referralCodeUsed.value))
            && (r == Err(UniqueViolation) <==>
                  !EmailTaken(t.users, body.email) && referred && CodeInUse(t.users, body.referralCodeUsed.value)
                  && CouponCodeTaken(t.coupons, "REF-" + couponDraw))
  {
    if GivenText(body.referralCodeUsed) {
      ReferrerFoundIff(t.users, body.referralCodeUsed.value);
    }
  }

  /** Without a referral code there is no reward: coupons and ledger stay as they were. */
  lemma NoReferralNoRewards(t: Tables, body: RegisterBody, draws: seq<string>, couponDraw: string, inThreeMonths: int)
    requires |draws| == CODE_RETRIES + 1
    requires !GivenText(body.referralCodeUsed)
    ensures !EmailTaken(t.users, body.email) ==> Register(t, body, draws, couponDraw, inThreeMonths).Ok?
    ensures var r := Register(t, body, draws, couponDraw, inThreeMonths);
            r.Ok? ==> r.value.coupons == t.coupons && r.value.ledger == t.ledger
  {
  }

  /** A referral code no user holds is refused (after the email check) and nothing is created. */
  lemma UnknownReferralRefused(t: Tables, body: RegisterBody, draws: seq<string>, couponDraw: string, inThreeMonths: int)
    requires |draws| == CODE_RETRIES + 1
    requires !EmailTaken(t.users, body.email) && GivenText(body.referralCodeUsed)
    ensures Register(t, body, draws, couponDraw, inThreeMonths) == Err(InvalidReferralCode)
            <==> !CodeInUse(t.users, body.referralCodeUsed.value)
  {
    ReferrerFoundIff(t.users, body.referralCodeUsed.value);
  }

  /**
    A referred user yields exactly two reward rows sharing the expiry
    `inThreeMonths`: an unused coupon of 20000 for the new user, and a
    credit of 10000 to the referrer that references the new user.
   */
  lemma ReferralRewards(t: Tables, body: RegisterBody, draws: seq<string>, couponDraw: string, inThreeMonths: int)
    requires |draws| == CODE_RETRIES + 1
    requires GivenText(body.referralCodeUsed)
    requires Register(t, body, draws, couponDraw, inThreeMonths).Ok?
    ensures var t' := Register(t, body, draws, couponDraw, inThreeMonths).value;
            var userId := |t.users| + 1;
            var referrerId := At(t'.users, userId).referredById.value;
            && t'.coupons == t.coupons + [t'.coupons[|t.coupons|]]
            && t'.ledger == t.ledger + [t'.ledger[|t.ledger|]]
            && var c, e := t'.coupons[|t.coupons|], t'.ledger[|t.ledger|];
            && c.userId == userId && c.discountAmount == 20000 && c.usedAt.None? && c.expiresAt == inThreeMonths
            && e.userId == referrerId && e.amount == 10000 && e.reason == ReferralReward
            && e.expiresAt == Some(inThreeMonths) && e.referenceId == Some(userId)
  {
  }

  /** Until the reward expires, the referrer's balance rises by exactly 10000; no other user's balance moves. */
  lemma ReferralCreditsReferrer(t: Tables, body: RegisterBody, draws: seq<string>, couponDraw: string,
                                now: int, inThreeMonths: int, userId: nat)
    requires |draws| == CODE_RETRIES + 1
    requires GivenText(body.referralCodeUsed) && now < inThreeMonths
    requires Register(t, body, draws, couponDraw, inThreeMonths).Ok?
    ensures var t' := Register(t, body, draws, couponDraw, inThreeMonths).value;
            var referrerId := At(t'.users, |t.users| + 1).referredById.value;
            TransactionAmounts.AvailablePoints(t'.ledger, userId, now)
              == TransactionAmounts.AvailablePoints(t.ledger, userId, now) + (if userId == referrerId then 10000 else 0)
  {
    var t' := Register(t, body, draws, couponDraw, inThreeMonths).value;
    ReferralRewards(t, body, draws, couponDraw, inThreeMonths);
    TransactionAmounts.AvailableAfterAppend(t.ledger, t'.ledger[|t.ledger|], userId, now);
  }

  /** `register` keeps the database valid; in particular no two users share an email. */
  lemma RegisterPreservesValid(t: Tables, body: RegisterBody, draws: seq<string>, couponDraw: string, inThreeMonths: int)
    requires |draws| == CODE_RETRIES + 1
    requires Valid(t) && Register(t, body, draws, couponDraw, inThreeMonths).Ok?
    ensures Valid(Register(t, body, draws, couponDraw, inThreeMonths).value)
  {
    var t' := Register(t, body, draws, couponDraw, inThreeMonths).value;
    assert KeepsRowsValid(t, t') by {
      forall k | Exists(t.coupons, k) ensures At(t'.coupons, k) == At(t.coupons, k) {
        assert t'.coupons[..|t.coupons|] == t.coupons;
      }
    }
    forall x | x in t.transactions
      ensures RowValid(t', x)
    {
      assert RowValid(t, x);
      RowStaysValid(t, t', x);
    }
    forall i, j | 0 <= i < j < |t'.users|
      ensures t'.users[i].email != t'.users[j].email
    {
      if j == |t.users| {
        assert t'.users[i] == t.users[i];
      }
    }
  }
}
