/**
  The review service: who may review an event (after it ends, with a `DONE`
  purchase, once), and the event's review list, newest first, with its count.
 */
module ReviewService {
  import opened Schema
  import opened Integrity

  // ----- createForEvent -----

  /** Whether `userId` has a `DONE` transaction for `eventId` (the `findFirst`). */
  predicate HasDonePurchase(t: Tables, eventId: int, userId: int) {
    FindFirst(t.transactions, (x: Transaction) => x.eventId == eventId && x.customerId == userId && x.status == Done).Some?
  }

  /** Whether `userId` has already reviewed `eventId`: the unique key (user, event) would refuse the insert. */
  predicate HasReviewed(t: Tables, eventId: int, userId: int) {
    exists i :: 0 <= i < |t.reviews| && t.reviews[i].userId == userId && t.reviews[i].eventId == eventId
  }

  /**
    `createForEvent`: 404 for a missing event, then the end-time check, then
    the `DONE` purchase, then the insert that the (user, event) key refuses a
    second time. The row's `createdAt` is `now`.
   */
  function CreateReview(t: Tables, eventId: nat, userId: nat, rating: int, comment: Option<string>, now: int): (r: Result<Tables>)
    ensures r.Ok? ==> r.value == t.(reviews := t.reviews + [Review(eventId, userId, rating, comment, now)])
  {
    if !Exists(t.events, eventId) then Err(EventNotFound)
    else if At(t.events, eventId).endAt > now then Err(ReviewBeforeEventEnd)
    else if !HasDonePurchase(t, eventId, userId) then Err(NoDoneTransaction)
    else if HasReviewed(t, eventId, userId) then Err(AlreadyReviewed)
    else Ok(t.(reviews := t.reviews + [Review(eventId, userId, rating, comment, now)]))
  }

  /** Some transaction of `userId` for `eventId` reached `DONE`. */
  ghost predicate BoughtAndDone(t: Tables, eventId: int, userId: int) {
    exists k :: Exists(t.transactions, k) && At(t.transactions, k).eventId == eventId
                && At(t.transactions, k).customerId == userId && At(t.transactions, k).status == Done
  }

  /**
    Eligibility, both ways: a review is accepted exactly when the event exists
    and has ended, the user bought a ticket that reached `DONE`, and the user
    has not reviewed it before; each failure names the first check it fails.
   */
  lemma ReviewEligibility(t: Tables, eventId: nat, userId: nat, rating: int, comment: Option<string>, now: int)
    ensures var r := CreateReview(t, eventId, userId, rating, comment, now);
            && (r.Ok? <==>
                  && Exists(t.events, eventId) && At(t.events, eventId).endAt <= now
                  && BoughtAndDone(t, eventId, userId) && !HasReviewed(t, eventId, userId))
            && (!Exists(t.events, eventId) <==> r == Err(EventNotFound))
            && (Exists(t.events, eventId) && At(t.events, eventId).endAt > now <==> r == Err(ReviewBeforeEventEnd))
            && (r == Err(NoDoneTransaction) <==>
                  Exists(t.events, eventId) && At(t.events, eventId).endAt <= now && !BoughtAndDone(t, eventId, userId))
            && (r == Err(AlreadyReviewed) <==>
                  && Exists(t.events, eventId) && At(t.events, eventId).endAt <= now
                  && BoughtAndDone(t, eventId, userId) && HasReviewed(t, eventId, userId))
            && (r.Err? ==> r.error in {EventNotFound, ReviewBeforeEventEnd, NoDoneTransaction, AlreadyReviewed})
  {
    var p := (x: Transaction) => x.eventId == eventId && x.customerId == userId && x.status == Done;
    var found := FindFirst(t.transactions, p);
    if found.Some? {
      assert p(At(t.transactions, found.value));
    }
  }

  /**
    A second review by the same user for the same event is refused: at or
    after the event's end by the (user, event) key, before it by the end-time check.
   */
  lemma ReviewOnce(t: Tables, eventId: nat, userId: nat, rating: int, comment: Option<string>, now: int,
                   rating2: int, comment2: Option<string>, later: int)
    requires CreateReview(t, eventId, userId, rating, comment, now).Ok?
    ensures var r2 := CreateReview(CreateReview(t, eventId, userId, rating, comment, now).value, eventId, userId, rating2, comment2, later);
            && (At(t.events, eventId).endAt <= later ==> r2 == Err(AlreadyReviewed))
            && (At(t.events, eventId).endAt > later ==> r2 == Err(ReviewBeforeEventEnd))
  {
    var t' := CreateReview(t, eventId, userId, rating, comment, now).value;
    assert t'.reviews[|t.reviews|].userId == userId && t'.reviews[|t.reviews|].eventId == eventId;
    assert t'.events == t.events && t'.transactions == t.transactions;
    if later >= At(t.events, eventId).endAt {
      ReviewEligibility(t', eventId, userId, rating2, comment2, later);
      assert HasReviewed(t', eventId, userId);
    }
  }

  /** With a rating in 1..5, as the request body's validation demands, a new review keeps the database valid. */
  lemma CreateReviewPreservesValid(t: Tables, eventId: nat, userId: nat, rating: int, comment: Option<string>, now: int)
    requires 1 <= rating <= 5
    requires Valid(t) && CreateReview(t, eventId, userId, rating, comment, now).Ok?
    ensures Valid(CreateReview(t, eventId, userId, rating, comment, now).value)
  {
    var t' := CreateReview(t, eventId, userId, rating, comment, now).value;
    forall x | x in t.transactions
      ensures RowValid(t', x)
    {
      assert RowValid(t, x);
      RowStaysValid(t, t', x);
    }
    var rs, rs' := t.reviews, t'.reviews;
    forall i, j | 0 <= i < j < |rs'|
      ensures rs'[i].userId != rs'[j].userId || rs'[i].eventId != rs'[j].eventId
    {
      if j == |rs| {
        assert rs'[i] == rs[i];
      }
    }
  }

  /** `createForEvent`: the new review's id. */
  method CreateForEvent(db: Store, eventId: nat, userId: nat, rating: int, comment: Option<string>, now: int)
    returns (r: Result<nat>)
    modifies db
    ensures var o := CreateReview(old(db.Snapshot()), eventId, userId, rating, comment, now);
            && (o.Err? ==> r == Err(o.error) && db.Snapshot() == old(db.Snapshot()))
            && (o.Ok? ==> r == Ok(|db.reviews|) && db.Snapshot() == o.value)
  {
    if !Exists(db.events, eventId) {
      return Err(EventNotFound);
    }
    if At(db.events, eventId).endAt > now {
      return Err(ReviewBeforeEventEnd);
    }
    var done := FindFirst(db.transactions, (x: Transaction) => x.eventId == eventId && x.customerId == userId && x.status == Done);
    if done.None? {
      return Err(NoDoneTransaction);
    }
    if HasReviewed(db.Snapshot(), eventId, userId) {
      return Err(AlreadyReviewed);
    }
    db.reviews := db.reviews + [Review(eventId, userId, rating, comment, now)];
    r := Ok(|db.reviews|);
  }

  // ----- listByEvent -----

  /** One listed review and its id. */
  datatype ReviewItem = ReviewItem(id: nat, review: Review)

  /** The review list of an event: the count and the items. */
  datatype ReviewList = ReviewList(totalReviews: nat, items: seq<ReviewItem>)

  /** Newest first: `createdAt` never rises along the list. */
  predicate NewestFirst(s: seq<ReviewItem>) {
    forall i, j :: 0 <= i < j < |s| ==> s[i].review.createdAt >= s[j].review.createdAt
  }

  /** `x` placed before the first item strictly older than it. */
  function InsertByDate(x: ReviewItem, s: seq<ReviewItem>): (r: seq<ReviewItem>)
    ensures |r| == |s| + 1
    ensures multiset(r) == multiset(s) + multiset{x}
    ensures forall k :: 0 <= k < |r| ==> r[k] == x || r[k] in s
  {
    if s == [] || x.review.createdAt >= s[0].review.createdAt then [x] + s
    else
      assert s == [s[0]] + s[1..];
      [s[0]] + InsertByDate(x, s[1..])
  }

  /** Every item of `InsertByDate(x, s)` is at most as recent as a bound on `x` and on `s`. */
  lemma InsertBounded(x: ReviewItem, s: seq<ReviewItem>, c: int)
    requires x.review.createdAt <= c
    requires forall k :: 0 <= k < |s| ==> s[k].review.createdAt <= c
    ensures forall k :: 0 <= k < |InsertByDate(x, s)| ==> InsertByDate(x, s)[k].review.createdAt <= c
  {
    var r := InsertByDate(x, s);
    forall k | 0 <= k < |r|
      ensures r[k].review.createdAt <= c
    {
      if r[k] != x {
        var m :| 0 <= m < |s| && s[m] == r[k];
      }
    }
  }

  /** A newest-first list stays newest first under a head at least as recent as all of it. */
  lemma ConsNewestFirst(h: ReviewItem, rest: seq<ReviewItem>)
    requires NewestFirst(rest)
    requires forall k :: 0 <= k < |rest| ==> rest[k].review.createdAt <= h.review.createdAt
    ensures NewestFirst([h] + rest)
  {
    var r := [h] + rest;
    forall i, j | 0 <= i < j < |r|
      ensures r[i].review.createdAt >= r[j].review.createdAt
    {
      assert r[j] == rest[j - 1];
      if i > 0 {
        assert r[i] == rest[i - 1];
      }
    }
  }

  lemma {:induction false} InsertKeepsNewestFirst(x: ReviewItem, s: seq<ReviewItem>)
    requires NewestFirst(s)
    ensures NewestFirst(InsertByDate(x, s))
  {
    if s != [] && x.review.createdAt < s[0].review.createdAt {
      InsertKeepsNewestFirst(x, s[1..]);
      InsertBounded(x, s[1..], s[0].review.createdAt);
      ConsNewestFirst(s[0], InsertByDate(x, s[1..]));
    }
  }

  /** The `orderBy: { createdAt: "desc" }` of the query, as an insertion sort. */
  function SortNewestFirst(s: seq<ReviewItem>): (r: seq<ReviewItem>)
    ensures |r| == |s|
    ensures multiset(r) == multiset(s)
  {
    if s == [] then []
    else
      assert s == [s[0]] + s[1..];
      InsertByDate(s[0], SortNewestFirst(s[1..]))
  }

  lemma {:induction false} SortIsNewestFirst(s: seq<ReviewItem>)
    ensures NewestFirst(SortNewestFirst(s))
  {
    if s != [] {
      SortIsNewestFirst(s[1..]);
      InsertKeepsNewestFirst(s[0], SortNewestFirst(s[1..]));
    }
  }

  /** The filter `where: { eventId }`. */
  function OfEvent(eventId: int): Review -> bool {
    (v: Review) => v.eventId == eventId
  }

  /** The event's reviews with their ids, in id order (the `where: { eventId }`). */
  function EventReviews(t: Tables, eventId: int): (items: seq<ReviewItem>)
    ensures |items| == |Where(t.reviews, OfEvent(eventId))|
    ensures forall i :: 0 <= i < |items| ==> items[i].id == Where(t.reviews, OfEvent(eventId))[i]
    ensures forall i :: 0 <= i < |items| ==> Exists(t.reviews, items[i].id) && items[i].review == At(t.reviews, items[i].id)
  {
    var ids := Where(t.reviews, OfEvent(eventId));
    seq(|ids|, i requires 0 <= i < |ids| => ReviewItem(ids[i], At(t.reviews, ids[i])))
  }

  /** `listByEvent`: the number of the event's reviews, and those reviews newest first. */
  function ListByEvent(t: Tables, eventId: int): (l: ReviewList)
    ensures l.totalReviews == |l.items|
  {
    var items := EventReviews(t, eventId);
    ReviewList(|items|, SortNewestFirst(items))
  }

  /**
    The list holds each of the event's reviews exactly once, with its own id
    and no other review, newest first, and `totalReviews` counts them.
   */
  lemma ListByEventSpec(t: Tables, eventId: int)
    ensures var l := ListByEvent(t, eventId);
            && NewestFirst(l.items)
            && l.totalReviews == |Where(t.reviews, OfEvent(eventId))|
            && (forall it :: it in l.items ==> Exists(t.reviews, it.id) && it.review == At(t.reviews, it.id) && it.review.eventId == eventId)
            && (forall k :: Exists(t.reviews, k) && At(t.reviews, k).eventId == eventId ==> multiset(l.items)[ReviewItem(k, At(t.reviews, k))] == 1)
  {
    var items := EventReviews(t, eventId);
    SortIsNewestFirst(items);
    forall it | it in ListByEvent(t, eventId).items
      ensures Exists(t.reviews, it.id) && it.review == At(t.reviews, it.id) && it.review.eventId == eventId
    {
      assert it in multiset(items);
      EventReviewsMember(t, eventId, it);
    }
    forall k | Exists(t.reviews, k) && At(t.reviews, k).eventId == eventId
      ensures multiset(ListByEvent(t, eventId).items)[ReviewItem(k, At(t.reviews, k))] == 1
    {
      EventReviewsOnce(t, eventId, k);
    }
  }

  /** Every item of the unsorted selection is one of the event's reviews with its own id. */
  lemma EventReviewsMember(t: Tables, eventId: int, it: ReviewItem)
    requires it in EventReviews(t, eventId)
    ensures Exists(t.reviews, it.id) && it.review == At(t.reviews, it.id) && it.review.eventId == eventId
  {
    var ids := Where(t.reviews, OfEvent(eventId));
    var items := EventReviews(t, eventId);
    var i :| 0 <= i < |items| && items[i] == it;
    assert items[i].id == ids[i];
    assert OfEvent(eventId)(At(t.reviews, ids[i]));
  }

  /** Each of the event's reviews occurs exactly once in the unsorted selection. */
  lemma EventReviewsOnce(t: Tables, eventId: int, k: int)
    requires Exists(t.reviews, k) && At(t.reviews, k).eventId == eventId
    ensures multiset(EventReviews(t, eventId))[ReviewItem(k, At(t.reviews, k))] == 1
  {
    var ids := Where(t.reviews, OfEvent(eventId));
    var items := EventReviews(t, eventId);
    assert OfEvent(eventId)(At(t.reviews, k));
    var i :| 0 <= i < |ids| && ids[i] == k;
    assert items[i] == ReviewItem(k, At(t.reviews, k));
    CountOnce(items, ids, i);
  }

  /** An item whose id occurs once among distinct ids occurs once in the multiset. */
  lemma {:induction false} CountOnce(items: seq<ReviewItem>, ids: seq<nat>, i: nat)
    requires |items| == |ids| && i < |ids|
    requires forall m :: 0 <= m < |items| ==> items[m].id == ids[m]
    requires forall m, n :: 0 <= m < n < |ids| ==> ids[m] < ids[n]
    ensures multiset(items)[items[i]] == 1
    decreases |items|
  {
    var n := |items| - 1;
    assert items == items[..n] + [items[n]];
    if i == n {
      assert items[i] !in items[..n] by {
        forall m | 0 <= m < n ensures items[..n][m] != items[i] {
          assert ids[m] < ids[n];
        }
      }
    } else {
      CountOnce(items[..n], ids[..n], i);
      assert items[n] != items[i] by {
        assert ids[i] < ids[n];
      }
    }
  }
}
