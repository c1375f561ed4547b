/**
  The event service: the page arithmetic of `list`, creating and updating an
  event (with the seat resize that keeps sold seats fixed), creating a
  voucher, and the vouchers `detail` shows as active.
 */
module EventService {
  import opened Schema
  import opened Integrity
  import TransactionCreation

  // ----- list: page arithmetic -----

  /** `Math.ceil(total / limit)` for a positive `limit`. */
  function CeilDiv(total: nat, limit: int): (pages: nat)
    requires limit >= 1
    ensures pages * limit >= total
    ensures pages >= 1 ==> (pages - 1) * limit < total
  {
    (total + limit - 1) / limit
  }

  /** The paging fields of a `list` response. */
  datatype Paging = Paging(page: int, limit: int, skip: int, total: nat, totalPages: nat)

  /**
    `list`'s paging. The query values arrive as strings, so `None` stands
    for an absent or empty one, the only values `||` replaces: an absent
    `page` is 1 and an absent `limit` is 10. A given `page` is raised to at
    least 1 and a given `limit` clamped to 1..50, so a `limit` of 0 is 1.
   */
  function ListPaging(rawPage: Option<int>, rawLimit: Option<int>, total: nat): (p: Paging)
    ensures p.page >= 1 && 1 <= p.limit <= 50 && p.skip == (p.page - 1) * p.limit >= 0
    ensures rawPage.Some? && rawPage.value >= 1 ==> p.page == rawPage.value
    ensures rawPage.None? || rawPage.value < 1 ==> p.page == 1
    ensures rawLimit.Some? && 1 <= rawLimit.value <= 50 ==> p.limit == rawLimit.value
    ensures rawLimit.None? ==> p.limit == 10
    ensures rawLimit.Some? && rawLimit.value > 50 ==> p.limit == 50
    ensures rawLimit.Some? && rawLimit.value < 1 ==> p.limit == 1
    ensures p.total == total && p.totalPages == CeilDiv(total, p.limit)
  {
    var page := Max(1, rawPage.GetOr(1));
    var limit := Min(50, Max(1, rawLimit.GetOr(10)));
    MulMonotone(page - 1, 0, limit);
    Paging(page, limit, (page - 1) * limit, total, CeilDiv(total, limit))
  }

  /**
    The pages split the matching rows: row `i` (counting from 0) is on page
    `i / limit + 1`, which lies between 1 and `totalPages`, and whose `skip`
    is at most `i`, with `i` before the next page's `skip`.
   */
  lemma PagesCoverRows(rawPage: Option<int>, rawLimit: Option<int>, total: nat, i: nat)
    requires i < total
    ensures var p := ListPaging(rawPage, rawLimit, total);
            var onPage := i / p.limit + 1;
            && 1 <= onPage <= p.totalPages
            && ListPaging(Some(onPage), rawLimit, total).skip <= i < ListPaging(Some(onPage), rawLimit, total).skip + p.limit
  {
    var p := ListPaging(rawPage, rawLimit, total);
    RowOnPage(total, p.limit, i);
    assert ListPaging(Some(i / p.limit + 1), rawLimit, total).limit == p.limit;
  }

  /** Row `i` lies on the page after the `i / limit` full ones, and that page is not past the last. */
  lemma RowOnPage(total: nat, limit: int, i: nat)
    requires limit >= 1 && i < total
    ensures 0 <= i / limit
    ensures (i / limit) * limit <= i < (i / limit) * limit + limit
    ensures i / limit + 1 <= CeilDiv(total, limit)
  {
    DivBounds(i, limit);
    var q := i / limit;
    assert (q + 1) * limit == q * limit + limit;
    DivMonotone(q + 1, limit, total + limit - 1);
  }

  /** `n / d` is the quotient whose multiple lies within `d` below `n`. */
  lemma DivBounds(n: nat, d: int)
    requires d >= 1
    ensures (n / d) * d <= n < (n / d) * d + d
  {
  }

  /** A multiple of `d` at most `n` has a factor at most `n / d`. */
  lemma DivMonotone(a: int, d: int, n: nat)
    requires d >= 1 && a * d <= n
    ensures a <= n / d
  {
    DivBounds(n, d);
    assert (n / d + 1) * d == (n / d) * d + d;
    MulMonotone(a, n / d + 1, d);
  }

  lemma MulMonotone(a: int, b: int, d: int)
    requires d >= 0
    ensures a >= b ==> a * d >= b * d
  {
    if a >= b {
      assert a * d == b * d + (a - b) * d;
    }
  }

  // ----- create -----

  /** The fields of a `create` body; `price` and `isPublished` may be absent. */
  datatype EventBody = EventBody(
    name: string,
    description: string,
    category: string,
    location: string,
    startAt: int,
    endAt: int,
    price: Option<int>,
    totalSeats: int,
    isPublished: Option<bool>,
    imageUrl: Option<string>)

  /** The checks of `create`, in order. */
  function CheckEventBody(body: EventBody): (e: Option<Error>)
    ensures e.None? <==> body.startAt < body.endAt && body.totalSeats >= 1 && body.price.GetOr(0) >= 0
    ensures e.Some? ==> e.value in {EndNotAfterStart, TotalSeatsTooSmall, NegativePrice}
    ensures e == Some(EndNotAfterStart) <==> body.endAt <= body.startAt
    ensures e == Some(TotalSeatsTooSmall) <==> body.startAt < body.endAt && body.totalSeats < 1
    ensures e == Some(NegativePrice) <==>
              body.startAt < body.endAt && body.totalSeats >= 1 && body.price.GetOr(0) < 0
  {
    if body.endAt <= body.startAt then Some(EndNotAfterStart)
    else if body.totalSeats == 0 || body.totalSeats < 1 then Some(TotalSeatsTooSmall)
    else if body.price.GetOr(0) < 0 then Some(NegativePrice)
    else None
  }

  /** The row `create` inserts. */
  function NewEvent(organizerId: nat, body: EventBody): Event {
    Event(organizerId, body.name, body.description, body.category, body.location, body.startAt, body.endAt,
          body.price.GetOr(0), body.totalSeats, body.totalSeats, body.isPublished.GetOr(true), body.imageUrl)
  }

  /** `create`: the checks, then one inserted event. */
  function CreateEvent(t: Tables, organizerId: nat, body: EventBody): (r: Result<Tables>)
    ensures r.Err? <==> CheckEventBody(body).Some?
    ensures r.Err? ==> r.error == CheckEventBody(body).value
    ensures r.Ok? ==> r.value == t.(events := t.events + [NewEvent(organizerId, body)])
  {
    match CheckEventBody(body)
    case Some(e) => Err(e)
    case None => Ok(t.(events := t.events + [NewEvent(organizerId, body)]))
  }

  /** A created event is unsold, within its seat bounds, priced at zero or more, and published unless told otherwise. */
  lemma CreatedEventShape(t: Tables, organizerId: nat, body: EventBody)
    requires CreateEvent(t, organizerId, body).Ok?
    ensures var e := At(CreateEvent(t, organizerId, body).value.events, |t.events| + 1);
            && e.organizerId == organizerId
            && e.remainingSeats == e.totalSeats == body.totalSeats >= 1
            && e.startAt < e.endAt && e.price >= 0
            && (body.price.None? ==> e.price == 0)
            && (body.isPublished.None? ==> e.isPublished)
  {
  }

  /** Inserting an event keeps the database valid and every seat count within bounds. */
  lemma CreateEventPreservesInvariants(t: Tables, organizerId: nat, body: EventBody)
    requires CreateEvent(t, organizerId, body).Ok?
    ensures Valid(t) ==> Valid(CreateEvent(t, organizerId, body).value)
    ensures SeatBounds(t) ==> SeatBounds(CreateEvent(t, organizerId, body).value)
  {
    var t' := CreateEvent(t, organizerId, body).value;
    assert KeepsRowsValid(t, t');
    forall x | x in t.transactions
      ensures RowValid(t, x) ==> RowValid(t', x)
    {
      if RowValid(t, x) {
        RowStaysValid(t, t', x);
      }
    }
  }

  /** `create`: the new event's id. */
  method Create(db: Store, body: EventBody, organizerId: nat) returns (r: Result<nat>)
    modifies db
    ensures var o := CreateEvent(old(db.Snapshot()), organizerId, body);
            && (o.Err? ==> r == Err(o.error) && db.Snapshot() == old(db.Snapshot()))
            && (o.Ok? ==> r == Ok(|db.events|) && db.Snapshot() == o.value)
  {
    if body.endAt <= body.startAt {
      return Err(EndNotAfterStart);
    }
    var totalSeats := body.totalSeats;
    if totalSeats == 0 || totalSeats < 1 {
      return Err(TotalSeatsTooSmall);
    }
    var price := body.price.GetOr(0);
    if price < 0 {
      return Err(NegativePrice);
    }
    db.events := db.events + [Event(organizerId, body.name, body.description, body.category, body.location,
                                     body.startAt, body.endAt, price, totalSeats, totalSeats,
                                     body.isPublished.GetOr(true), body.imageUrl)];
    r := Ok(|db.events|);
  }

  // ----- update -----

  /**
    The fields of an `update` body; `None` is a field left out. An empty
    `imageUrl` clears the image.
   */
  datatype EventPatch = EventPatch(
    name: Option<string>,
    description: Option<string>,
    category: Option<string>,
    location: Option<string>,
    isPublished: Option<bool>,
    imageUrl: Option<string>,
    startAt: Option<int>,
    endAt: Option<int>,
    price: Option<int>,
    totalSeats: Option<int>)

  /** The seats already sold: `totalSeats - remainingSeats`. */
  function Used(e: Event): int {
    e.totalSeats - e.remainingSeats
  }

  /** The checks of `update` after ownership, in order; the dates are compared only when both are given. */
  function CheckPatch(e: Event, body: EventPatch): (err: Option<Error>)
    ensures err.None? <==>
              && !(body.startAt.Some? && body.endAt.Some? && body.endAt.value <= body.startAt.value)
              && (body.price.Some? ==> body.price.value >= 0)
              && (body.totalSeats.Some? ==> body.totalSeats.value >= 1 && body.totalSeats.value >= Used(e))
    ensures err.Some? ==> err.value in {EndNotAfterStart, NegativePrice, TotalSeatsTooSmall, TotalSeatsBelowUsed(Used(e))}
    ensures var datesOk := !(body.startAt.Some? && body.endAt.Some? && body.endAt.value <= body.startAt.value);
            && (err == Some(EndNotAfterStart) <==> !datesOk)
            && (err == Some(NegativePrice) <==> datesOk && body.price.Some? && body.price.value < 0)
            && (err == Some(TotalSeatsTooSmall) <==>
                  datesOk && (body.price.Some? ==> body.price.value >= 0)
                  && body.totalSeats.Some? && body.totalSeats.value < 1)
            && (err == Some(TotalSeatsBelowUsed(Used(e))) <==>
                  datesOk && (body.price.Some? ==> body.price.value >= 0)
                  && body.totalSeats.Some? && 1 <= body.totalSeats.value < Used(e))
  {
    if body.startAt.Some? && body.endAt.Some? && body.endAt.value <= body.startAt.value then Some(EndNotAfterStart)
    else if body.price.Some? && body.price.value < 0 then Some(NegativePrice)
    else if body.totalSeats.Some? && (body.totalSeats.value == 0 || body.totalSeats.value < 1) then Some(TotalSeatsTooSmall)
    else if body.totalSeats.Some? && body.totalSeats.value < Used(e) then Some(TotalSeatsBelowUsed(Used(e)))
    else None
  }

  /** The event with the given fields written; a new total keeps the sold seats fixed. */
  function Patched(e: Event, body: EventPatch): Event {
    e.(name := body.name.GetOr(e.name),
       description := body.description.GetOr(e.description),
       category := body.category.GetOr(e.category),
       location := body.location.GetOr(e.location),
       isPublished := body.isPublished.GetOr(e.isPublished),
       imageUrl := if body.imageUrl.None? then e.imageUrl else if body.imageUrl.value == "" then None else body.imageUrl,
       startAt := body.startAt.GetOr(e.startAt),
       endAt := body.endAt.GetOr(e.endAt),
       price := body.price.GetOr(e.price),
       totalSeats := body.totalSeats.GetOr(e.totalSeats),
       remainingSeats := if body.totalSeats.Some? then body.totalSeats.value - Used(e) else e.remainingSeats)
  }

  /** `update`: 404, then 403, then the field checks, then one write of the event. */
  function UpdateEvent(t: Tables, id: int, body: EventPatch, organizerId: nat): (r: Result<Tables>)
    ensures !Exists(t.events, id) <==> r == Err(EventNotFound)
    ensures Exists(t.events, id) && At(t.events, id).organizerId != organizerId <==> r == Err(Forbidden)
    ensures r.Ok? ==> Exists(t.events, id) && r.value == t.(events := Put(t.events, id, Patched(At(t.events, id), body)))
  {
    if !Exists(t.events, id) then Err(EventNotFound)
    else
      var e := At(t.events, id);
      if e.organizerId != organizerId then Err(Forbidden)
      else match CheckPatch(e, body)
        case Some(err) => Err(err)
        case None => Ok(t.(events := Put(t.events, id, Patched(e, body))))
  }

  /** `update`, building the written fields one by one. */
  method Update(db: Store, id: int, body: EventPatch, organizerId: nat) returns (r: Result<()>)
    modifies db
    ensures var o := UpdateEvent(old(db.Snapshot()), id, body, organizerId);
            && (o.Err? ==> r == Err(o.error) && db.Snapshot() == old(db.Snapshot()))
            && (o.Ok? ==> r == Ok(()) && db.Snapshot() == o.value)
  {
    if !Exists(db.events, id) {
      return Err(EventNotFound);
    }
    var existing := At(db.events, id);
    if existing.organizerId != organizerId {
      return Err(Forbidden);
    }
    var data := CopyDescriptive(existing, body);
    if body.startAt.Some? { data := data.(startAt := body.startAt.value); }
    if body.endAt.Some? { data := data.(endAt := body.endAt.value); }
    if body.startAt.Some? && body.endAt.Some? && data.endAt <= data.startAt {
      return Err(EndNotAfterStart);
    }
    if body.price.Some? {
      if body.price.value < 0 {
        return Err(NegativePrice);
      }
      data := data.(price := body.price.value);
    }
    if body.totalSeats.Some? {
      var newTotal := body.totalSeats.value;
      if newTotal == 0 || newTotal < 1 {
        return Err(TotalSeatsTooSmall);
      }
      var used := existing.totalSeats - existing.remainingSeats;
      if newTotal < used {
        return Err(TotalSeatsBelowUsed(used));
      }
      data := data.(totalSeats := newTotal, remainingSeats := newTotal - used);
    }
    assert data == Patched(existing, body);
    db.events := Put(db.events, id, data);
    r := Ok(());
  }

  /** The descriptive fields `update` copies from the body when given; an empty image URL clears the image. */
  method CopyDescriptive(existing: Event, body: EventPatch) returns (data: Event)
    ensures data == existing.(name := body.name.GetOr(existing.name),
                              description := body.description.GetOr(existing.description),
                              category := body.category.GetOr(existing.category),
                              location := body.location.GetOr(existing.location),
                              isPublished := body.isPublished.GetOr(existing.isPublished),
                              imageUrl := Patched(existing, body).imageUrl)
  {
    var name, description, category, location := existing.name, existing.description, existing.category, existing.location;
    var isPublished, imageUrl := existing.isPublished, existing.imageUrl;
    if body.name.Some? { name := body.name.value; }
    if body.description.Some? { description := body.description.value; }
    if body.category.Some? { category := body.category.value; }
    if body.location.Some? { location := body.location.value; }
    if body.isPublished.Some? { isPublished := body.isPublished.value; }
    if body.imageUrl.Some? {
      imageUrl := if body.imageUrl.value == "" then None else body.imageUrl;
    }
    data := existing.(name := name, description := description, category := category, location := location,
                      isPublished := isPublished, imageUrl := imageUrl);
  }

  /**
    A successful update changes only the event it names, and of it only the
    fields the body gives (the seat pair through the resize); every other
    field, including the owner, stays.
   */
  lemma UpdateChangesOnlyGivenFields(t: Tables, id: int, body: EventPatch, organizerId: nat)
    requires UpdateEvent(t, id, body, organizerId).Ok?
    ensures var t' := UpdateEvent(t, id, body, organizerId).value;
            var e, e' := At(t.events, id), At(t'.events, id);
            && t' == t.(events := t'.events) && |t'.events| == |t.events|
            && (forall k :: Exists(t.events, k) && k != id ==> At(t'.events, k) == At(t.events, k))
            && e'.organizerId == e.organizerId
            && (body.name.None? ==> e'.name == e.name) && (body.name.Some? ==> e'.name == body.name.value)
            && (body.description.None? ==> e'.description == e.description)
            && (body.category.None? ==> e'.category == e.category)
            && (body.location.None? ==> e'.location == e.location)
            && (body.isPublished.None? ==> e'.isPublished == e.isPublished)
            && (body.imageUrl.None? ==> e'.imageUrl == e.imageUrl)
            && (body.startAt.None? ==> e'.startAt == e.startAt) && (body.startAt.Some? ==> e'.startAt == body.startAt.value)
            && (body.endAt.None? ==> e'.endAt == e.endAt) && (body.endAt.Some? ==> e'.endAt == body.endAt.value)
            && (body.price.None? ==> e'.price == e.price) && (body.price.Some? ==> e'.price == body.price.value >= 0)
            && (body.totalSeats.None? ==> e'.totalSeats == e.totalSeats && e'.remainingSeats == e.remainingSeats)
  {
  }

  /**
    A resize keeps the sold seats fixed and is refused below them: the new
    total is at least the sold seats, and remaining is the new total minus
    them, so an event within its bounds stays within them.
   */
  lemma ResizeKeepsUsedSeats(t: Tables, id: int, body: EventPatch, organizerId: nat)
    requires UpdateEvent(t, id, body, organizerId).Ok? && body.totalSeats.Some?
    ensures var e, e' := At(t.events, id), At(UpdateEvent(t, id, body, organizerId).value.events, id);
            && e'.totalSeats == body.totalSeats.value >= 1
            && e'.totalSeats >= Used(e)
            && Used(e') == Used(e)
            && (0 <= e.remainingSeats <= e.totalSeats ==> 0 <= e'.remainingSeats <= e'.totalSeats)
  {
  }

  /** A total below the sold seats is refused, naming the sold seats, and nothing is written. */
  lemma ResizeBelowUsedRefused(t: Tables, id: int, body: EventPatch, organizerId: nat)
    requires Exists(t.events, id) && At(t.events, id).organizerId == organizerId
    requires !(body.startAt.Some? && body.endAt.Some? && body.endAt.value <= body.startAt.value)
    requires body.price.Some? ==> body.price.value >= 0
    requires body.totalSeats.Some? && 1 <= body.totalSeats.value < Used(At(t.events, id))
    ensures UpdateEvent(t, id, body, organizerId) == Err(TotalSeatsBelowUsed(Used(At(t.events, id))))
  {
  }

  /**
    Only a body with both dates is checked for their order: moving only the
    end before the stored start is accepted.
   */
  lemma UpdateOneDateUnchecked(t: Tables, id: int, newEnd: int, organizerId: nat)
    requires Exists(t.events, id) && At(t.events, id).organizerId == organizerId
    requires newEnd <= At(t.events, id).startAt
    ensures var body := EventPatch(None, None, None, None, None, None, None, Some(newEnd), None, None);
            var r := UpdateEvent(t, id, body, organizerId);
            r.Ok? && At(r.value.events, id).endAt <= At(r.value.events, id).startAt
  {
  }

  /** An update keeps the database valid and, for its own event, the seat bounds. */
  lemma UpdatePreservesInvariants(t: Tables, id: int, body: EventPatch, organizerId: nat)
    requires UpdateEvent(t, id, body, organizerId).Ok?
    ensures Valid(t) ==> Valid(UpdateEvent(t, id, body, organizerId).value)
    ensures SeatBounds(t) ==> SeatBounds(UpdateEvent(t, id, body, organizerId).value)
  {
    var t' := UpdateEvent(t, id, body, organizerId).value;
    assert KeepsRowsValid(t, t');
    forall x | x in t.transactions
      ensures RowValid(t, x) ==> RowValid(t', x)
    {
      if RowValid(t, x) {
        RowStaysValid(t, t', x);
      }
    }
    forall i | 0 <= i < |t'.events|
      ensures (PricesValid(t) ==> t'.events[i].price >= 0)
      ensures (SeatBounds(t) ==> 0 <= t'.events[i].remainingSeats <= t'.events[i].totalSeats)
    {
      assert t'.events[i] == At(t'.events, i + 1) && t.events[i] == At(t.events, i + 1);
    }
  }

  // ----- createVoucher -----

  /** The fields of a `createVoucher` body; `maxUses` may be absent (no limit). */
  datatype VoucherBody = VoucherBody(code: string, discountAmount: int, startAt: int, endAt: int, maxUses: Option<int>)

  /** The unique key on `Voucher.code`. */
  predicate VoucherCodesUnique(vs: seq<Voucher>) {
    forall i, j :: 0 <= i < j < |vs| ==> vs[i].code != vs[j].code
  }

  /** Whether some voucher already has `code`. */
  predicate CodeTaken(vs: seq<Voucher>, code: string) {
    exists i :: 0 <= i < |vs| && vs[i].code == code
  }

  /** `createVoucher`: 404, 403, the date and amount checks, then the insert, which the unique code can refuse. */
  function CreateVoucher(t: Tables, eventId: int, body: VoucherBody, organizerId: nat): (r: Result<Tables>)
    ensures !Exists(t.events, eventId) <==> r == Err(EventNotFound)
    ensures Exists(t.events, eventId) && At(t.events, eventId).organizerId != organizerId <==> r == Err(Forbidden)
    ensures r.Ok? <==> && Exists(t.events, eventId) && At(t.events, eventId).organizerId == organizerId
                       && body.startAt < body.endAt && body.discountAmount >= 1 && !CodeTaken(t.vouchers, body.code)
    ensures Exists(t.events, eventId) && At(t.events, eventId).organizerId == organizerId ==>
              && (r == Err(EndNotAfterStart) <==> body.endAt <= body.startAt)
              && (r == Err(DiscountTooSmall) <==> body.startAt < body.endAt && body.discountAmount < 1)
              && (r == Err(UniqueViolation) <==>
                    body.startAt < body.endAt && body.discountAmount >= 1 && CodeTaken(t.vouchers, body.code))
    ensures r.Ok? ==> r.value == t.(vouchers := t.vouchers + [
                         Voucher(eventId, body.code, body.discountAmount, body.startAt, body.endAt, body.maxUses, 0)])
  {
    if !Exists(t.events, eventId) then Err(EventNotFound)
    else if At(t.events, eventId).organizerId != organizerId then Err(Forbidden)
    else if body.endAt <= body.startAt then Err(EndNotAfterStart)
    else if body.discountAmount < 1 then Err(DiscountTooSmall)
    else if CodeTaken(t.vouchers, body.code) then Err(UniqueViolation)
    else Ok(t.(vouchers := t.vouchers + [Voucher(eventId, body.code, body.discountAmount, body.startAt, body.endAt, body.maxUses, 0)]))
  }

  /** `createVoucher`: the new voucher's id. */
  method NewVoucher(db: Store, eventId: int, body: VoucherBody, organizerId: nat) returns (r: Result<nat>)
    modifies db
    ensures var o := CreateVoucher(old(db.Snapshot()), eventId, body, organizerId);
            && (o.Err? ==> r == Err(o.error) && db.Snapshot() == old(db.Snapshot()))
            && (o.Ok? ==> r == Ok(|db.vouchers|) && db.Snapshot() == o.value)
  {
    if !Exists(db.events, eventId) {
      return Err(EventNotFound);
    }
    if At(db.events, eventId).organizerId != organizerId {
      return Err(Forbidden);
    }
    if body.endAt <= body.startAt {
      return Err(EndNotAfterStart);
    }
    var discountAmount := body.discountAmount;
    if discountAmount < 1 {
      return Err(DiscountTooSmall);
    }
    if CodeTaken(db.vouchers, body.code) {
      return Err(UniqueViolation);
    }
    db.vouchers := db.vouchers + [Voucher(eventId, body.code, discountAmount, body.startAt, body.endAt, body.maxUses, 0)];
    r := Ok(|db.vouchers|);
  }

  /**
    A new voucher is unused, for the caller's event, active exactly on its
    window, and codes stay unique.
   */
  lemma CreatedVoucherShape(t: Tables, eventId: int, body: VoucherBody, organizerId: nat, now: int)
    requires CreateVoucher(t, eventId, body, organizerId).Ok?
    ensures var t' := CreateVoucher(t, eventId, body, organizerId).value;
            var v := At(t'.vouchers, |t.vouchers| + 1);
            && v.usedCount == 0 && v.eventId == eventId && v.code == body.code
            && At(t'.events, eventId).organizerId == organizerId
            && (body.maxUses.None? ==> !TransactionCreation.VoucherExhausted(v))
            && (TransactionCreation.VoucherActive(v, now) <==> body.startAt <= now <= body.endAt)
            && (VoucherCodesUnique(t.vouchers) ==> VoucherCodesUnique(t'.vouchers))
  {
  }

  /** Creating a voucher keeps the database valid when `maxUses`, if given, is at least 1, as the body's validation demands. */
  lemma CreateVoucherPreservesValid(t: Tables, eventId: int, body: VoucherBody, organizerId: nat)
    requires body.maxUses.Some? ==> body.maxUses.value >= 1
    requires CreateVoucher(t, eventId, body, organizerId).Ok?
    ensures Valid(t) ==> Valid(CreateVoucher(t, eventId, body, organizerId).value)
  {
    var t' := CreateVoucher(t, eventId, body, organizerId).value;
    assert KeepsRowsValid(t, t');
    forall x | x in t.transactions
      ensures RowValid(t, x) ==> RowValid(t', x)
    {
      if RowValid(t, x) {
        RowStaysValid(t, t', x);
      }
    }
  }

  // ----- detail: the active vouchers -----

  /** The vouchers of event `id` whose window holds `now`, in id order; 404 for a missing event. */
  function ActiveVoucherIds(t: Tables, id: int, now: int): (r: Result<seq<nat>>)
    ensures !Exists(t.events, id) <==> r.Err?
    ensures r.Err? ==> r.error == EventNotFound
  {
    if !Exists(t.events, id) then Err(EventNotFound)
    else Ok(Where(t.vouchers, (v: Voucher) => v.eventId == id && v.startAt <= now <= v.endAt))
  }

  /**
    `detail` lists a voucher exactly when it belongs to the event and `create`
    would find it active at the same instant, in id order.
   */
  lemma ActiveVouchersAreRedeemableWindow(t: Tables, id: int, now: int, k: int)
    requires Exists(t.events, id)
    ensures var ids := ActiveVoucherIds(t, id, now).value;
            && (k in ids <==> Exists(t.vouchers, k) && At(t.vouchers, k).eventId == id
                              && TransactionCreation.VoucherActive(At(t.vouchers, k), now))
            && (forall i, j :: 0 <= i < j < |ids| ==> ids[i] < ids[j])
  {
    var ids := ActiveVoucherIds(t, id, now).value;
    if k in ids {
      var i :| 0 <= i < |ids| && ids[i] == k;
      assert Exists(t.vouchers, ids[i]);
    }
  }
}
