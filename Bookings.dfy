/** The booking orchestrator: validates a request against the catalog, the overlap
    query and the coach schedule, prices it, and appends the booking with its
    equipment and coach lines, or fails with a typed error and changes nothing. */
module Bookings {
  import opened Wrappers
  import opened Records
  import opened Conflicts
  import Pricing

  datatype ErrorCode = NotFound | CourtUnavailable | EquipmentUnavailable | CoachUnavailable

  datatype EquipmentItem = EquipmentItem(equipmentTypeId: int, quantity: int)

  /** start and end are milliseconds since the epoch; startDay and startHour are the
      local day-of-week (0 = Sunday) and hour of start. */
  datatype BookingRequest = BookingRequest(
    userName: string,
    userEmail: string,
    start: int,
    end: int,
    startDay: int,
    startHour: int,
    courtId: int,
    equipment: seq<EquipmentItem>,
    coachId: Option<int>)

  datatype BookingCreated = BookingCreated(bookingId: int, totalPrice: real, priceBreakdown: Pricing.PriceBreakdown)

  /** Duration in (fractional) hours. */
  function Hours(req: BookingRequest): real
  {
    (req.end - req.start) as real / 3600000.0
  }

  /** The overlap query for the request's window. */
  function Window(t: Tables, req: BookingRequest): seq<OverlapRow>
  {
    OverlappingRows(t.bookings, t.equipmentLines, t.coachLines, req.start, req.end)
  }

  predicate EquipmentKnown(types: seq<EquipmentType>, items: seq<EquipmentItem>)
  {
    forall item :: item in items ==> FindEquipmentType(types, item.equipmentTypeId).Some?
  }

  function TotalQuantity(types: seq<EquipmentType>, id: int): int
  {
    match FindEquipmentType(types, id)
    case Some(e) => e.totalQuantity
    case None => 0
  }

  function UnitPrice(types: seq<EquipmentType>, id: int): real
  {
    match FindEquipmentType(types, id)
    case Some(e) => e.pricePerUnit
    case None => 0.0
  }

  /** The item does not ask for more than total minus what the overlapping rows use. */
  predicate ItemFits(types: seq<EquipmentType>, rows: seq<OverlapRow>, item: EquipmentItem)
  {
    item.quantity <= TotalQuantity(types, item.equipmentTypeId) - Usage(rows, item.equipmentTypeId)
  }

  /** The checks, in the order the orchestrator runs them; the first failure wins. */
  function Check(c: Catalog, t: Tables, req: BookingRequest): Option<ErrorCode>
  {
    if ActiveCourt(c.courts, req.courtId).None? then Some(NotFound)
    else if !EquipmentKnown(c.equipmentTypes, req.equipment) then Some(NotFound)
    else if req.coachId.Some? && ActiveCoach(c.coaches, req.coachId.value).None? then Some(NotFound)
    else
      var rows := Window(t, req);
      if CourtBusy(rows, req.courtId) then Some(CourtUnavailable)
      else if exists item :: item in req.equipment && !ItemFits(c.equipmentTypes, rows, item) then Some(EquipmentUnavailable)
      else if req.coachId.Some? && CoachBusy(rows, req.coachId.value) then Some(CoachUnavailable)
      else if req.coachId.Some? && !CoachWorking(c.slots, req.coachId.value, req.startDay, req.startHour) then Some(CoachUnavailable)
      else None
  }

  function Selections(types: seq<EquipmentType>, items: seq<EquipmentItem>): seq<Pricing.EquipmentSelection>
  {
    seq(|items|, i requires 0 <= i < |items| =>
      Pricing.EquipmentSelection(items[i].equipmentTypeId, items[i].quantity, UnitPrice(types, items[i].equipmentTypeId)))
  }

  /** The requested coach's hourly rate, if a coach is requested and found. */
  function CoachRate(c: Catalog, req: BookingRequest): Option<real>
  {
    if req.coachId.None? then None
    else match ActiveCoach(c.coaches, req.coachId.value)
      case Some(coach) => Some(coach.hourlyRate)
      case None => None
  }

  /** The price of a request whose court exists. */
  function Quote(c: Catalog, req: BookingRequest): Pricing.PriceBreakdown
    requires ActiveCourt(c.courts, req.courtId).Some?
  {
    var court := ActiveCourt(c.courts, req.courtId).value;
    Pricing.Price(Hours(req), req.startDay, req.startHour,
                  Pricing.CourtRate(court.baseHourlyRate, court.isIndoor),
                  Selections(c.equipmentTypes, req.equipment), CoachRate(c, req), c.rules)
  }

  /** One equipment line per requested item, with its quantity and unit price. */
  function NewEquipmentLines(bookingId: int, types: seq<EquipmentType>, items: seq<EquipmentItem>): seq<EquipmentLine>
  {
    seq(|items|, i requires 0 <= i < |items| =>
      EquipmentLine(bookingId, items[i].equipmentTypeId, items[i].quantity, UnitPrice(types, items[i].equipmentTypeId)))
  }

  /** The whole transaction: the outcome and the tables afterwards. */
  function Book(c: Catalog, t: Tables, req: BookingRequest): (Result<BookingCreated, ErrorCode>, Tables)
  {
    match Check(c, t, req)
    case Some(e) => (Failure(e), t)
    case None =>
      var id := t.nextBookingId;
      var p := Quote(c, req);
      (Success(BookingCreated(id, p.total, p)),
       Tables(
         t.bookings + [Booking(id, req.userName, req.userEmail, req.start, req.end, req.courtId, p.total, Confirmed)],
         t.equipmentLines + NewEquipmentLines(id, c.equipmentTypes, req.equipment),
         t.coachLines + (if req.coachId.Some? then [CoachLine(id, req.coachId.value, p.baseCoach)] else []),
         id + 1))
  }

  /** What the id sequence guarantees: booking ids ascend and every id in use, in
      bookings or in line items, is below the next value. */
  ghost predicate TablesValid(t: Tables)
  {
    && (forall i, j :: 0 <= i < j < |t.bookings| ==> t.bookings[i].id < t.bookings[j].id)
    && (forall b :: b in t.bookings ==> b.id < t.nextBookingId)
    && (forall l :: l in t.equipmentLines ==> l.bookingId < t.nextBookingId)
    && (forall l :: l in t.coachLines ==> l.bookingId < t.nextBookingId)
  }

  lemma BookFails(c: Catalog, t: Tables, req: BookingRequest, e: ErrorCode)
    requires Check(c, t, req) == Some(e)
    ensures Book(c, t, req) == (Failure(e), t)
  {
  }

  lemma BookSucceeds(c: Catalog, t: Tables, req: BookingRequest)
    requires Check(c, t, req).None?
    ensures ActiveCourt(c.courts, req.courtId).Some?
    ensures Book(c, t, req) ==
      (Success(BookingCreated(t.nextBookingId, Quote(c, req).total, Quote(c, req))),
       Tables(
         t.bookings + [Booking(t.nextBookingId, req.userName, req.userEmail, req.start, req.end, req.courtId, Quote(c, req).total, Confirmed)],
         t.equipmentLines + NewEquipmentLines(t.nextBookingId, c.equipmentTypes, req.equipment),
         t.coachLines + (if req.coachId.Some? then [CoachLine(t.nextBookingId, req.coachId.value, Quote(c, req).baseCoach)] else []),
         t.nextBookingId + 1))
  {
  }

  /** A booking takes the next id, so ids keep ascending and stay below the next value. */
  lemma BookKeepsTablesValid(c: Catalog, t: Tables, req: BookingRequest)
    requires TablesValid(t)
    ensures TablesValid(Book(c, t, req).1)
  {
    if Check(c, t, req).None? {
      BookSucceeds(c, t, req);
      var t' := Book(c, t, req).1;
      forall l | l in t'.equipmentLines
        ensures l.bookingId < t'.nextBookingId
      {
        if l !in t.equipmentLines {
          var k :| 0 <= k < |t'.equipmentLines| && t'.equipmentLines[k] == l;
        }
      }
    }
  }

  /** The equipment rows for the requested ids, keyed by id. */
  method IndexEquipment(types: seq<EquipmentType>, items: seq<EquipmentItem>) returns (equipmentById: map<int, EquipmentType>)
    requires UniqueTypeIds(types)
    ensures forall id :: id in equipmentById ==> Some(equipmentById[id]) == FindEquipmentType(types, id)
    ensures forall item :: item in items ==>
              (item.equipmentTypeId in equipmentById <==> FindEquipmentType(types, item.equipmentTypeId).Some?)
  {
    var equipmentIds := seq(|items|, i requires 0 <= i < |items| => items[i].equipmentTypeId);
    equipmentById := map[];
    for i := 0 to |types|
      invariant forall id :: id in equipmentById ==> Some(equipmentById[id]) == FindEquipmentType(types, id)
      invariant forall id :: id in equipmentById <==> id in equipmentIds && exists k :: 0 <= k < i && types[k].id == id
    {
      if types[i].id in equipmentIds {
        FindUniqueType(types, i);
        equipmentById := equipmentById[types[i].id := types[i]];
      }
    }
    forall item | item in items
      ensures item.equipmentTypeId in equipmentById <==> FindEquipmentType(types, item.equipmentTypeId).Some?
    {
      var k :| 0 <= k < |items| && items[k] == item;
      assert equipmentIds[k] == item.equipmentTypeId;
      if FindEquipmentType(types, item.equipmentTypeId).Some? {
        var e := FindEquipmentType(types, item.equipmentTypeId).value;
        var j :| 0 <= j < |types| && types[j] == e;
      }
    }
  }

  /** Whether every requested type was loaded. */
  method AllLoaded(items: seq<EquipmentItem>, equipmentById: map<int, EquipmentType>) returns (ok: bool)
    ensures ok <==> forall item :: item in items ==> item.equipmentTypeId in equipmentById
  {
    for i := 0 to |items|
      invariant forall k :: 0 <= k < i ==> items[k].equipmentTypeId in equipmentById
    {
      if items[i].equipmentTypeId !in equipmentById {
        assert items[i] in items;
        return false;
      }
    }
    return true;
  }

  /** Whether every item fits in what the overlapping rows leave free. */
  method AllFit(types: seq<EquipmentType>, items: seq<EquipmentItem>, equipmentById: map<int, EquipmentType>,
                rows: seq<OverlapRow>, equipmentUsage: map<int, int>) returns (ok: bool)
    requires forall id :: id in equipmentById ==> Some(equipmentById[id]) == FindEquipmentType(types, id)
    requires forall item :: item in items ==> item.equipmentTypeId in equipmentById
    requires forall id :: UsageOf(equipmentUsage, id) == Usage(rows, id)
    ensures ok <==> forall item :: item in items ==> ItemFits(types, rows, item)
  {
    for i := 0 to |items|
      invariant forall k :: 0 <= k < i ==> ItemFits(types, rows, items[k])
    {
      var item := items[i];
      var eqRow := equipmentById[item.equipmentTypeId];
      var alreadyUsed := UsageOf(equipmentUsage, item.equipmentTypeId);
      var remaining := eqRow.totalQuantity - alreadyUsed;
      if item.quantity > remaining {
        assert item in items && !ItemFits(types, rows, item);
        return false;
      }
    }
    return true;
  }

  class BookingStore {
    const catalog: Catalog
    var bookings: seq<Booking>
    var equipmentLines: seq<EquipmentLine>
    var coachLines: seq<CoachLine>
    var nextBookingId: int

    function Contents(): Tables
      reads this
    {
      Tables(bookings, equipmentLines, coachLines, nextBookingId)
    }

    /** Primary keys of the equipment types and the id sequence of bookings. */
    ghost predicate Valid()
      reads this
    {
      UniqueTypeIds(catalog.equipmentTypes) && TablesValid(Contents())
    }

    constructor (catalog: Catalog, tables: Tables)
      requires UniqueTypeIds(catalog.equipmentTypes) && TablesValid(tables)
      ensures Valid() && this.catalog == catalog && Contents() == tables
    {
      this.catalog := catalog;
      bookings := tables.bookings;
      equipmentLines := tables.equipmentLines;
      coachLines := tables.coachLines;
      nextBookingId := tables.nextBookingId;
    }

    /** Runs the checks in order and reports the first failure, as the source throws it;
        on success also hands back the court, the loaded equipment rows and the coach rate. */
    method CheckRequest(req: BookingRequest) returns (err: Option<ErrorCode>, court: Option<Court>,
                                                       equipmentById: map<int, EquipmentType>, coachRate: Option<real>)
      requires Valid()
      ensures err == Check(catalog, Contents(), req)
      ensures err.None? ==> court == ActiveCourt(catalog.courts, req.courtId) && coachRate == CoachRate(catalog, req)
      ensures err.None? ==> forall id :: id in equipmentById ==> Some(equipmentById[id]) == FindEquipmentType(catalog.equipmentTypes, id)
      ensures err.None? ==> forall item :: item in req.equipment ==> item.equipmentTypeId in equipmentById
    {
      var types := catalog.equipmentTypes;
      coachRate := None;

      // 1) Load court, equipment and coach, and validate that they exist.
      court := ActiveCourt(catalog.courts, req.courtId);
      equipmentById := map[];
      if court.None? {
        return Some(NotFound), court, equipmentById, coachRate;
      }
      equipmentById := IndexEquipment(types, req.equipment);
      var loaded := AllLoaded(req.equipment, equipmentById);
      if !loaded {
        return Some(NotFound), court, equipmentById, coachRate;
      }
      assert EquipmentKnown(types, req.equipment);
      if req.coachId.Some? {
        var coach := ActiveCoach(catalog.coaches, req.coachId.value);
        if coach.None? {
          return Some(NotFound), court, equipmentById, coachRate;
        }
        coachRate := Some(coach.value.hourlyRate);
      }

      // 2) Check overlapping bookings for the same window.
      var overlapping := OverlappingRows(bookings, equipmentLines, coachLines, req.start, req.end);
      assert overlapping == Window(Contents(), req);
      if CourtBusy(overlapping, req.courtId) {
        return Some(CourtUnavailable), court, equipmentById, coachRate;
      }
      var equipmentUsage := CollectEquipmentUsage(overlapping);
      var fits := AllFit(types, req.equipment, equipmentById, overlapping, equipmentUsage);
      if !fits {
        return Some(EquipmentUnavailable), court, equipmentById, coachRate;
      }
      if req.coachId.Some? {
        if CoachBusy(overlapping, req.coachId.value) {
          return Some(CoachUnavailable), court, equipmentById, coachRate;
        }
        if !CoachWorking(catalog.slots, req.coachId.value, req.startDay, req.startHour) {
          return Some(CoachUnavailable), court, equipmentById, coachRate;
        }
      }
      return None, court, equipmentById, coachRate;
    }

    /** Prices a request that passed the checks from the rows the checks loaded. */
    method QuoteRequest(req: BookingRequest, court: Option<Court>, equipmentById: map<int, EquipmentType>, coachRate: Option<real>)
      returns (priceBreakdown: Pricing.PriceBreakdown)
      requires ActiveCourt(catalog.courts, req.courtId).Some? && court == ActiveCourt(catalog.courts, req.courtId)
      requires coachRate == CoachRate(catalog, req)
      requires forall id :: id in equipmentById ==> Some(equipmentById[id]) == FindEquipmentType(catalog.equipmentTypes, id)
      requires forall item :: item in req.equipment ==> item.equipmentTypeId in equipmentById
      ensures priceBreakdown == Quote(catalog, req)
    {
      var equipmentForPricing := seq(|req.equipment|, i requires 0 <= i < |req.equipment| =>
        Pricing.EquipmentSelection(req.equipment[i].equipmentTypeId, req.equipment[i].quantity,
                                   equipmentById[req.equipment[i].equipmentTypeId].pricePerUnit));
      assert equipmentForPricing == Selections(catalog.equipmentTypes, req.equipment);
      priceBreakdown := Pricing.CalculateBookingPrice(
        Hours(req), req.startDay, req.startHour,
        Pricing.CourtRate(court.value.baseHourlyRate, court.value.isIndoor),
        equipmentForPricing, coachRate, catalog.rules);
    }

    /** Runs the checks, returning the first failure with the tables untouched;
        otherwise prices the booking and inserts it with its line items. */
    method CreateBooking(req: BookingRequest) returns (r: Result<BookingCreated, ErrorCode>)
      requires Valid()
      modifies this
      ensures Valid()
      ensures (r, Contents()) == Book(catalog, old(Contents()), req)
    {
      ghost var t := Contents();
      var types := catalog.equipmentTypes;
      var err, court, equipmentById, coachRate := CheckRequest(req);
      if err.Some? {
        BookFails(catalog, t, req, err.value);
        return Failure(err.value);
      }
      BookSucceeds(catalog, t, req);

      // 3) Pricing.
      var priceBreakdown := QuoteRequest(req, court, equipmentById, coachRate);
      var totalPrice := priceBreakdown.total;

      // 4) Insert the booking, its equipment lines and its coach line.
      var bookingId := nextBookingId;
      nextBookingId := nextBookingId + 1;
      bookings := bookings + [Booking(bookingId, req.userName, req.userEmail, req.start, req.end, req.courtId, totalPrice, Confirmed)];
      InsertEquipmentLines(bookingId, req.equipment, equipmentById);
      if req.coachId.Some? {
        coachLines := coachLines + [CoachLine(bookingId, req.coachId.value, priceBreakdown.baseCoach)];
      }
      assert bookings == t.bookings + [Booking(t.nextBookingId, req.userName, req.userEmail, req.start, req.end, req.courtId, Quote(catalog, req).total, Confirmed)];
      assert equipmentLines == t.equipmentLines + NewEquipmentLines(t.nextBookingId, types, req.equipment);
      assert coachLines == t.coachLines + (if req.coachId.Some? then [CoachLine(t.nextBookingId, req.coachId.value, Quote(catalog, req).baseCoach)] else []);
      BookKeepsTablesValid(catalog, t, req);
      return Success(BookingCreated(bookingId, totalPrice, priceBreakdown));
    }

    /** Appends one line per item, priced at the unit price of its type. */
    method InsertEquipmentLines(bookingId: int, items: seq<EquipmentItem>, equipmentById: map<int, EquipmentType>)
      requires forall id :: id in equipmentById ==> Some(equipmentById[id]) == FindEquipmentType(catalog.equipmentTypes, id)
      requires forall item :: item in items ==> item.equipmentTypeId in equipmentById
      modifies this
      ensures equipmentLines == old(equipmentLines) + NewEquipmentLines(bookingId, catalog.equipmentTypes, items)
      ensures bookings == old(bookings) && coachLines == old(coachLines) && nextBookingId == old(nextBookingId)
    {
      for i := 0 to |items|
        invariant bookings == old(bookings) && coachLines == old(coachLines) && nextBookingId == old(nextBookingId)
        invariant equipmentLines == old(equipmentLines) + NewEquipmentLines(bookingId, catalog.equipmentTypes, items[..i])
      {
        var item := items[i];
        assert item in items;
        var eqRow := equipmentById[item.equipmentTypeId];
        var line := EquipmentLine(bookingId, item.equipmentTypeId, item.quantity, eqRow.pricePerUnit);
        equipmentLines := equipmentLines + [line];
        assert NewEquipmentLines(bookingId, catalog.equipmentTypes, items[..i + 1])
            == NewEquipmentLines(bookingId, catalog.equipmentTypes, items[..i]) + [line];
      }
      assert items[..|items|] == items;
    }
  }

  // ---------------------------------------------------------------------------
  // The checks, stated over the stored bookings and line items.

  /** The court, every equipment type and the coach (if requested) exist. */
  predicate ResourcesExist(c: Catalog, req: BookingRequest)
  {
    && ActiveCourt(c.courts, req.courtId).Some?
    && EquipmentKnown(c.equipmentTypes, req.equipment)
    && (req.coachId.Some? ==> ActiveCoach(c.coaches, req.coachId.value).Some?)
  }

  /** A CONFIRMED booking of the court overlaps [start, end). */
  predicate CourtTaken(t: Tables, courtId: int, start: int, end: int)
  {
    exists b :: b in t.bookings && Overlaps(b, start, end) && b.courtId == courtId
  }

  /** A CONFIRMED booking overlapping [start, end) has a coach line for the coach. */
  predicate CoachTaken(t: Tables, coachId: int, start: int, end: int)
  {
    exists b, l :: b in t.bookings && Overlaps(b, start, end) && l in t.coachLines && l.bookingId == b.id && l.coachId == coachId
  }

  predicate AllItemsFit(c: Catalog, t: Tables, req: BookingRequest)
  {
    forall item :: item in req.equipment ==> ItemFits(c.equipmentTypes, Window(t, req), item)
  }

  lemma NotFoundIff(c: Catalog, t: Tables, req: BookingRequest)
    ensures Book(c, t, req).0 == Failure(NotFound) <==> !ResourcesExist(c, req)
  {
  }

  lemma CourtUnavailableIff(c: Catalog, t: Tables, req: BookingRequest)
    ensures Book(c, t, req).0 == Failure(CourtUnavailable)
            <==> ResourcesExist(c, req) && CourtTaken(t, req.courtId, req.start, req.end)
  {
    CourtBusyIff(t.bookings, t.equipmentLines, t.coachLines, req.start, req.end, req.courtId);
  }

  lemma EquipmentUnavailableIff(c: Catalog, t: Tables, req: BookingRequest)
    ensures Book(c, t, req).0 == Failure(EquipmentUnavailable)
            <==> && ResourcesExist(c, req)
                 && !CourtTaken(t, req.courtId, req.start, req.end)
                 && exists item :: item in req.equipment
                      && item.quantity > TotalQuantity(c.equipmentTypes, item.equipmentTypeId) - Usage(Window(t, req), item.equipmentTypeId)
  {
    CourtBusyIff(t.bookings, t.equipmentLines, t.coachLines, req.start, req.end, req.courtId);
  }

  lemma CoachUnavailableIff(c: Catalog, t: Tables, req: BookingRequest)
    ensures Book(c, t, req).0 == Failure(CoachUnavailable)
            <==> && ResourcesExist(c, req)
                 && !CourtTaken(t, req.courtId, req.start, req.end)
                 && AllItemsFit(c, t, req)
                 && req.coachId.Some?
                 && (CoachTaken(t, req.coachId.value, req.start, req.end)
                     || !CoachWorking(c.slots, req.coachId.value, req.startDay, req.startHour))
  {
    CourtBusyIff(t.bookings, t.equipmentLines, t.coachLines, req.start, req.end, req.courtId);
    if req.coachId.Some? {
      CoachBusyIff(t.bookings, t.equipmentLines, t.coachLines, req.start, req.end, req.coachId.value);
    }
  }

  lemma SuccessIff(c: Catalog, t: Tables, req: BookingRequest)
    ensures Book(c, t, req).0.Success?
            <==> && ResourcesExist(c, req)
                 && !CourtTaken(t, req.courtId, req.start, req.end)
                 && AllItemsFit(c, t, req)
                 && (req.coachId.Some? ==>
                       && !CoachTaken(t, req.coachId.value, req.start, req.end)
                       && CoachWorking(c.slots, req.coachId.value, req.startDay, req.startHour))
  {
    CourtBusyIff(t.bookings, t.equipmentLines, t.coachLines, req.start, req.end, req.courtId);
    if req.coachId.Some? {
      CoachBusyIff(t.bookings, t.equipmentLines, t.coachLines, req.start, req.end, req.coachId.value);
    }
  }

  /** A failed request leaves every table as it was; a successful one adds exactly one
      CONFIRMED booking priced at the quoted total, one line per item and a coach line
      iff a coach was requested. */
  lemma {:induction false} BookEffect(c: Catalog, t: Tables, req: BookingRequest)
    ensures Book(c, t, req).0.Failure? ==> Book(c, t, req).1 == t
    ensures Book(c, t, req).0.Success? ==>
              var r := Book(c, t, req).0.value;
              var t' := Book(c, t, req).1;
              && r.bookingId == t.nextBookingId && r.totalPrice == r.priceBreakdown.total
              && t'.bookings == t.bookings + [Booking(r.bookingId, req.userName, req.userEmail, req.start, req.end, req.courtId, r.totalPrice, Confirmed)]
              && |t'.equipmentLines| == |t.equipmentLines| + |req.equipment|
              && t'.equipmentLines[..|t.equipmentLines|] == t.equipmentLines
              && (forall k :: 0 <= k < |req.equipment| ==>
                    t'.equipmentLines[|t.equipmentLines| + k]
                    == EquipmentLine(r.bookingId, req.equipment[k].equipmentTypeId, req.equipment[k].quantity,
                                     UnitPrice(c.equipmentTypes, req.equipment[k].equipmentTypeId)))
              && t'.coachLines == t.coachLines + (if req.coachId.Some? then [CoachLine(r.bookingId, req.coachId.value, r.priceBreakdown.baseCoach)] else [])
              && t'.nextBookingId == t.nextBookingId + 1
  {
    if Check(c, t, req).None? {
      BookSucceeds(c, t, req);
      var t' := Book(c, t, req).1;
      var added := NewEquipmentLines(t.nextBookingId, c.equipmentTypes, req.equipment);
      assert t'.equipmentLines == t.equipmentLines + added;
      assert t'.equipmentLines[..|t.equipmentLines|] == t.equipmentLines;
      forall k | 0 <= k < |req.equipment|
        ensures t'.equipmentLines[|t.equipmentLines| + k] == added[k]
      {
      }
    }
  }

  // ---------------------------------------------------------------------------
  // Invariants of the stored bookings that a successful booking preserves.

  /** Two CONFIRMED bookings whose half-open intervals intersect. */
  predicate Clash(a: Booking, b: Booking)
  {
    a.status == Confirmed && b.status == Confirmed && a.startTime < b.endTime && b.startTime < a.endTime
  }

  /** No two clashing bookings share a court. */
  ghost predicate CourtsExclusive(t: Tables)
  {
    forall i, j :: 0 <= i < |t.bookings| && 0 <= j < |t.bookings| && i != j && Clash(t.bookings[i], t.bookings[j])
      ==> t.bookings[i].courtId != t.bookings[j].courtId
  }

  /** No two clashing bookings have coach lines for the same coach. */
  ghost predicate CoachesExclusive(t: Tables)
  {
    forall i, j, l1, l2 ::
      && 0 <= i < |t.bookings| && 0 <= j < |t.bookings| && i != j && Clash(t.bookings[i], t.bookings[j])
      && l1 in t.coachLines && l2 in t.coachLines
      && l1.bookingId == t.bookings[i].id && l2.bookingId == t.bookings[j].id
      ==> l1.coachId != l2.coachId
  }

  lemma {:induction false} CourtsStayExclusive(c: Catalog, t: Tables, req: BookingRequest)
    requires CourtsExclusive(t)
    ensures CourtsExclusive(Book(c, t, req).1)
  {
    if Check(c, t, req).None? {
      BookSucceeds(c, t, req);
      var bs := t.bookings;
      var bs' := Book(c, t, req).1.bookings;
      var nb := bs'[|bs|];
      assert !CourtBusy(Window(t, req), req.courtId);
      CourtBusyIff(bs, t.equipmentLines, t.coachLines, req.start, req.end, req.courtId);
      forall i, j | 0 <= i < |bs'| && 0 <= j < |bs'| && i != j && Clash(bs'[i], bs'[j])
        ensures bs'[i].courtId != bs'[j].courtId
      {
        if i < |bs| && j < |bs| {
          assert bs'[i] == bs[i] && bs'[j] == bs[j];
        } else if i == |bs| {
          assert bs'[j] == bs[j] && bs[j] in bs && Overlaps(bs[j], req.start, req.end);
        } else {
          assert bs'[i] == bs[i] && bs[i] in bs && Overlaps(bs[i], req.start, req.end);
        }
      }
    }
  }

  lemma {:induction false} CoachesStayExclusive(c: Catalog, t: Tables, req: BookingRequest)
    requires TablesValid(t) && CoachesExclusive(t)
    ensures CoachesExclusive(Book(c, t, req).1)
  {
    if Check(c, t, req).None? {
      BookSucceeds(c, t, req);
      var bs := t.bookings;
      var t' := Book(c, t, req).1;
      var bs' := t'.bookings;
      forall i, j, l1, l2 |
        && 0 <= i < |bs'| && 0 <= j < |bs'| && i != j && Clash(bs'[i], bs'[j])
        && l1 in t'.coachLines && l2 in t'.coachLines
        && l1.bookingId == bs'[i].id && l2.bookingId == bs'[j].id
        ensures l1.coachId != l2.coachId
      {
        CoachPairDistinct(c, t, req, i, j, l1, l2);
      }
    }
  }

  /** One pair of clashing bookings after a successful call: their coach lines name different coaches. */
  lemma CoachPairDistinct(c: Catalog, t: Tables, req: BookingRequest, i: int, j: int, l1: CoachLine, l2: CoachLine)
    requires TablesValid(t) && CoachesExclusive(t) && Check(c, t, req).None?
    requires 0 <= i < |Book(c, t, req).1.bookings| && 0 <= j < |Book(c, t, req).1.bookings| && i != j
    requires Clash(Book(c, t, req).1.bookings[i], Book(c, t, req).1.bookings[j])
    requires l1 in Book(c, t, req).1.coachLines && l1.bookingId == Book(c, t, req).1.bookings[i].id
    requires l2 in Book(c, t, req).1.coachLines && l2.bookingId == Book(c, t, req).1.bookings[j].id
    ensures l1.coachId != l2.coachId
  {
    BookSucceeds(c, t, req);
    var bs := t.bookings;
    var bs' := Book(c, t, req).1.bookings;
    if i < |bs| && j < |bs| {
      assert bs'[i] == bs[i] && bs[i] in bs && bs'[j] == bs[j] && bs[j] in bs;
      assert l1 in t.coachLines && l2 in t.coachLines;
    } else if i == |bs| {
      OneSideNew(c, t, req, j, l1, l2);
    } else {
      OneSideNew(c, t, req, i, l2, l1);
    }
  }

  /** The new booking's coach line and an old clashing booking's coach line name different coaches. */
  lemma OneSideNew(c: Catalog, t: Tables, req: BookingRequest, j: int, lNew: CoachLine, lOld: CoachLine)
    requires TablesValid(t) && Check(c, t, req).None?
    requires 0 <= j < |t.bookings|
    requires Clash(Book(c, t, req).1.bookings[|t.bookings|], t.bookings[j])
    requires lNew in Book(c, t, req).1.coachLines && lNew.bookingId == t.nextBookingId
    requires lOld in Book(c, t, req).1.coachLines && lOld.bookingId == t.bookings[j].id
    ensures lNew.coachId != lOld.coachId
  {
    BookSucceeds(c, t, req);
    var b := t.bookings[j];
    assert b in t.bookings;
    assert lOld in t.coachLines;
    assert lNew !in t.coachLines;
    assert req.coachId.Some? && lNew.coachId == req.coachId.value;
    assert !CoachBusy(Window(t, req), req.coachId.value);
    CoachBusyIff(t.bookings, t.equipmentLines, t.coachLines, req.start, req.end, req.coachId.value);
    assert Overlaps(b, req.start, req.end);
  }

  // ---------------------------------------------------------------------------
  // Equipment capacity, instant by instant.

  /** Units of a type held by the CONFIRMED bookings that cover instant x, as the
      overlap query counts them for the window [x, x + 1). */
  function UsageAt(t: Tables, x: int, equipmentTypeId: int): int
  {
    Usage(OverlappingRows(t.bookings, t.equipmentLines, t.coachLines, x, x + 1), equipmentTypeId)
  }

  /** At no instant is more of a type booked than its total quantity. */
  ghost predicate WithinCapacity(types: seq<EquipmentType>, t: Tables)
  {
    forall x, e :: e in types ==> UsageAt(t, x, e.id) <= e.totalQuantity
  }

  ghost predicate NonNegativeLines(t: Tables)
  {
    forall l :: l in t.equipmentLines ==> l.quantity >= 0
  }

  /** No equipment type is named twice and no quantity is negative. */
  predicate SimpleItems(items: seq<EquipmentItem>)
  {
    && (forall i, j :: 0 <= i < j < |items| ==> items[i].equipmentTypeId != items[j].equipmentTypeId)
    && (forall item :: item in items ==> item.quantity >= 0)
  }

  /** Units of a type asked for by the items. */
  function ItemUsage(items: seq<EquipmentItem>, equipmentTypeId: int): int
  {
    if items == [] then 0
    else (if items[0].equipmentTypeId == equipmentTypeId then items[0].quantity else 0) + ItemUsage(items[1..], equipmentTypeId)
  }

  lemma {:induction false} NewLinesUsage(bookingId: int, types: seq<EquipmentType>, items: seq<EquipmentItem>, equipmentTypeId: int)
    ensures LineUsage(NewEquipmentLines(bookingId, types, items), equipmentTypeId) == ItemUsage(items, equipmentTypeId)
  {
    if items != [] {
      var lines := NewEquipmentLines(bookingId, types, items);
      assert lines[1..] == NewEquipmentLines(bookingId, types, items[1..]);
      NewLinesUsage(bookingId, types, items[1..], equipmentTypeId);
    }
  }

  lemma {:induction false} ItemUsageAbsent(items: seq<EquipmentItem>, equipmentTypeId: int)
    requires forall k :: 0 <= k < |items| ==> items[k].equipmentTypeId != equipmentTypeId
    ensures ItemUsage(items, equipmentTypeId) == 0
  {
    if items != [] {
      assert items[0].equipmentTypeId != equipmentTypeId;
      ItemUsageAbsent(items[1..], equipmentTypeId);
    }
  }

  lemma {:induction false} ItemUsageDistinct(items: seq<EquipmentItem>, k: int)
    requires SimpleItems(items) && 0 <= k < |items|
    ensures ItemUsage(items, items[k].equipmentTypeId) == items[k].quantity
  {
    if k == 0 {
      ItemUsageAbsent(items[1..], items[0].equipmentTypeId);
    } else {
      assert SimpleItems(items[1..]);
      ItemUsageDistinct(items[1..], k - 1);
    }
  }

  /** After a successful booking, what covers instant x is what covered it before plus,
      when x falls inside the new booking, the units the request asked for. */
  lemma NewUsageAt(c: Catalog, t: Tables, req: BookingRequest, x: int, equipmentTypeId: int)
    requires TablesValid(t) && Check(c, t, req).None?
    ensures UsageAt(Book(c, t, req).1, x, equipmentTypeId)
            == UsageAt(t, x, equipmentTypeId) + (if req.start <= x < req.end then ItemUsage(req.equipment, equipmentTypeId) else 0)
  {
    BookSucceeds(c, t, req);
    var t' := Book(c, t, req).1;
    var id := t.nextBookingId;
    var nb := t'.bookings[|t.bookings|];
    var eq2 := NewEquipmentLines(id, c.equipmentTypes, req.equipment);
    var co2 := t'.coachLines[|t.coachLines|..];
    assert t'.bookings == t.bookings + [nb];
    assert t'.equipmentLines == t.equipmentLines + eq2;
    assert t'.coachLines == t.coachLines + co2;
    UsageWithNewBooking(t.bookings, nb, t.equipmentLines, eq2, t.coachLines, co2, x, x + 1, equipmentTypeId);
    NewLinesUsage(id, c.equipmentTypes, req.equipment, equipmentTypeId);
  }

  /** A successful booking of distinct, non-negative items never takes any equipment
      type past its total quantity at any instant. */
  lemma {:induction false} EquipmentStaysWithinCapacity(c: Catalog, t: Tables, req: BookingRequest)
    requires UniqueTypeIds(c.equipmentTypes) && TablesValid(t) && NonNegativeLines(t)
    requires WithinCapacity(c.equipmentTypes, t)
    requires SimpleItems(req.equipment)
    ensures NonNegativeLines(Book(c, t, req).1) && WithinCapacity(c.equipmentTypes, Book(c, t, req).1)
  {
    if Check(c, t, req).None? {
      var t' := Book(c, t, req).1;
      forall l | l in t'.equipmentLines
        ensures l.quantity >= 0
      {
        NewLineNonNegative(c, t, req, l);
      }
      forall x, e | e in c.equipmentTypes
        ensures UsageAt(t', x, e.id) <= e.totalQuantity
      {
        InstantWithinCapacity(c, t, req, x, e);
      }
    }
  }

  /** Every equipment line after a successful call with non-negative items is non-negative. */
  lemma NewLineNonNegative(c: Catalog, t: Tables, req: BookingRequest, l: EquipmentLine)
    requires NonNegativeLines(t) && Check(c, t, req).None? && SimpleItems(req.equipment)
    requires l in Book(c, t, req).1.equipmentLines
    ensures l.quantity >= 0
  {
    BookSucceeds(c, t, req);
    if l !in t.equipmentLines {
      var eq2 := NewEquipmentLines(t.nextBookingId, c.equipmentTypes, req.equipment);
      assert l in eq2;
      var k :| 0 <= k < |eq2| && eq2[k] == l;
      assert req.equipment[k] in req.equipment;
    }
  }

  /** One equipment type at one instant stays within its total after a successful call. */
  lemma InstantWithinCapacity(c: Catalog, t: Tables, req: BookingRequest, x: int, e: EquipmentType)
    requires UniqueTypeIds(c.equipmentTypes) && TablesValid(t) && NonNegativeLines(t)
    requires WithinCapacity(c.equipmentTypes, t) && SimpleItems(req.equipment)
    requires Check(c, t, req).None? && e in c.equipmentTypes
    ensures UsageAt(Book(c, t, req).1, x, e.id) <= e.totalQuantity
  {
    var types := c.equipmentTypes;
    var items := req.equipment;
    NewUsageAt(c, t, req, x, e.id);
    assert UsageAt(t, x, e.id) <= e.totalQuantity;
    if req.start <= x < req.end {
      if k :| 0 <= k < |items| && items[k].equipmentTypeId == e.id {
        ItemUsageDistinct(items, k);
        assert items[k] in items;
        assert ItemFits(types, Window(t, req), items[k]);
        var n :| 0 <= n < |types| && types[n] == e;
        FindUniqueType(types, n);
        InstantUsageBounded(t.bookings, t.equipmentLines, t.coachLines, req.start, req.end, x, e.id);
      } else {
        ItemUsageAbsent(items, e.id);
      }
    }
  }

  /** Two items of one type are each checked against the same free quantity, so
      together they can exceed it: 3 + 3 units of a type with 5 in total. */
  lemma DuplicateItemsExceedCapacity(e: EquipmentType, c: Catalog, t: Tables, req: BookingRequest)
    requires e == EquipmentType(1, "Racket", 5, 10.0, true)
    requires c == Catalog([Court(1, "A", true, 100.0, true)], [e], [], [], [])
    requires t == Tables([], [], [], 1)
    requires req == BookingRequest("Ann", "ann@example.com", 0, 3600000, 1, 10, 1,
                                   [EquipmentItem(1, 3), EquipmentItem(1, 3)], None)
    ensures WithinCapacity(c.equipmentTypes, t)
    ensures Book(c, t, req).0.Success?
    ensures UsageAt(Book(c, t, req).1, 0, 1) == 6 > e.totalQuantity
  {
    assert Window(t, req) == [];
    assert ActiveCourt(c.courts, 1) == Some(c.courts[0]);
    assert FindEquipmentType(c.equipmentTypes, 1) == Some(e);
    forall item | item in req.equipment
      ensures ItemFits(c.equipmentTypes, [], item)
    {
      assert item == EquipmentItem(1, 3);
    }
    assert Check(c, t, req).None?;
    NewUsageAt(c, t, req, 0, 1);
    assert UsageAt(t, 0, 1) == 0;
    assert req.equipment[1..] == [EquipmentItem(1, 3)];
    assert ItemUsage(req.equipment, 1) == 6;
  }

  // ---------------------------------------------------------------------------
  // Worked examples.

  /** Six units of a type with five in total and nothing booked: EQUIPMENT_UNAVAILABLE. */
  lemma OverRequestExample()
    ensures var c := Catalog([Court(1, "A", true, 400.0, true)], [EquipmentType(1, "Racket", 5, 10.0, true)], [], [], []);
            var req := BookingRequest("Ann", "ann@example.com", 0, 7200000, 1, 10, 1, [EquipmentItem(1, 6)], None);
            Book(c, Tables([], [], [], 1), req).0 == Failure(EquipmentUnavailable)
  {
    var c := Catalog([Court(1, "A", true, 400.0, true)], [EquipmentType(1, "Racket", 5, 10.0, true)], [], [], []);
    var req := BookingRequest("Ann", "ann@example.com", 0, 7200000, 1, 10, 1, [EquipmentItem(1, 6)], None);
    assert Window(Tables([], [], [], 1), req) == [];
    assert req.equipment[0] in req.equipment;
  }

  /** A coach with a slot 9-17 on day 1: a booking starting at 10 passes, one starting
      at 20 gets COACH_UNAVAILABLE, and one from 16 to 19 passes because only the start
      hour is checked. */
  lemma CoachScheduleExample()
    ensures var c := Catalog([Court(1, "A", true, 400.0, true)], [], [Coach(7, "Kim", 300.0, true)], [CoachSlot(7, 1, 9, 17)], []);
            var t := Tables([], [], [], 1);
            && Book(c, t, BookingRequest("Ann", "ann@example.com", 0, 3600000, 1, 10, 1, [], Some(7))).0.Success?
            && Book(c, t, BookingRequest("Ann", "ann@example.com", 0, 3600000, 1, 20, 1, [], Some(7))).0 == Failure(CoachUnavailable)
            && Book(c, t, BookingRequest("Ann", "ann@example.com", 0, 10800000, 1, 16, 1, [], Some(7))).0.Success?
  {
    var slot := CoachSlot(7, 1, 9, 17);
    assert slot in [slot];
  }
}
