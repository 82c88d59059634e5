/** The request checks and normalisation in front of the booking orchestrator, and
    the mapping of its outcome to an HTTP status. */
module BookingsController {
  import opened Wrappers
  import opened Http
  import Bookings

  /** A JSON value where a string is expected. */
  datatype StringField = Str(s: string) | NotString

  /** startTime / endTime: a falsy value, or a truthy one that new Date() turns into
      milliseconds since the epoch or an Invalid Date. */
  datatype TimeField = Falsy | Given(ms: Option<int>)

  /** An element of the equipment array: null (property access throws) or an object
      whose fields have been passed through Number(). */
  datatype ItemValue = NullItem | Item(equipmentTypeId: Numeric, quantity: Numeric)

  /** equipment: undefined/null, another falsy scalar (0, "", false), a truthy
      non-array, or an array. */
  datatype EquipmentField = Absent | FalsyScalar | TruthyNonArray | List(items: seq<ItemValue>)

  /** coachId: undefined/null, or present and passed through Number(). */
  datatype CoachField = NoCoach | CoachGiven(coerced: Numeric)

  datatype BookingBody = BookingBody(
    userName: StringField,
    userEmail: StringField,
    startTime: TimeField,
    endTime: TimeField,
    courtId: JsonNumber,
    equipment: EquipmentField,
    coachId: CoachField)

  datatype NormalItem = NormalItem(equipmentTypeId: Numeric, quantity: Numeric)

  /** What the orchestrator is called with. */
  datatype NormalRequest = NormalRequest(
    userName: string,
    userEmail: string,
    start: int,
    end: int,
    courtId: real,
    equipment: seq<NormalItem>,
    coachId: Option<Numeric>)

  /** What the orchestrator did: created, or failed with one of its codes, or failed
      some other way (no code). */
  datatype ServiceOutcome = Created | Failed(code: Option<Bookings.ErrorCode>)

  predicate NonEmptyString(f: StringField)
  {
    f.Str? && f.s != []
  }

  /** !item.equipmentTypeId || item.quantity <= 0, with NaN comparing false. */
  predicate BadItem(item: NormalItem)
  {
    || item.equipmentTypeId == NaN
    || item.equipmentTypeId == Num(0.0)
    || (item.quantity.Num? && item.quantity.value <= 0.0)
  }

  /** equipment?.map(...) ?? []: throws on a falsy scalar or a null element. */
  function NormaliseEquipment(f: EquipmentField): Option<seq<NormalItem>>
    requires !f.TruthyNonArray?
  {
    match f
    case Absent => Some([])
    case FalsyScalar => None
    case List(items) =>
      if exists k :: 0 <= k < |items| && items[k].NullItem? then None
      else Some(seq(|items|, k requires 0 <= k < |items| && items[k].Item? =>
                      NormalItem(items[k].equipmentTypeId, items[k].quantity)))
  }

  /** The item loop: whether some item is refused. */
  function FirstBadItem(items: seq<NormalItem>): bool
  {
    if items == [] then false
    else if BadItem(items[0]) then true
    else FirstBadItem(items[1..])
  }

  /** The guards in order: the normalised request, or the status of the first that fails. */
  function ValidateBooking(body: BookingBody): (r: Result<NormalRequest, int>)
    ensures r.Failure? ==> r.error == BadRequest || r.error == InternalError
  {
    if !NonEmptyString(body.userName) then Failure(BadRequest)
    else if !NonEmptyString(body.userEmail) then Failure(BadRequest)
    else if body.startTime.Falsy? || body.endTime.Falsy? then Failure(BadRequest)
    else if body.startTime.ms.None? || body.endTime.ms.None? then Failure(BadRequest)
    else if body.startTime.ms.value >= body.endTime.ms.value then Failure(BadRequest)
    else if !body.courtId.Number? || body.courtId.value == 0.0 then Failure(BadRequest)
    else if body.equipment.TruthyNonArray? then Failure(BadRequest)
    else match NormaliseEquipment(body.equipment)
      case None => Failure(InternalError)
      case Some(items) =>
        if FirstBadItem(items) then Failure(BadRequest)
        else Success(NormalRequest(
          body.userName.s, body.userEmail.s,
          body.startTime.ms.value, body.endTime.ms.value,
          body.courtId.value, items,
          if body.coachId.NoCoach? then None else Some(body.coachId.coerced)))
  }

  /** The catch block's if-chain on the error code. */
  function ErrorStatus(code: Option<Bookings.ErrorCode>): (status: int)
    ensures status == BadRequest || status == NotFoundStatus || status == InternalError
  {
    match code
    case Some(CourtUnavailable) => BadRequest
    case Some(EquipmentUnavailable) => BadRequest
    case Some(CoachUnavailable) => BadRequest
    case Some(NotFound) => NotFoundStatus
    case None => InternalError
  }

  /** The status of the whole request, given what the orchestrator would do. */
  function CreateBookingStatus(body: BookingBody, service: ServiceOutcome): (status: int)
    ensures status == CreatedStatus || status == BadRequest || status == NotFoundStatus || status == InternalError
  {
    match ValidateBooking(body)
    case Failure(status) => status
    case Success(_) =>
      match service
      case Created => CreatedStatus
      case Failed(code) => ErrorStatus(code)
  }

  // ---------------------------------------------------------------------------

  /** The item loop refuses exactly when some item has a zero or NaN type id or a
      quantity that is a number <= 0 (a NaN quantity is let through). */
  lemma {:induction false} FirstBadItemIff(items: seq<NormalItem>)
    ensures FirstBadItem(items) <==> exists k :: 0 <= k < |items| && BadItem(items[k])
  {
    if items != [] {
      FirstBadItemIff(items[1..]);
      if exists k :: 0 <= k < |items| && BadItem(items[k]) {
        var k :| 0 <= k < |items| && BadItem(items[k]);
        if k > 0 {
          assert items[1..][k - 1] == items[k];
        }
      }
      if exists k :: 0 <= k < |items[1..]| && BadItem(items[1..][k]) {
        var k :| 0 <= k < |items[1..]| && BadItem(items[1..][k]);
        assert items[k + 1] == items[1..][k];
      }
    }
  }

  /** The orchestrator is called exactly when every guard passes. */
  lemma ServiceCalledIff(body: BookingBody)
    ensures ValidateBooking(body).Success?
            <==> && NonEmptyString(body.userName) && NonEmptyString(body.userEmail)
                 && body.startTime.Given? && body.startTime.ms.Some?
                 && body.endTime.Given? && body.endTime.ms.Some?
                 && body.startTime.ms.value < body.endTime.ms.value
                 && body.courtId.Number? && body.courtId.value != 0.0
                 && (body.equipment.Absent?
                     || (&& body.equipment.List?
                         && (forall k :: 0 <= k < |body.equipment.items| ==> body.equipment.items[k].Item?)
                         && (forall k :: 0 <= k < |body.equipment.items| ==>
                               !BadItem(NormalItem(body.equipment.items[k].equipmentTypeId, body.equipment.items[k].quantity)))))
  {
    if body.equipment.List? && NormaliseEquipment(body.equipment).Some? {
      var items := NormaliseEquipment(body.equipment).value;
      FirstBadItemIff(items);
      forall k | 0 <= k < |items|
        ensures items[k] == NormalItem(body.equipment.items[k].equipmentTypeId, body.equipment.items[k].quantity)
      {
      }
    }
  }

  /** What an accepted request is normalised to: the strings and times as given, an
      absent equipment list as [], every item passed through Number(), and coachId as
      None when absent and Number(coachId) otherwise. */
  lemma Normalisation(body: BookingBody)
    requires ValidateBooking(body).Success?
    ensures var r := ValidateBooking(body).value;
            && r.userName == body.userName.s && r.userEmail == body.userEmail.s && r.userName != [] && r.userEmail != []
            && r.start == body.startTime.ms.value && r.end == body.endTime.ms.value && r.start < r.end
            && r.courtId == body.courtId.value && r.courtId != 0.0
            && (body.equipment.Absent? ==> r.equipment == [])
            && (body.equipment.List? ==>
                  && |r.equipment| == |body.equipment.items|
                  && forall k :: 0 <= k < |r.equipment| ==>
                       && r.equipment[k].equipmentTypeId == body.equipment.items[k].equipmentTypeId
                       && r.equipment[k].quantity == body.equipment.items[k].quantity)
            && (forall k :: 0 <= k < |r.equipment| ==> !BadItem(r.equipment[k]))
            && (body.coachId.NoCoach? <==> r.coachId.None?)
            && (body.coachId.CoachGiven? ==> r.coachId == Some(body.coachId.coerced))
  {
    var r := ValidateBooking(body).value;
    FirstBadItemIff(r.equipment);
  }

  /** 500 exactly when every guard before the equipment mapping passes and the mapping
      throws: equipment is a falsy scalar, or an array with a null element. Every other
      refusal is therefore 400. */
  lemma InternalErrorIff(body: BookingBody)
    ensures ValidateBooking(body) == Failure(InternalError)
            <==> && NonEmptyString(body.userName) && NonEmptyString(body.userEmail)
                 && body.startTime.Given? && body.startTime.ms.Some?
                 && body.endTime.Given? && body.endTime.ms.Some?
                 && body.startTime.ms.value < body.endTime.ms.value
                 && body.courtId.Number? && body.courtId.value != 0.0
                 && (|| body.equipment.FalsyScalar?
                     || (body.equipment.List? && exists k :: 0 <= k < |body.equipment.items| && body.equipment.items[k].NullItem?))
    ensures ValidateBooking(body).Failure? && ValidateBooking(body).error != InternalError
            ==> ValidateBooking(body).error == BadRequest
  {
  }

  /** A null element anywhere in the equipment array makes the mapping throw, so the
      answer is 500 even when an earlier item would have been refused. */
  lemma NullItemGivesInternalError(body: BookingBody, service: ServiceOutcome)
    requires body.equipment.List? && exists k :: 0 <= k < |body.equipment.items| && body.equipment.items[k].NullItem?
    requires NonEmptyString(body.userName) && NonEmptyString(body.userEmail)
    requires body.startTime.Given? && body.startTime.ms.Some? && body.endTime.Given? && body.endTime.ms.Some?
    requires body.startTime.ms.value < body.endTime.ms.value
    requires body.courtId.Number? && body.courtId.value != 0.0
    ensures CreateBookingStatus(body, service) == InternalError
  {
  }

  /** The three *_UNAVAILABLE codes give 400, NOT_FOUND gives 404, an error without a
      known code gives 500, success gives 201. */
  lemma ErrorStatusMapping(code: Option<Bookings.ErrorCode>)
    ensures ErrorStatus(code) == BadRequest
            <==> code in {Some(Bookings.CourtUnavailable), Some(Bookings.EquipmentUnavailable), Some(Bookings.CoachUnavailable)}
    ensures ErrorStatus(code) == NotFoundStatus <==> code == Some(Bookings.NotFound)
    ensures ErrorStatus(code) == InternalError <==> code.None?
  {
  }

  /** 201 exactly when the request is accepted and the orchestrator creates the
      booking; 404 only from the orchestrator's NOT_FOUND. */
  lemma CreatedIff(body: BookingBody, service: ServiceOutcome)
    ensures CreateBookingStatus(body, service) == CreatedStatus <==> ValidateBooking(body).Success? && service == Created
    ensures CreateBookingStatus(body, service) == NotFoundStatus
            <==> ValidateBooking(body).Success? && service == Failed(Some(Bookings.NotFound))
  {
  }

  /** A NaN quantity passes the item check. */
  lemma NaNQuantityAccepted()
    ensures var body := BookingBody(Str("Ann"), Str("ann@example.com"), Given(Some(0)), Given(Some(3600000)),
                                    Number(1.0), List([Item(Num(2.0), NaN)]), NoCoach);
            ValidateBooking(body).Success?
  {
    var items := [NormalItem(Num(2.0), NaN)];
    assert !BadItem(items[0]);
    assert items[1..] == [];
  }
}
