/** The request checks in front of coach-schedule replacement, and the mapping of
    the replacement's outcome to an HTTP status. */
module AdminController {
  import opened Wrappers
  import opened Http

  /** One element of the slots array: null (property access throws) or an object
      (a non-object element reads as an object with no numeric fields). */
  datatype SlotEntry = NullSlot | Slot(dayOfWeek: JsonNumber, startHour: JsonNumber, endHour: JsonNumber)

  datatype SlotsField = NotArray | SlotArray(entries: seq<SlotEntry>)

  datatype ValidSlot = ValidSlot(dayOfWeek: real, startHour: real, endHour: real)

  /** The coded errors of the replacement service; any other failure is Unexpected. */
  datatype ServiceOutcome = Replaced | CoachNotFound | Unexpected

  /** The range checks on one slot whose fields are numbers, in source order. */
  predicate SlotInRange(d: real, s: real, e: real)
  {
    && 0.0 <= s <= 23.0
    && 1.0 <= e <= 24.0
    && s < e
    && 0.0 <= d <= 6.0
  }

  /** The status that stops the slot loop at this entry, if any. */
  function SlotProblem(entry: SlotEntry): Option<int>
  {
    match entry
    case NullSlot => Some(InternalError)
    case Slot(d, s, e) =>
      if !d.Number? || !s.Number? || !e.Number? then Some(BadRequest)
      else if s.value < 0.0 || s.value > 23.0 then Some(BadRequest)
      else if e.value < 1.0 || e.value > 24.0 then Some(BadRequest)
      else if s.value >= e.value then Some(BadRequest)
      else if d.value < 0.0 || d.value > 6.0 then Some(BadRequest)
      else None
  }

  /** The slot loop: the first entry with a problem decides. */
  function FirstSlotProblem(entries: seq<SlotEntry>): Option<int>
  {
    if entries == [] then None
    else if SlotProblem(entries[0]).Some? then SlotProblem(entries[0])
    else FirstSlotProblem(entries[1..])
  }

  predicate GoodSlot(entry: SlotEntry)
  {
    entry.Slot? && entry.dayOfWeek.Number? && entry.startHour.Number? && entry.endHour.Number?
    && SlotInRange(entry.dayOfWeek.value, entry.startHour.value, entry.endHour.value)
  }

  function ToValidSlots(entries: seq<SlotEntry>): seq<ValidSlot>
    requires forall k :: 0 <= k < |entries| ==> GoodSlot(entries[k])
  {
    seq(|entries|, k requires 0 <= k < |entries| && GoodSlot(entries[k]) =>
      ValidSlot(entries[k].dayOfWeek.value, entries[k].startHour.value, entries[k].endHour.value))
  }

  /** The checks before the service call: the coach id and the slot list, or the status. */
  function ValidateSetAvailability(coachId: Numeric, slots: SlotsField): (r: Result<(real, seq<ValidSlot>), int>)
    ensures r.Failure? ==> r.error == BadRequest || r.error == InternalError
  {
    if coachId.NaN? || coachId.value == 0.0 then Failure(BadRequest)
    else if slots.NotArray? || |slots.entries| == 0 then Failure(BadRequest)
    else match FirstSlotProblem(slots.entries)
      case Some(status) =>
        FirstSlotProblemStatus(slots.entries);
        Failure(status)
      case None =>
        FirstSlotProblemNone(slots.entries);
        Success((coachId.value, ToValidSlots(slots.entries)))
  }

  /** The status of the whole request, given what the service would do. */
  function SetAvailabilityStatus(coachId: Numeric, slots: SlotsField, service: ServiceOutcome): (status: int)
    ensures status == Ok || status == BadRequest || status == NotFoundStatus || status == InternalError
  {
    match ValidateSetAvailability(coachId, slots)
    case Failure(status) => status
    case Success(_) =>
      match service
      case Replaced => Ok
      case CoachNotFound => NotFoundStatus
      case Unexpected => InternalError
  }

  lemma SlotProblemNone(entry: SlotEntry)
    ensures SlotProblem(entry).None? <==> GoodSlot(entry)
    ensures SlotProblem(entry).Some? ==> SlotProblem(entry).value in {BadRequest, InternalError}
  {
  }

  /** The loop passes exactly when every entry is a well-formed slot. */
  lemma {:induction false} FirstSlotProblemNone(entries: seq<SlotEntry>)
    ensures FirstSlotProblem(entries).None? <==> forall k :: 0 <= k < |entries| ==> GoodSlot(entries[k])
  {
    if entries != [] {
      SlotProblemNone(entries[0]);
      FirstSlotProblemNone(entries[1..]);
      assert forall k :: 1 <= k < |entries| ==> entries[k] == entries[1..][k - 1];
    }
  }

  /** The loop stops at the first entry that is not a well-formed slot: 500 when that
      entry is null, 400 otherwise. */
  lemma {:induction false} FirstSlotProblemAt(entries: seq<SlotEntry>, i: int)
    requires 0 <= i < |entries| && !GoodSlot(entries[i])
    requires forall k :: 0 <= k < i ==> GoodSlot(entries[k])
    ensures FirstSlotProblem(entries) == Some(if entries[i].NullSlot? then InternalError else BadRequest)
  {
    SlotProblemNone(entries[0]);
    if i > 0 {
      FirstSlotProblemAt(entries[1..], i - 1);
    }
  }

  /** A coach id that is 0 or NaN is refused with 400 whatever the slots are. */
  lemma InvalidCoachIdRejected(coachId: Numeric, slots: SlotsField, service: ServiceOutcome)
    requires coachId == NaN || coachId == Num(0.0)
    ensures SetAvailabilityStatus(coachId, slots, service) == BadRequest
  {
  }

  /** With a valid coach id, a slots value that is not an array, or an empty array,
      is refused with 400 before any slot is looked at. */
  lemma MissingSlotsRejected(coachId: Numeric, slots: SlotsField, service: ServiceOutcome)
    requires coachId.Num? && coachId.value != 0.0
    requires slots.NotArray? || |slots.entries| == 0
    ensures ValidateSetAvailability(coachId, slots) == Failure(BadRequest)
    ensures SetAvailabilityStatus(coachId, slots, service) == BadRequest
  {
  }

  /** The service is called exactly when the id is a non-zero number and the slots form
      a non-empty array of slots within the hour and day ranges; the slots passed on
      are those entries, in order, and each satisfies 0 <= startHour < endHour <= 24. */
  lemma ServiceCalledIff(coachId: Numeric, slots: SlotsField)
    ensures ValidateSetAvailability(coachId, slots).Success?
            <==> && coachId.Num? && coachId.value != 0.0
                 && slots.SlotArray? && |slots.entries| > 0
                 && forall k :: 0 <= k < |slots.entries| ==> GoodSlot(slots.entries[k])
    ensures ValidateSetAvailability(coachId, slots).Success? ==>
              var (id, valid) := ValidateSetAvailability(coachId, slots).value;
              && id == coachId.value
              && |valid| == |slots.entries|
              && forall k :: 0 <= k < |valid| ==>
                   && valid[k].dayOfWeek == slots.entries[k].dayOfWeek.value
                   && valid[k].startHour == slots.entries[k].startHour.value
                   && valid[k].endHour == slots.entries[k].endHour.value
                   && 0.0 <= valid[k].startHour < valid[k].endHour <= 24.0
                   && 0.0 <= valid[k].dayOfWeek <= 6.0
  {
    if slots.SlotArray? {
      FirstSlotProblemNone(slots.entries);
    }
  }

  /** Status of an accepted request: 200 on success, 404 for COACH_NOT_FOUND, 500 for
      anything else; a refused request never reaches 200 or 404. */
  lemma StatusMapping(coachId: Numeric, slots: SlotsField, service: ServiceOutcome)
    ensures var status := SetAvailabilityStatus(coachId, slots, service);
            && (status == Ok <==> ValidateSetAvailability(coachId, slots).Success? && service == Replaced)
            && (status == NotFoundStatus <==> ValidateSetAvailability(coachId, slots).Success? && service == CoachNotFound)
            && (ValidateSetAvailability(coachId, slots).Success? && service == Unexpected ==> status == InternalError)
            && (ValidateSetAvailability(coachId, slots).Failure? ==> status in {BadRequest, InternalError})
  {
    match ValidateSetAvailability(coachId, slots)
    case Failure(status) =>
      if slots.SlotArray? && FirstSlotProblem(slots.entries).Some? {
        FirstSlotProblemStatus(slots.entries);
      }
    case Success(_) =>
  }

  lemma {:induction false} FirstSlotProblemStatus(entries: seq<SlotEntry>)
    requires FirstSlotProblem(entries).Some?
    ensures FirstSlotProblem(entries).value in {BadRequest, InternalError}
  {
    SlotProblemNone(entries[0]);
    if SlotProblem(entries[0]).None? {
      FirstSlotProblemStatus(entries[1..]);
    }
  }

  /** startHour 23.5 with endHour 24 is refused although 0 <= 23.5 < 24 <= 24. */
  lemma FractionalLateStartRejected()
    ensures var slots := SlotArray([Slot(Number(1.0), Number(23.5), Number(24.0))]);
            ValidateSetAvailability(Num(3.0), slots) == Failure(BadRequest)
  {
  }
}
