/** The availability report and the booking orchestrator read the same overlap query
    and the same schedule: for a request's window, the report predicts the checks. */
module Agreement {
  import opened Wrappers
  import opened Records
  import opened Conflicts
  import opened Availability
  import opened Bookings

  function ReportFor(c: Catalog, t: Tables, req: BookingRequest): AvailabilityResult
  {
    Report(c, t, req.start, req.end, req.startDay, req.startHour)
  }

  /** With the court's resources in place, booking fails with COURT_UNAVAILABLE exactly
      when the report marks the court unavailable. */
  lemma CourtAgreement(c: Catalog, t: Tables, req: BookingRequest, i: int)
    requires 0 <= i < |ReportFor(c, t, req).courts| && ReportFor(c, t, req).courts[i].id == req.courtId
    requires EquipmentKnown(c.equipmentTypes, req.equipment)
    requires req.coachId.Some? ==> ActiveCoach(c.coaches, req.coachId.value).Some?
    ensures Book(c, t, req).0 == Failure(CourtUnavailable) <==> !ReportFor(c, t, req).courts[i].isAvailable
  {
    var court := ActiveCourts(c.courts)[i];
    assert court in c.courts && court.isActive;
    assert ActiveCourt(c.courts, req.courtId).Some?;
    CourtUnavailableIff(c, t, req);
    CourtAvailableIff(c, t, req.start, req.end, req.startDay, req.startHour, i);
  }

  /** A positive quantity of a type with a unique id passes the equipment check exactly
      when it does not exceed the reported remaining quantity. */
  lemma EquipmentAgreement(c: Catalog, t: Tables, req: BookingRequest, i: int, item: EquipmentItem)
    requires UniqueTypeIds(c.equipmentTypes)
    requires 0 <= i < |ReportFor(c, t, req).equipment| && item.equipmentTypeId == ReportFor(c, t, req).equipment[i].id
    requires item.quantity > 0
    ensures ItemFits(c.equipmentTypes, Window(t, req), item) <==> item.quantity <= ReportFor(c, t, req).equipment[i].availableQuantity
  {
    var e := ActiveEquipment(c.equipmentTypes)[i];
    assert e in c.equipmentTypes;
    var n :| 0 <= n < |c.equipmentTypes| && c.equipmentTypes[n] == e;
    FindUniqueType(c.equipmentTypes, n);
  }

  /** Once court and equipment have passed, a request with a coach succeeds exactly when
      the report marks that coach available. */
  lemma CoachAgreement(c: Catalog, t: Tables, req: BookingRequest, i: int)
    requires 0 <= i < |ReportFor(c, t, req).coaches| && req.coachId == Some(ReportFor(c, t, req).coaches[i].id)
    requires ActiveCourt(c.courts, req.courtId).Some? && EquipmentKnown(c.equipmentTypes, req.equipment)
    requires !CourtTaken(t, req.courtId, req.start, req.end) && AllItemsFit(c, t, req)
    ensures Book(c, t, req).0.Success? <==> ReportFor(c, t, req).coaches[i].isAvailable
  {
    var coach := ActiveCoaches(c.coaches)[i];
    assert coach in c.coaches && coach.isActive;
    assert ActiveCoach(c.coaches, coach.id).Some?;
    SuccessIff(c, t, req);
    CoachAvailableIff(c, t, req.start, req.end, req.startDay, req.startHour, i);
  }
}
