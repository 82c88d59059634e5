/** The availability query: for a window, every active court, equipment type and coach
    with whether it is free (and how many units of equipment remain). */
module Availability {
  import opened Wrappers
  import opened Records
  import opened Conflicts

  datatype CourtAvailability = CourtAvailability(id: int, name: string, isIndoor: bool, baseHourlyRate: real, isAvailable: bool)
  datatype EquipmentAvailability = EquipmentAvailability(id: int, name: string, availableQuantity: int, pricePerUnit: real)
  datatype CoachAvailability = CoachAvailability(id: int, name: string, hourlyRate: real, isAvailable: bool)
  datatype AvailabilityResult = AvailabilityResult(
    courts: seq<CourtAvailability>,
    equipment: seq<EquipmentAvailability>,
    coaches: seq<CoachAvailability>)

  function Max(a: int, b: int): int
  {
    if a >= b then a else b
  }

  /** The rows a `WHERE` clause keeps, in table order: every row that satisfies it,
      as often as it occurs, and nothing else. */
  function Filter<T(==,!new)>(xs: seq<T>, keep: T -> bool): (r: seq<T>)
    ensures forall x :: x in r <==> x in xs && keep(x)
    ensures |r| <= |xs|
  {
    if xs == [] then []
    else (if keep(xs[0]) then [xs[0]] else []) + Filter(xs[1..], keep)
  }

  /** A kept row occurs in the result exactly as often as in the table, a dropped one never. */
  lemma {:induction false} FilterCount<T(!new)>(xs: seq<T>, keep: T -> bool, x: T)
    ensures multiset(Filter(xs, keep))[x] == if keep(x) then multiset(xs)[x] else 0
  {
    if xs != [] {
      assert xs == [xs[0]] + xs[1..];
      FilterCount(xs[1..], keep, x);
    }
  }

  /** Filtering distributes over concatenation: the kept rows keep their table order. */
  lemma {:induction false} FilterAppend<T(!new)>(xs: seq<T>, ys: seq<T>, keep: T -> bool)
    ensures Filter(xs + ys, keep) == Filter(xs, keep) + Filter(ys, keep)
  {
    if xs == [] {
      assert xs + ys == ys;
    } else {
      assert (xs + ys)[0] == xs[0];
      assert (xs + ys)[1..] == xs[1..] + ys;
      FilterAppend(xs[1..], ys, keep);
    }
  }

  /** One row is kept exactly when it satisfies the clause. */
  lemma FilterSingle<T(!new)>(x: T, keep: T -> bool)
    ensures Filter([x], keep) == if keep(x) then [x] else []
  {
    assert [x][1..] == [];
  }

  /** Every kept row has a position in the result. */
  lemma FilterComplete<T(!new)>(xs: seq<T>, keep: T -> bool, x: T) returns (i: int)
    requires x in xs && keep(x)
    ensures 0 <= i < |Filter(xs, keep)| && Filter(xs, keep)[i] == x
  {
    assert x in Filter(xs, keep);
    i :| 0 <= i < |Filter(xs, keep)| && Filter(xs, keep)[i] == x;
  }

  predicate CourtIsActive(x: Court) { x.isActive }
  predicate EquipmentIsActive(x: EquipmentType) { x.isActive }
  predicate CoachIsActive(x: Coach) { x.isActive }

  /** SELECT * FROM courts WHERE is_active = true. */
  function ActiveCourts(courts: seq<Court>): (r: seq<Court>)
    ensures forall x :: x in r <==> x in courts && x.isActive
  {
    Filter(courts, CourtIsActive)
  }

  /** SELECT * FROM equipment_types WHERE is_active = true. */
  function ActiveEquipment(types: seq<EquipmentType>): (r: seq<EquipmentType>)
    ensures forall x :: x in r <==> x in types && x.isActive
  {
    Filter(types, EquipmentIsActive)
  }

  /** SELECT * FROM coaches WHERE is_active = true. */
  function ActiveCoaches(coaches: seq<Coach>): (r: seq<Coach>)
    ensures forall x :: x in r <==> x in coaches && x.isActive
  {
    Filter(coaches, CoachIsActive)
  }

  function CourtEntry(court: Court, rows: seq<OverlapRow>): CourtAvailability
  {
    CourtAvailability(court.id, court.name, court.isIndoor, court.baseHourlyRate, !CourtBusy(rows, court.id))
  }

  function EquipmentEntry(e: EquipmentType, rows: seq<OverlapRow>): EquipmentAvailability
  {
    EquipmentAvailability(e.id, e.name, Max(e.totalQuantity - Usage(rows, e.id), 0), e.pricePerUnit)
  }

  function CoachEntry(coach: Coach, rows: seq<OverlapRow>, slots: seq<CoachSlot>, dayOfWeek: int, hour: int): CoachAvailability
  {
    CoachAvailability(coach.id, coach.name, coach.hourlyRate,
                      CoachWorking(slots, coach.id, dayOfWeek, hour) && !CoachBusy(rows, coach.id))
  }

  /** The report for [startTime, endTime) whose start falls on dayOfWeek at hour. */
  function Report(c: Catalog, t: Tables, startTime: int, endTime: int, dayOfWeek: int, hour: int): AvailabilityResult
  {
    var rows := OverlappingRows(t.bookings, t.equipmentLines, t.coachLines, startTime, endTime);
    var courts := ActiveCourts(c.courts);
    var types := ActiveEquipment(c.equipmentTypes);
    var coaches := ActiveCoaches(c.coaches);
    AvailabilityResult(
      seq(|courts|, i requires 0 <= i < |courts| => CourtEntry(courts[i], rows)),
      seq(|types|, i requires 0 <= i < |types| => EquipmentEntry(types[i], rows)),
      seq(|coaches|, i requires 0 <= i < |coaches| => CoachEntry(coaches[i], rows, c.slots, dayOfWeek, hour)))
  }

  /** The ids of courts named by an overlapping row. */
  method BusyCourtIds(overlapping: seq<OverlapRow>) returns (busyCourtIds: set<int>)
    ensures forall id :: id in busyCourtIds <==> CourtBusy(overlapping, id)
  {
    busyCourtIds := {};
    for i := 0 to |overlapping|
      invariant forall id :: id in busyCourtIds <==> exists k :: 0 <= k < i && overlapping[k].courtId == id
    {
      busyCourtIds := busyCourtIds + {overlapping[i].courtId};
    }
  }

  /** The ids of coaches named by an overlapping row. */
  method BusyCoachIds(overlapping: seq<OverlapRow>) returns (busyCoachIds: set<int>)
    ensures forall id :: id in busyCoachIds <==> CoachBusy(overlapping, id)
  {
    busyCoachIds := {};
    for i := 0 to |overlapping|
      invariant forall id :: id in busyCoachIds <==> exists k :: 0 <= k < i && overlapping[k].coachId == Some(id)
    {
      if overlapping[i].coachId.Some? {
        busyCoachIds := busyCoachIds + {overlapping[i].coachId.value};
      }
    }
  }

  /** The coaches with a slot on the day that starts by the hour and lasts past it. */
  function WorkingCoachIds(slots: seq<CoachSlot>, dayOfWeek: int, hour: int): (r: set<int>)
    ensures forall id :: id in r <==> CoachWorking(slots, id, dayOfWeek, hour)
  {
    set s | s in slots && s.dayOfWeek == dayOfWeek && s.startHour <= hour && s.endHour >= hour + 1 :: s.coachId
  }

  /** Builds the busy sets and the usage map from the overlapping rows, then one entry
      per active resource. */
  method GetAllAvailableItems(c: Catalog, t: Tables, startTime: int, endTime: int, dayOfWeek: int, hour: int)
    returns (r: AvailabilityResult)
    ensures r == Report(c, t, startTime, endTime, dayOfWeek, hour)
  {
    var courts := ActiveCourts(c.courts);
    var equipmentTypes := ActiveEquipment(c.equipmentTypes);
    var coaches := ActiveCoaches(c.coaches);
    var overlapping := OverlappingRows(t.bookings, t.equipmentLines, t.coachLines, startTime, endTime);

    var busyCourtIds := BusyCourtIds(overlapping);

    var courtAvailability := seq(|courts|, i requires 0 <= i < |courts| =>
      CourtAvailability(courts[i].id, courts[i].name, courts[i].isIndoor, courts[i].baseHourlyRate, courts[i].id !in busyCourtIds));

    var equipmentsUsage := CollectEquipmentUsage(overlapping);
    var equipmentsAvailability := seq(|equipmentTypes|, i requires 0 <= i < |equipmentTypes| =>
      var used := UsageOf(equipmentsUsage, equipmentTypes[i].id);
      EquipmentAvailability(equipmentTypes[i].id, equipmentTypes[i].name,
                            Max(equipmentTypes[i].totalQuantity - used, 0), equipmentTypes[i].pricePerUnit));

    var busyCoachIds := BusyCoachIds(overlapping);
    var workingCoachIds := WorkingCoachIds(c.slots, dayOfWeek, hour);

    var coachAvailability := seq(|coaches|, i requires 0 <= i < |coaches| =>
      var isWorking := coaches[i].id in workingCoachIds;
      var isBusy := coaches[i].id in busyCoachIds;
      CoachAvailability(coaches[i].id, coaches[i].name, coaches[i].hourlyRate, isWorking && !isBusy));

    ghost var report := Report(c, t, startTime, endTime, dayOfWeek, hour);
    assert courtAvailability == report.courts;
    assert equipmentsAvailability == report.equipment;
    assert coachAvailability == report.coaches;
    return AvailabilityResult(courtAvailability, equipmentsAvailability, coachAvailability);
  }

  /** One court entry per active court, in catalog order, and every active court has one. */
  lemma CourtEntriesMatchActiveCourts(c: Catalog, t: Tables, startTime: int, endTime: int, dayOfWeek: int, hour: int)
    ensures var r := Report(c, t, startTime, endTime, dayOfWeek, hour);
            && |r.courts| == |ActiveCourts(c.courts)|
            && (forall i :: 0 <= i < |r.courts| ==>
                  var court := ActiveCourts(c.courts)[i];
                  court in c.courts && court.isActive && r.courts[i].id == court.id && r.courts[i].name == court.name)
            && (forall x :: x in c.courts && x.isActive ==> exists i :: 0 <= i < |r.courts| && r.courts[i].id == x.id)
  {
    var r := Report(c, t, startTime, endTime, dayOfWeek, hour);
    forall x | x in c.courts && x.isActive
      ensures exists i :: 0 <= i < |r.courts| && r.courts[i].id == x.id
    {
      var i := FilterComplete(c.courts, CourtIsActive, x);
      assert r.courts[i].id == x.id;
    }
  }

  /** One equipment entry per active equipment type, in catalog order, and every active type has one. */
  lemma EquipmentEntriesMatchActiveTypes(c: Catalog, t: Tables, startTime: int, endTime: int, dayOfWeek: int, hour: int)
    ensures var r := Report(c, t, startTime, endTime, dayOfWeek, hour);
            && |r.equipment| == |ActiveEquipment(c.equipmentTypes)|
            && (forall i :: 0 <= i < |r.equipment| ==>
                  var e := ActiveEquipment(c.equipmentTypes)[i];
                  e in c.equipmentTypes && e.isActive && r.equipment[i].id == e.id && r.equipment[i].pricePerUnit == e.pricePerUnit)
            && (forall x :: x in c.equipmentTypes && x.isActive ==> exists i :: 0 <= i < |r.equipment| && r.equipment[i].id == x.id)
  {
    var r := Report(c, t, startTime, endTime, dayOfWeek, hour);
    forall x | x in c.equipmentTypes && x.isActive
      ensures exists i :: 0 <= i < |r.equipment| && r.equipment[i].id == x.id
    {
      var i := FilterComplete(c.equipmentTypes, EquipmentIsActive, x);
      assert r.equipment[i].id == x.id;
    }
  }

  /** One coach entry per active coach, in catalog order, and every active coach has one. */
  lemma CoachEntriesMatchActiveCoaches(c: Catalog, t: Tables, startTime: int, endTime: int, dayOfWeek: int, hour: int)
    ensures var r := Report(c, t, startTime, endTime, dayOfWeek, hour);
            && |r.coaches| == |ActiveCoaches(c.coaches)|
            && (forall i :: 0 <= i < |r.coaches| ==>
                  var coach := ActiveCoaches(c.coaches)[i];
                  coach in c.coaches && coach.isActive && r.coaches[i].id == coach.id && r.coaches[i].hourlyRate == coach.hourlyRate)
            && (forall x :: x in c.coaches && x.isActive ==> exists i :: 0 <= i < |r.coaches| && r.coaches[i].id == x.id)
  {
    var r := Report(c, t, startTime, endTime, dayOfWeek, hour);
    forall x | x in c.coaches && x.isActive
      ensures exists i :: 0 <= i < |r.coaches| && r.coaches[i].id == x.id
    {
      var i := FilterComplete(c.coaches, CoachIsActive, x);
      assert r.coaches[i].id == x.id;
    }
  }

  /** A court is reported available iff no CONFIRMED booking of it overlaps the window. */
  lemma CourtAvailableIff(c: Catalog, t: Tables, startTime: int, endTime: int, dayOfWeek: int, hour: int, i: int)
    requires 0 <= i < |Report(c, t, startTime, endTime, dayOfWeek, hour).courts|
    ensures var entry := Report(c, t, startTime, endTime, dayOfWeek, hour).courts[i];
            entry.isAvailable <==> !exists b :: b in t.bookings && Overlaps(b, startTime, endTime) && b.courtId == entry.id
  {
    var court := ActiveCourts(c.courts)[i];
    CourtBusyIff(t.bookings, t.equipmentLines, t.coachLines, startTime, endTime, court.id);
  }

  /** The remaining quantity is never negative; it is total minus used when that is
      positive and 0 otherwise. */
  lemma AvailableQuantityClamped(c: Catalog, t: Tables, startTime: int, endTime: int, dayOfWeek: int, hour: int, i: int)
    requires 0 <= i < |Report(c, t, startTime, endTime, dayOfWeek, hour).equipment|
    ensures var e := ActiveEquipment(c.equipmentTypes)[i];
            var used := Usage(OverlappingRows(t.bookings, t.equipmentLines, t.coachLines, startTime, endTime), e.id);
            var q := Report(c, t, startTime, endTime, dayOfWeek, hour).equipment[i].availableQuantity;
            && q >= 0
            && q >= e.totalQuantity - used
            && (q == 0 || q == e.totalQuantity - used)
  {
  }

  /** A coach is reported available iff a slot covers the start hour and no CONFIRMED
      booking overlapping the window has a coach line for it. */
  lemma CoachAvailableIff(c: Catalog, t: Tables, startTime: int, endTime: int, dayOfWeek: int, hour: int, i: int)
    requires 0 <= i < |Report(c, t, startTime, endTime, dayOfWeek, hour).coaches|
    ensures var entry := Report(c, t, startTime, endTime, dayOfWeek, hour).coaches[i];
            entry.isAvailable
            <==> && (exists s :: s in c.slots && s.coachId == entry.id && s.dayOfWeek == dayOfWeek
                                 && s.startHour <= hour && hour + 1 <= s.endHour)
                 && !exists b, l :: b in t.bookings && Overlaps(b, startTime, endTime) && l in t.coachLines
                                    && l.bookingId == b.id && l.coachId == entry.id
  {
    var coach := ActiveCoaches(c.coaches)[i];
    CoachBusyIff(t.bookings, t.equipmentLines, t.coachLines, startTime, endTime, coach.id);
  }
}
