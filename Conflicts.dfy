/** The reservation conflict detector shared by the booking and availability paths:
    the overlap query over CONFIRMED bookings, and what is derived from its rows
    (busy courts, equipment usage, busy coaches), plus the coach schedule matcher. */
module Conflicts {
  import opened Wrappers
  import opened Records

  /** One row of the overlap query: a booking left-joined with one of its equipment
      lines (or none) and one of its coach lines (or none). */
  datatype OverlapRow = OverlapRow(
    bookingId: int,
    courtId: int,
    equipmentTypeId: Option<int>,
    quantity: Option<int>,
    coachId: Option<int>)

  /** status = 'CONFIRMED' AND start_time < end AND end_time > start. */
  predicate Overlaps(b: Booking, start: int, end: int)
  {
    b.status == Confirmed && b.startTime < end && b.endTime > start
  }

  function EquipmentLinesOf(lines: seq<EquipmentLine>, bookingId: int): (r: seq<EquipmentLine>)
    ensures forall l :: l in r <==> l in lines && l.bookingId == bookingId
  {
    if lines == [] then []
    else (if lines[0].bookingId == bookingId then [lines[0]] else []) + EquipmentLinesOf(lines[1..], bookingId)
  }

  function CoachLinesOf(lines: seq<CoachLine>, bookingId: int): (r: seq<CoachLine>)
    ensures forall l :: l in r <==> l in lines && l.bookingId == bookingId
  {
    if lines == [] then []
    else (if lines[0].bookingId == bookingId then [lines[0]] else []) + CoachLinesOf(lines[1..], bookingId)
  }

  /** The right-hand side of a LEFT JOIN: the matches, or a single NULL when there are none. */
  function Nullable<T>(xs: seq<T>): (r: seq<Option<T>>)
    ensures |r| >= 1
  {
    if xs == [] then [None] else seq(|xs|, i requires 0 <= i < |xs| => Some(xs[i]))
  }

  function MakeRow(b: Booking, e: Option<EquipmentLine>, c: Option<CoachLine>): OverlapRow
  {
    OverlapRow(
      b.id,
      b.courtId,
      if e.Some? then Some(e.value.equipmentTypeId) else None,
      if e.Some? then Some(e.value.quantity) else None,
      if c.Some? then Some(c.value.coachId) else None)
  }

  /** Every pairing of an equipment side with a coach side. */
  function CrossRows(b: Booking, es: seq<Option<EquipmentLine>>, cs: seq<Option<CoachLine>>): seq<OverlapRow>
  {
    if es == [] then []
    else seq(|cs|, j requires 0 <= j < |cs| => MakeRow(b, es[0], cs[j])) + CrossRows(b, es[1..], cs)
  }

  /** The rows one booking contributes to bookings LEFT JOIN booking_equipments LEFT JOIN booking_coaches. */
  function JoinRows(b: Booking, eq: seq<EquipmentLine>, co: seq<CoachLine>): seq<OverlapRow>
  {
    CrossRows(b, Nullable(EquipmentLinesOf(eq, b.id)), Nullable(CoachLinesOf(co, b.id)))
  }

  /** The overlap query over [start, end). */
  function OverlappingRows(bookings: seq<Booking>, eq: seq<EquipmentLine>, co: seq<CoachLine>, start: int, end: int): seq<OverlapRow>
  {
    if bookings == [] then []
    else
      (if Overlaps(bookings[0], start, end) then JoinRows(bookings[0], eq, co) else [])
      + OverlappingRows(bookings[1..], eq, co, start, end)
  }

  /** Some overlapping row holds the court. */
  predicate CourtBusy(rows: seq<OverlapRow>, courtId: int)
  {
    exists r :: r in rows && r.courtId == courtId
  }

  /** Some overlapping row names the coach. */
  predicate CoachBusy(rows: seq<OverlapRow>, coachId: int)
  {
    exists r :: r in rows && r.coachId == Some(coachId)
  }

  /** Number(row.quantity || 0). */
  function Quantity(r: OverlapRow): int
  {
    if r.quantity.Some? then r.quantity.value else 0
  }

  /** Units of an equipment type held by the rows. */
  function Usage(rows: seq<OverlapRow>, equipmentTypeId: int): int
  {
    if rows == [] then 0
    else
      var n := |rows| - 1;
      Usage(rows[..n], equipmentTypeId)
      + (if rows[n].equipmentTypeId == Some(equipmentTypeId) then Quantity(rows[n]) else 0)
  }

  /** The coach schedule matcher: a slot of the coach on that day covers the whole
      clock hour [hour, hour + 1). Only the hour given is checked. */
  predicate CoachWorking(slots: seq<CoachSlot>, coachId: int, dayOfWeek: int, hour: int)
  {
    exists s :: s in slots && s.coachId == coachId && s.dayOfWeek == dayOfWeek
                && s.startHour <= hour && s.endHour >= hour + 1
  }

  /** usage[id] || 0 */
  function UsageOf(usage: map<int, int>, equipmentTypeId: int): int
  {
    if equipmentTypeId in usage then usage[equipmentTypeId] else 0
  }

  /** The loop that accumulates, per equipment type, the quantities of the rows that
      carry an equipment line. */
  method CollectEquipmentUsage(rows: seq<OverlapRow>) returns (usage: map<int, int>)
    ensures forall id :: UsageOf(usage, id) == Usage(rows, id)
    ensures forall id :: id in usage <==> exists r :: r in rows && r.equipmentTypeId == Some(id)
  {
    usage := map[];
    for i := 0 to |rows|
      invariant forall id :: UsageOf(usage, id) == Usage(rows[..i], id)
      invariant forall id :: id in usage <==> exists r :: r in rows[..i] && r.equipmentTypeId == Some(id)
    {
      assert rows[..i + 1][..i] == rows[..i];
      assert rows[..i + 1] == rows[..i] + [rows[i]];
      var row := rows[i];
      if row.equipmentTypeId.Some? {
        var eqId := row.equipmentTypeId.value;
        var qty := Quantity(row);
        usage := usage[eqId := UsageOf(usage, eqId) + qty];
      }
    }
    assert rows[..|rows|] == rows;
  }

  // ----- Facts about the overlap query -----

  lemma {:induction false} CrossRowsInclude(b: Booking, es: seq<Option<EquipmentLine>>, cs: seq<Option<CoachLine>>, i: nat, j: nat)
    requires i < |es| && j < |cs|
    ensures MakeRow(b, es[i], cs[j]) in CrossRows(b, es, cs)
  {
    if i == 0 {
      var head := seq(|cs|, k requires 0 <= k < |cs| => MakeRow(b, es[0], cs[k]));
      assert head[j] == MakeRow(b, es[0], cs[j]);
    } else {
      CrossRowsInclude(b, es[1..], cs, i - 1, j);
      assert es[1..][i - 1] == es[i];
    }
  }

  lemma {:induction false} CrossRowsOrigin(b: Booking, es: seq<Option<EquipmentLine>>, cs: seq<Option<CoachLine>>, r: OverlapRow)
    returns (i: nat, j: nat)
    requires r in CrossRows(b, es, cs)
    ensures i < |es| && j < |cs| && r == MakeRow(b, es[i], cs[j])
  {
    var head := seq(|cs|, k requires 0 <= k < |cs| => MakeRow(b, es[0], cs[k]));
    if r in head {
      var k :| 0 <= k < |cs| && head[k] == r;
      i, j := 0, k;
    } else {
      var i', j' := CrossRowsOrigin(b, es[1..], cs, r);
      i, j := i' + 1, j';
    }
  }

  lemma NullableAt<T>(xs: seq<T>, i: nat)
    requires i < |Nullable(xs)|
    ensures Nullable(xs)[i].Some? ==> Nullable(xs)[i].value in xs
  {
  }

  /** Every row of a booking names that booking and its court, and only coaches of
      its own coach lines. */
  lemma JoinRowOrigin(b: Booking, eq: seq<EquipmentLine>, co: seq<CoachLine>, r: OverlapRow)
    requires r in JoinRows(b, eq, co)
    ensures r.bookingId == b.id && r.courtId == b.courtId
    ensures r.coachId.Some? ==> exists l :: l in co && l.bookingId == b.id && l.coachId == r.coachId.value
  {
    var es := Nullable(EquipmentLinesOf(eq, b.id));
    var cs := Nullable(CoachLinesOf(co, b.id));
    var i, j := CrossRowsOrigin(b, es, cs, r);
    NullableAt(CoachLinesOf(co, b.id), j);
  }

  /** Every booking contributes at least one row. */
  lemma JoinRowsNonEmpty(b: Booking, eq: seq<EquipmentLine>, co: seq<CoachLine>)
    ensures exists r :: r in JoinRows(b, eq, co) && r.courtId == b.courtId
  {
    var es := Nullable(EquipmentLinesOf(eq, b.id));
    var cs := Nullable(CoachLinesOf(co, b.id));
    CrossRowsInclude(b, es, cs, 0, 0);
  }

  /** Each coach line of a booking shows up in one of its rows. */
  lemma JoinRowsShowCoach(b: Booking, eq: seq<EquipmentLine>, co: seq<CoachLine>, l: CoachLine)
    requires l in co && l.bookingId == b.id
    ensures exists r :: r in JoinRows(b, eq, co) && r.coachId == Some(l.coachId)
  {
    var cls := CoachLinesOf(co, b.id);
    assert l in cls;
    var j :| 0 <= j < |cls| && cls[j] == l;
    var es := Nullable(EquipmentLinesOf(eq, b.id));
    var cs := Nullable(cls);
    assert cs[j] == Some(l);
    CrossRowsInclude(b, es, cs, 0, j);
  }

  lemma {:induction false} OverlappingRowsOrigin(bookings: seq<Booking>, eq: seq<EquipmentLine>, co: seq<CoachLine>, start: int, end: int, r: OverlapRow)
    returns (b: Booking)
    requires r in OverlappingRows(bookings, eq, co, start, end)
    ensures b in bookings && Overlaps(b, start, end) && r in JoinRows(b, eq, co)
  {
    var head := if Overlaps(bookings[0], start, end) then JoinRows(bookings[0], eq, co) else [];
    if r in head {
      b := bookings[0];
    } else {
      b := OverlappingRowsOrigin(bookings[1..], eq, co, start, end, r);
    }
  }

  lemma {:induction false} OverlappingRowsInclude(bookings: seq<Booking>, eq: seq<EquipmentLine>, co: seq<CoachLine>, start: int, end: int, b: Booking, r: OverlapRow)
    requires b in bookings && Overlaps(b, start, end) && r in JoinRows(b, eq, co)
    ensures r in OverlappingRows(bookings, eq, co, start, end)
  {
    if bookings[0] != b {
      OverlappingRowsInclude(bookings[1..], eq, co, start, end, b, r);
    }
  }

  /** The court is busy exactly when a CONFIRMED booking of that court overlaps the window. */
  lemma CourtBusyIff(bookings: seq<Booking>, eq: seq<EquipmentLine>, co: seq<CoachLine>, start: int, end: int, courtId: int)
    ensures CourtBusy(OverlappingRows(bookings, eq, co, start, end), courtId)
            <==> exists b :: b in bookings && Overlaps(b, start, end) && b.courtId == courtId
  {
    var rows := OverlappingRows(bookings, eq, co, start, end);
    if CourtBusy(rows, courtId) {
      var r :| r in rows && r.courtId == courtId;
      var b := OverlappingRowsOrigin(bookings, eq, co, start, end, r);
      JoinRowOrigin(b, eq, co, r);
    }
    if exists b :: b in bookings && Overlaps(b, start, end) && b.courtId == courtId {
      var b :| b in bookings && Overlaps(b, start, end) && b.courtId == courtId;
      JoinRowsNonEmpty(b, eq, co);
      var r :| r in JoinRows(b, eq, co) && r.courtId == b.courtId;
      OverlappingRowsInclude(bookings, eq, co, start, end, b, r);
    }
  }

  /** The coach is busy exactly when a CONFIRMED booking overlapping the window has a
      coach line for that coach. */
  lemma CoachBusyIff(bookings: seq<Booking>, eq: seq<EquipmentLine>, co: seq<CoachLine>, start: int, end: int, coachId: int)
    ensures CoachBusy(OverlappingRows(bookings, eq, co, start, end), coachId)
            <==> exists b, l :: b in bookings && Overlaps(b, start, end) && l in co && l.bookingId == b.id && l.coachId == coachId
  {
    var rows := OverlappingRows(bookings, eq, co, start, end);
    if CoachBusy(rows, coachId) {
      var r :| r in rows && r.coachId == Some(coachId);
      var b := OverlappingRowsOrigin(bookings, eq, co, start, end, r);
      JoinRowOrigin(b, eq, co, r);
    }
    if exists b, l :: b in bookings && Overlaps(b, start, end) && l in co && l.bookingId == b.id && l.coachId == coachId {
      var b, l :| b in bookings && Overlaps(b, start, end) && l in co && l.bookingId == b.id && l.coachId == coachId;
      JoinRowsShowCoach(b, eq, co, l);
      var r :| r in JoinRows(b, eq, co) && r.coachId == Some(l.coachId);
      OverlappingRowsInclude(bookings, eq, co, start, end, b, r);
    }
  }

  // ---------------------------------------------------------------------------
  // How the query and the usage sum behave when tables grow.

  lemma {:induction false} EquipmentLinesOfAppend(a: seq<EquipmentLine>, b: seq<EquipmentLine>, bookingId: int)
    ensures EquipmentLinesOf(a + b, bookingId) == EquipmentLinesOf(a, bookingId) + EquipmentLinesOf(b, bookingId)
  {
    if a == [] {
      assert a + b == b;
    } else {
      assert (a + b)[1..] == a[1..] + b;
      EquipmentLinesOfAppend(a[1..], b, bookingId);
    }
  }

  lemma {:induction false} CoachLinesOfAppend(a: seq<CoachLine>, b: seq<CoachLine>, bookingId: int)
    ensures CoachLinesOf(a + b, bookingId) == CoachLinesOf(a, bookingId) + CoachLinesOf(b, bookingId)
  {
    if a == [] {
      assert a + b == b;
    } else {
      assert (a + b)[1..] == a[1..] + b;
      CoachLinesOfAppend(a[1..], b, bookingId);
    }
  }

  lemma EquipmentLinesOfNone(lines: seq<EquipmentLine>, bookingId: int)
    requires forall l :: l in lines ==> l.bookingId != bookingId
    ensures EquipmentLinesOf(lines, bookingId) == []
  {
  }

  lemma CoachLinesOfNone(lines: seq<CoachLine>, bookingId: int)
    requires forall l :: l in lines ==> l.bookingId != bookingId
    ensures CoachLinesOf(lines, bookingId) == []
  {
  }

  lemma {:induction false} EquipmentLinesOfAll(lines: seq<EquipmentLine>, bookingId: int)
    requires forall l :: l in lines ==> l.bookingId == bookingId
    ensures EquipmentLinesOf(lines, bookingId) == lines
  {
    if lines != [] {
      assert lines[0] in lines;
      assert forall l :: l in lines[1..] ==> l in lines;
      EquipmentLinesOfAll(lines[1..], bookingId);
      assert [lines[0]] + lines[1..] == lines;
    }
  }

  lemma {:induction false} CoachLinesOfAll(lines: seq<CoachLine>, bookingId: int)
    requires forall l :: l in lines ==> l.bookingId == bookingId
    ensures CoachLinesOf(lines, bookingId) == lines
  {
    if lines != [] {
      assert lines[0] in lines;
      assert forall l :: l in lines[1..] ==> l in lines;
      CoachLinesOfAll(lines[1..], bookingId);
      assert [lines[0]] + lines[1..] == lines;
    }
  }

  /** The rows of a single booking: its joined rows when it overlaps, none otherwise. */
  lemma OverlappingRowsSingle(b: Booking, eq: seq<EquipmentLine>, co: seq<CoachLine>, start: int, end: int)
    ensures OverlappingRows([b], eq, co, start, end) == if Overlaps(b, start, end) then JoinRows(b, eq, co) else []
  {
    assert [b][1..] == [];
  }

  /** The rows of a booking list that starts with b: b's rows, then the rest's. */
  lemma OverlappingRowsCons(b: Booking, bookings: seq<Booking>, eq: seq<EquipmentLine>, co: seq<CoachLine>, start: int, end: int)
    ensures OverlappingRows([b] + bookings, eq, co, start, end)
            == OverlappingRows([b], eq, co, start, end) + OverlappingRows(bookings, eq, co, start, end)
  {
    assert ([b] + bookings)[1..] == bookings;
    assert [b][1..] == [];
  }

  /** The rows of two booking lists one after the other are their rows one after the other. */
  lemma {:induction false} OverlappingRowsAppend(bookings: seq<Booking>, more: seq<Booking>, eq: seq<EquipmentLine>, co: seq<CoachLine>, start: int, end: int)
    ensures OverlappingRows(bookings + more, eq, co, start, end)
            == OverlappingRows(bookings, eq, co, start, end) + OverlappingRows(more, eq, co, start, end)
  {
    if bookings == [] {
      assert bookings + more == more;
    } else {
      var b := bookings[0];
      var rest := bookings[1..];
      assert bookings == [b] + rest;
      assert bookings + more == [b] + (rest + more);
      OverlappingRowsCons(b, rest + more, eq, co, start, end);
      OverlappingRowsCons(b, rest, eq, co, start, end);
      OverlappingRowsAppend(rest, more, eq, co, start, end);
    }
  }

  /** The rows of a new booking that owns all of eq2 and co2 (with at most one coach line)
      hold exactly eq2's units when it overlaps the window, and none otherwise. */
  lemma NewBookingRowsUsage(nb: Booking, eq: seq<EquipmentLine>, eq2: seq<EquipmentLine>,
                            co: seq<CoachLine>, co2: seq<CoachLine>, start: int, end: int, equipmentTypeId: int)
    requires forall l :: l in eq ==> l.bookingId != nb.id
    requires forall l :: l in co ==> l.bookingId != nb.id
    requires forall l :: l in eq2 ==> l.bookingId == nb.id
    requires forall l :: l in co2 ==> l.bookingId == nb.id
    requires |co2| <= 1
    ensures Usage(OverlappingRows([nb], eq + eq2, co + co2, start, end), equipmentTypeId)
            == if Overlaps(nb, start, end) then LineUsage(eq2, equipmentTypeId) else 0
  {
    OverlappingRowsSingle(nb, eq + eq2, co + co2, start, end);
    if Overlaps(nb, start, end) {
      EquipmentLinesOfAppend(eq, eq2, nb.id);
      EquipmentLinesOfNone(eq, nb.id);
      EquipmentLinesOfAll(eq2, nb.id);
      assert EquipmentLinesOf(eq + eq2, nb.id) == [] + eq2 == eq2;
      CoachLinesOfAppend(co, co2, nb.id);
      CoachLinesOfNone(co, nb.id);
      CoachLinesOfAll(co2, nb.id);
      assert CoachLinesOf(co + co2, nb.id) == [] + co2 == co2;
      SingleCoachJoinUsage(nb, eq + eq2, co + co2, equipmentTypeId);
    } else {
      assert OverlappingRows([nb], eq + eq2, co + co2, start, end) == [];
    }
  }

  /** A new booking with its own lines (and at most one coach line) adds, at a window it
      overlaps, exactly its equipment lines' units to the usage, and nothing otherwise. */
  lemma UsageWithNewBooking(bookings: seq<Booking>, nb: Booking, eq: seq<EquipmentLine>, eq2: seq<EquipmentLine>,
                            co: seq<CoachLine>, co2: seq<CoachLine>, start: int, end: int, equipmentTypeId: int)
    requires forall b :: b in bookings ==> b.id != nb.id
    requires forall l :: l in eq ==> l.bookingId != nb.id
    requires forall l :: l in co ==> l.bookingId != nb.id
    requires forall l :: l in eq2 ==> l.bookingId == nb.id
    requires forall l :: l in co2 ==> l.bookingId == nb.id
    requires |co2| <= 1
    ensures Usage(OverlappingRows(bookings + [nb], eq + eq2, co + co2, start, end), equipmentTypeId)
            == Usage(OverlappingRows(bookings, eq, co, start, end), equipmentTypeId)
               + (if Overlaps(nb, start, end) then LineUsage(eq2, equipmentTypeId) else 0)
  {
    var before := OverlappingRows(bookings, eq, co, start, end);
    var added := OverlappingRows([nb], eq + eq2, co + co2, start, end);
    OverlappingRowsAppend(bookings, [nb], eq + eq2, co + co2, start, end);
    OverlappingRowsIgnoreLines(bookings, eq, eq2, co, co2, start, end, nb.id);
    assert OverlappingRows(bookings + [nb], eq + eq2, co + co2, start, end) == before + added;
    UsageAppend(before, added, equipmentTypeId);
    NewBookingRowsUsage(nb, eq, eq2, co, co2, start, end, equipmentTypeId);
  }

  /** Lines of some other booking do not change the rows of these bookings. */
  lemma {:induction false} OverlappingRowsIgnoreLines(bookings: seq<Booking>, eq: seq<EquipmentLine>, eq2: seq<EquipmentLine>,
                                                      co: seq<CoachLine>, co2: seq<CoachLine>, start: int, end: int, bookingId: int)
    requires forall b :: b in bookings ==> b.id != bookingId
    requires forall l :: l in eq2 ==> l.bookingId == bookingId
    requires forall l :: l in co2 ==> l.bookingId == bookingId
    ensures OverlappingRows(bookings, eq + eq2, co + co2, start, end) == OverlappingRows(bookings, eq, co, start, end)
  {
    if bookings != [] {
      var b := bookings[0];
      assert b in bookings;
      EquipmentLinesOfAppend(eq, eq2, b.id);
      EquipmentLinesOfNone(eq2, b.id);
      CoachLinesOfAppend(co, co2, b.id);
      CoachLinesOfNone(co2, b.id);
      assert EquipmentLinesOf(eq, b.id) + [] == EquipmentLinesOf(eq, b.id);
      assert CoachLinesOf(co, b.id) + [] == CoachLinesOf(co, b.id);
      assert forall b' :: b' in bookings[1..] ==> b' in bookings;
      OverlappingRowsIgnoreLines(bookings[1..], eq, eq2, co, co2, start, end, bookingId);
    }
  }

  lemma {:induction false} UsageAppend(a: seq<OverlapRow>, b: seq<OverlapRow>, equipmentTypeId: int)
    ensures Usage(a + b, equipmentTypeId) == Usage(a, equipmentTypeId) + Usage(b, equipmentTypeId)
  {
    if b == [] {
      assert a + b == a;
    } else {
      var n := |b| - 1;
      assert (a + b)[..|a + b| - 1] == a + b[..n];
      assert (a + b)[|a + b| - 1] == b[n];
      UsageAppend(a, b[..n], equipmentTypeId);
    }
  }

  lemma {:induction false} UsageNonNegative(rows: seq<OverlapRow>, equipmentTypeId: int)
    requires forall r :: r in rows ==> Quantity(r) >= 0
    ensures Usage(rows, equipmentTypeId) >= 0
  {
    if rows != [] {
      var n := |rows| - 1;
      assert rows[n] in rows;
      assert forall r :: r in rows[..n] ==> r in rows;
      UsageNonNegative(rows[..n], equipmentTypeId);
    }
  }

  /** A row's type and quantity are those of one of the booking's equipment lines, or
      both null (a quantity of 0); so the quantity is non-negative when the lines' are. */
  lemma JoinRowQuantity(b: Booking, eq: seq<EquipmentLine>, co: seq<CoachLine>, r: OverlapRow)
    requires r in JoinRows(b, eq, co)
    requires forall l :: l in eq ==> l.quantity >= 0
    ensures || (r.equipmentTypeId.None? && r.quantity.None?)
            || exists l :: && l in eq && l.bookingId == b.id
                           && r.equipmentTypeId == Some(l.equipmentTypeId) && r.quantity == Some(l.quantity)
    ensures Quantity(r) >= 0
  {
    var es := Nullable(EquipmentLinesOf(eq, b.id));
    var cs := Nullable(CoachLinesOf(co, b.id));
    var i, j := CrossRowsOrigin(b, es, cs, r);
    NullableAt(EquipmentLinesOf(eq, b.id), i);
  }

  /** What the bookings covering one instant of a window use is at most what the
      bookings overlapping the whole window use. */
  lemma {:induction false} InstantUsageBounded(bookings: seq<Booking>, eq: seq<EquipmentLine>, co: seq<CoachLine>,
                                               start: int, end: int, x: int, equipmentTypeId: int)
    requires start <= x < end
    requires forall l :: l in eq ==> l.quantity >= 0
    ensures Usage(OverlappingRows(bookings, eq, co, x, x + 1), equipmentTypeId)
            <= Usage(OverlappingRows(bookings, eq, co, start, end), equipmentTypeId)
  {
    if bookings != [] {
      var b := bookings[0];
      var atX := if Overlaps(b, x, x + 1) then JoinRows(b, eq, co) else [];
      var inWindow := if Overlaps(b, start, end) then JoinRows(b, eq, co) else [];
      UsageAppend(atX, OverlappingRows(bookings[1..], eq, co, x, x + 1), equipmentTypeId);
      UsageAppend(inWindow, OverlappingRows(bookings[1..], eq, co, start, end), equipmentTypeId);
      InstantUsageBounded(bookings[1..], eq, co, start, end, x, equipmentTypeId);
      if !Overlaps(b, x, x + 1) && Overlaps(b, start, end) {
        forall r | r in inWindow
          ensures Quantity(r) >= 0
        {
          JoinRowQuantity(b, eq, co, r);
        }
        UsageNonNegative(inWindow, equipmentTypeId);
      }
    }
  }

  /** Units of a type held by a list of equipment lines. */
  function LineUsage(lines: seq<EquipmentLine>, equipmentTypeId: int): int
  {
    if lines == [] then 0
    else (if lines[0].equipmentTypeId == equipmentTypeId then lines[0].quantity else 0) + LineUsage(lines[1..], equipmentTypeId)
  }

  /** Units of a type held by a list of optional lines (a LEFT JOIN column). */
  function OptionalLineUsage(es: seq<Option<EquipmentLine>>, equipmentTypeId: int): int
  {
    if es == [] then 0
    else (if es[0].Some? && es[0].value.equipmentTypeId == equipmentTypeId then es[0].value.quantity else 0)
         + OptionalLineUsage(es[1..], equipmentTypeId)
  }

  lemma {:induction false} CrossRowsSingleUsage(b: Booking, es: seq<Option<EquipmentLine>>, c: Option<CoachLine>, equipmentTypeId: int)
    ensures Usage(CrossRows(b, es, [c]), equipmentTypeId) == OptionalLineUsage(es, equipmentTypeId)
  {
    if es != [] {
      var head := seq(1, j requires 0 <= j < 1 => MakeRow(b, es[0], [c][j]));
      assert head == [MakeRow(b, es[0], c)];
      UsageAppend(head, CrossRows(b, es[1..], [c]), equipmentTypeId);
      assert head[..0] == [];
      CrossRowsSingleUsage(b, es[1..], c, equipmentTypeId);
    }
  }

  lemma {:induction false} SomesUsage(lines: seq<EquipmentLine>, equipmentTypeId: int)
    ensures OptionalLineUsage(seq(|lines|, i requires 0 <= i < |lines| => Some(lines[i])), equipmentTypeId)
            == LineUsage(lines, equipmentTypeId)
  {
    var es := seq(|lines|, i requires 0 <= i < |lines| => Some(lines[i]));
    if lines != [] {
      var rest := lines[1..];
      assert es[1..] == seq(|rest|, i requires 0 <= i < |rest| => Some(rest[i]));
      SomesUsage(rest, equipmentTypeId);
    }
  }

  /** A booking with at most one coach line contributes exactly its equipment lines. */
  lemma SingleCoachJoinUsage(b: Booking, eq: seq<EquipmentLine>, co: seq<CoachLine>, equipmentTypeId: int)
    requires |CoachLinesOf(co, b.id)| <= 1
    ensures Usage(JoinRows(b, eq, co), equipmentTypeId) == LineUsage(EquipmentLinesOf(eq, b.id), equipmentTypeId)
  {
    var lines := EquipmentLinesOf(eq, b.id);
    var cs := Nullable(CoachLinesOf(co, b.id));
    assert |cs| == 1;
    assert cs == [cs[0]];
    CrossRowsSingleUsage(b, Nullable(lines), cs[0], equipmentTypeId);
    if lines != [] {
      SomesUsage(lines, equipmentTypeId);
    }
  }

  /** A coach with a 9-17 slot on day 1 is matched at 10 o'clock but not at 20 o'clock. */
  lemma ScheduleExample(coachId: int)
    ensures var slots := [CoachSlot(coachId, 1, 9, 17)];
            CoachWorking(slots, coachId, 1, 10) && !CoachWorking(slots, coachId, 1, 20)
  {
    assert CoachSlot(coachId, 1, 9, 17) in [CoachSlot(coachId, 1, 9, 17)];
  }
}
