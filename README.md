# Court booking engine in Dafny

This project models the decision core of a badminton-court booking backend:

- the **pricing engine** turns a court rate, equipment selections, an optional coach
  rate and an ordered list of pricing rules into a price breakdown;
- the **booking orchestrator** validates a booking request against the catalog of
  courts, equipment types and coaches, against the CONFIRMED bookings that overlap
  the requested window and against the coach's weekly schedule, then prices the
  booking and appends it with its equipment and coach lines — or fails with
  `NOT_FOUND`, `COURT_UNAVAILABLE`, `EQUIPMENT_UNAVAILABLE` or `COACH_UNAVAILABLE`
  and changes nothing;
- the **availability query** reports, for a window, every active court, equipment
  type and coach with whether it is free and how many units remain;
- the two **request validators** in front of booking creation and coach-schedule
  replacement, with their error-code to HTTP-status mapping.

Modules, one per file:

| module | what it holds |
|---|---|
| `Wrappers` | `Option` and `Result` |
| `Http` | the JavaScript values the handlers see after `Number()` and JSON parsing, and the HTTP statuses |
| `Records` | the rows (courts, equipment types, coaches, slots, bookings, line items), the catalog and the booking tables, the catalog lookups |
| `Pricing` | the spec function `Price`, the rule loop as the method `CalculateBookingPrice`, and what the rules do |
| `Conflicts` | the overlap query (`bookings LEFT JOIN booking_equipments LEFT JOIN booking_coaches`, CONFIRMED and half-open overlap), busy courts and coaches, equipment usage and the coach schedule match |
| `Bookings` | the spec function `Book`, the class `BookingStore` whose `CreateBooking` mutates the tables, the check-by-check characterisation and the invariants a booking preserves |
| `Availability` | the spec function `Report` and the method `GetAllAvailableItems` |
| `Agreement` | how the availability report predicts the orchestrator's checks |
| `AdminController`, `BookingsController` | the validators and the status mapping |

Representation choices:

- Times are milliseconds since the epoch (`int`).
- The local day-of-week and hour of the start are inputs, and the duration in hours
  is `(end - start) / 3600000` as a `real`.
- Money is `real`.
- The SQL tables are sequences of rows. `Tables` holds the bookings, the two kinds of
  line item and the next value of the booking id sequence.
- The overlap query is computed from those rows.
  - Each CONFIRMED booking whose window meets `[start, end)` yields one row for every
    pairing of one of its equipment lines (or none) with one of its coach lines (or
    none).
  - So the busy sets and the usage sums are exactly those the source computes.
- `Book(c, t, req)` is the whole transaction as a value: the outcome and the tables
  afterwards.
  - `BookingStore.CreateBooking` follows the source step by step: load and check,
    the overlap query, the usage loop, the per-item loop, pricing, then the inserts.
  - It is proved to produce exactly `Book`'s outcome and tables.
  - On any failure the tables are those before the call, which mirrors the rollback.

Behaviour the proofs make explicit:

- Courts never double-book: `CourtsStayExclusive`.
- Coaches never double-book: `CoachesStayExclusive`.
- Equipment stays within its total quantity at every instant, provided the request
  names each type at most once (`EquipmentStaysWithinCapacity`).
  - Each item is checked against the same usage figure, so two items of one type are
    not summed.
  - `DuplicateItemsExceedCapacity` shows 3 + 3 units of a type with 5 in total being
    accepted.
- The coach schedule is checked at the start hour only. `CoachScheduleExample` accepts
  a 16:00–19:00 booking against a 9–17 slot.
- A `NaN` equipment quantity passes the controller's item check, because `NaN <= 0`
  is false (`NaNQuantityAccepted`).
- The admin validator's `startHour <= 23` check refuses `startHour` 23.5 even though
  23.5 < `endHour` 24 (`FractionalLateStartRejected`).

## Model

| member | source | states |
|---|---|---|
| Records.ActiveCourt | src/modules/bookings/bookings.service.ts:28-37 | finds a court that has the id and is active, or reports that none is |
| Records.FindEquipmentType | src/modules/bookings/bookings.service.ts:40-57 | finds an equipment type with the id whatever its active flag, or reports that none is |
| Records.ActiveCoach | src/modules/bookings/bookings.service.ts:71-83 | finds a coach that has the id and is active, or reports that none is |
| Records.FindUniqueType | src/modules/bookings/bookings.service.ts:54-57 | with unique type ids, looking up a type's id yields that type |
| Pricing.Price | src/modules/bookings/pricing.ts:76-168 | the spec function: the three bases, the adjustments of the rules in rule order, and total = bases + adjustments (its properties are the lemmas below) |
| Pricing.RuleAdjustment | src/modules/bookings/pricing.ts:103-161 | the spec of one loop iteration: nothing when a filter fails, the base is <= 0 or the amount is 0; otherwise the rule's id, name, applies_to and amount |
| Pricing.CalculateBookingPrice | src/modules/bookings/pricing.ts:76-180 | the loop over the rules yields exactly the breakdown `Price` specifies: the three bases, the adjustments in rule order, and the total before rounding |
| Pricing.AdjustmentsStep | src/modules/bookings/pricing.ts:103-161 | loop helper for `CalculateBookingPrice`'s invariant: one more iteration appends exactly what that rule records |
| Pricing.ApplyRule | src/modules/bookings/pricing.ts:103-161 | one pass of the loop body: it continues (None) when a filter fails, when the base is <= 0 or when the amount is 0; otherwise it pushes the rule's adjustment |
| Pricing.ContributionsSnoc | src/modules/bookings/pricing.ts:103-161 | one more rule adds its adjustment's amount, or nothing, to the contributions |
| Pricing.SumAmountsAppend | src/modules/bookings/pricing.ts:163-166 | the sum of adjustment amounts is additive over concatenation |
| Pricing.SumOfAdjustmentsIsContributions | src/modules/bookings/pricing.ts:163-166 | the summed adjustments equal the per-rule contributions |
| Pricing.TotalIsBasesPlusContributions | src/modules/bookings/pricing.ts:163-168 | total = baseCourt + baseEquipment + baseCoach + what every rule contributes |
| Pricing.NothingRecorded | src/modules/bookings/pricing.ts:103-161 | when no rule yields an adjustment, the list is empty |
| Pricing.NoApplicableRuleTotalIsBases | src/modules/bookings/pricing.ts:163-168 | with no applicable rule, no adjustments and total = the sum of the bases |
| Pricing.AdjustmentsSound | src/modules/bookings/pricing.ts:103-161 | every recorded adjustment is the adjustment of some rule |
| Pricing.AdjustmentsComplete | src/modules/bookings/pricing.ts:103-161 | every rule's adjustment, when it has one, is recorded |
| Pricing.AdjustmentsComeFromRules | src/modules/bookings/pricing.ts:103-161 | each adjustment belongs to a rule that passed every filter with a positive base; it carries that rule's id, name and applies_to, with a non-zero amount of base*(value-1) or value |
| Pricing.MatchingRuleIsRecorded | src/modules/bookings/pricing.ts:103-161 | a rule that passes the filters with a positive base and a non-zero amount is recorded with that amount |
| Pricing.SkippedRuleLeavesNoTrace | src/modules/bookings/pricing.ts:103-161 | a rule that yields no adjustment leaves no adjustment with its id (ids in ascending order) |
| Pricing.WeekendMismatchSkipped | src/modules/bookings/pricing.ts:97-107 | a rule whose is_weekend is set and differs from "start day is 0 or 6" contributes nothing |
| Pricing.HourWindowSkipped | src/modules/bookings/pricing.ts:109-114 | with both hour bounds set, a rule contributes nothing unless start_hour <= hour < end_hour |
| Pricing.IndoorOnlySkippedOutdoors | src/modules/bookings/pricing.ts:116-119 | an indoor-only rule never applies to an outdoor court |
| Pricing.NonPositiveBaseSkipped | src/modules/bookings/pricing.ts:121-141 | a rule whose selected base (OVERALL: the sum of all three) is <= 0 contributes nothing, FLAT rules included |
| Pricing.ZeroAdjustmentDropped | src/modules/bookings/pricing.ts:143-153 | a MULTIPLIER of 1 or a FLAT of 0 is dropped |
| Pricing.AdjustmentIdsAscend | src/modules/bookings/pricing.ts:103-161 | with rules in ascending id order, the recorded adjustments' rule ids ascend strictly |
| Pricing.AdjustmentsFollowRuleOrder | src/modules/bookings/pricing.ts:103-161 | the breakdown's adjustments keep the rules' order |
| Pricing.EquipmentBaseAppend | src/modules/bookings/pricing.ts:91-93 | the equipment base (the sum of unit price times quantity) is additive over concatenation |
| Pricing.EquipmentBaseNonNegative | src/modules/bookings/pricing.ts:91-93 | with non-negative prices and quantities the equipment base is non-negative |
| Pricing.MultiplierExample | src/modules/bookings/pricing.ts:145-147 | base 400 with multiplier 1.5 gives +200 |
| Pricing.CourtOnlyExample | src/modules/bookings/pricing.ts:89-95 | 2 hours indoor at 400/h with no equipment, coach or rules: baseCourt 800, baseEquipment 0, baseCoach 0, no adjustments, total 800 |
| Pricing.SaturdayMultiplierExample | src/modules/bookings/pricing.ts:97-168 | the same booking with a weekend COURT multiplier of 1.5 starting on a Saturday: +400, total 1200 |
| Pricing.TuesdayMultiplierExample | src/modules/bookings/pricing.ts:97-168 | on a Tuesday that rule is skipped: no adjustment, total 800 |
| Conflicts.OverlappingRows | src/modules/bookings/bookings.service.ts:86-102 | the spec function of the overlap query: the joined rows of the CONFIRMED bookings meeting the window, in booking order |
| Conflicts.Usage | src/modules/bookings/bookings.service.ts:116-123 | the spec function of the usage sum: per type, the quantities (`quantity \|\| 0`) of the rows naming it |
| Conflicts.CoachWorking | src/modules/bookings/bookings.service.ts:152-173 | the schedule match: some slot of the coach on that day with start_hour <= hour and end_hour >= hour + 1 |
| Conflicts.EquipmentLinesOf | src/modules/bookings/bookings.service.ts:95 | selects exactly the equipment lines of the booking |
| Conflicts.CoachLinesOf | src/modules/bookings/bookings.service.ts:96 | selects exactly the coach lines of the booking |
| Conflicts.Nullable | src/modules/bookings/bookings.service.ts:95-96 | a LEFT JOIN side always yields at least one (possibly null) match |
| Conflicts.CollectEquipmentUsage | src/modules/bookings/bookings.service.ts:116-123 | the usage map gives, per type, the sum of quantities over the overlapping rows naming that type (`quantity \|\| 0`); its keys are exactly the types some row names |
| Conflicts.CrossRowsInclude | src/modules/bookings/bookings.service.ts:94-96 | every pairing of an equipment match with a coach match is a row |
| Conflicts.CrossRowsOrigin | src/modules/bookings/bookings.service.ts:94-96 | every row is such a pairing |
| Conflicts.NullableAt | src/modules/bookings/bookings.service.ts:95-96 | a non-null join match is one of the joined lines |
| Conflicts.JoinRowOrigin | src/modules/bookings/bookings.service.ts:88-96 | a booking's row carries its id and court, and a coach only from its coach lines |
| Conflicts.JoinRowsNonEmpty | src/modules/bookings/bookings.service.ts:94-96 | every booking yields at least one row carrying its court |
| Conflicts.JoinRowsShowCoach | src/modules/bookings/bookings.service.ts:93-96 | each coach line of a booking shows up in one of its rows |
| Conflicts.OverlappingRowsOrigin | src/modules/bookings/bookings.service.ts:86-102 | every overlapping row comes from a CONFIRMED booking with start_time < end and end_time > start |
| Conflicts.OverlappingRowsInclude | src/modules/bookings/bookings.service.ts:86-102 | every row of every such booking is in the result |
| Conflicts.CourtBusyIff | src/modules/bookings/bookings.service.ts:105-113 | some row names the court iff a CONFIRMED booking of that court overlaps the window |
| Conflicts.CoachBusyIff | src/modules/bookings/bookings.service.ts:141-150 | some row names the coach iff an overlapping CONFIRMED booking has a coach line for it |
| Conflicts.EquipmentLinesOfAppend | src/modules/bookings/bookings.service.ts:95 | selecting a booking's equipment lines distributes over concatenation |
| Conflicts.CoachLinesOfAppend | src/modules/bookings/bookings.service.ts:96 | the same for coach lines |
| Conflicts.EquipmentLinesOfNone | src/modules/bookings/bookings.service.ts:95 | lines of other bookings are not selected |
| Conflicts.CoachLinesOfNone | src/modules/bookings/bookings.service.ts:96 | the same for coach lines |
| Conflicts.EquipmentLinesOfAll | src/modules/bookings/bookings.service.ts:95 | lines all of this booking are all selected, in order |
| Conflicts.CoachLinesOfAll | src/modules/bookings/bookings.service.ts:96 | coach lines all of this booking are all selected, in order |
| Conflicts.OverlappingRowsSingle | src/modules/bookings/bookings.service.ts:86-102 | one booking yields its joined rows when CONFIRMED and overlapping, none otherwise |
| Conflicts.OverlappingRowsCons | src/modules/bookings/bookings.service.ts:86-102 | the rows of a list starting with a booking are its rows followed by the rest's |
| Conflicts.OverlappingRowsAppend | src/modules/bookings/bookings.service.ts:86-102 | the rows of two booking lists one after the other are their rows one after the other |
| Conflicts.OverlappingRowsIgnoreLines | src/modules/bookings/bookings.service.ts:86-102 | lines of a booking not in the list leave the rows unchanged |
| Conflicts.UsageAppend | src/modules/bookings/bookings.service.ts:116-123 | usage is additive over concatenated rows |
| Conflicts.UsageNonNegative | src/modules/bookings/bookings.service.ts:116-123 | rows with non-negative quantities have non-negative usage |
| Conflicts.JoinRowQuantity | src/modules/bookings/bookings.service.ts:91-95 | a row's type and quantity are those of one of the booking's equipment lines, or both null (quantity 0); so the quantity is non-negative when the lines' are |
| Conflicts.InstantUsageBounded | src/modules/bookings/bookings.service.ts:86-123 | usage by the bookings covering one instant of a window is at most usage over the whole window |
| Conflicts.CrossRowsSingleUsage | src/modules/bookings/bookings.service.ts:94-96 | with one coach match, the rows hold each equipment line's quantity once |
| Conflicts.SomesUsage | src/modules/bookings/bookings.service.ts:95 | the non-null join side holds the lines' quantities |
| Conflicts.SingleCoachJoinUsage | src/modules/bookings/bookings.service.ts:94-123 | a booking with at most one coach line contributes exactly its equipment lines' quantities |
| Conflicts.NewBookingRowsUsage | src/modules/bookings/bookings.service.ts:86-123 | a new booking owning its lines and at most one coach line holds exactly its equipment lines' units in a window it overlaps, and none otherwise |
| Conflicts.UsageWithNewBooking | src/modules/bookings/bookings.service.ts:86-123 | adding such a booking raises a window's usage by its lines' units when it overlaps, and leaves it as it was otherwise |
| Conflicts.ScheduleExample | src/modules/bookings/bookings.service.ts:152-173 | a 9–17 slot on day 1 matches at 10 and not at 20 |
| Bookings.Check | src/modules/bookings/bookings.service.ts:28-173 | the spec function of the checks, in source order, the first failure deciding the code |
| Bookings.Book | src/modules/bookings/bookings.service.ts:20-257 | the spec function of the transaction: the outcome and the tables after it |
| Bookings.IndexEquipment | src/modules/bookings/bookings.service.ts:39-57 | the map keyed by id holds, for each requested id that exists, its equipment row |
| Bookings.AllLoaded | src/modules/bookings/bookings.service.ts:59-68 | passes iff every requested type was loaded |
| Bookings.AllFit | src/modules/bookings/bookings.service.ts:125-138 | passes iff every item's quantity <= total_quantity − usage |
| Bookings.BookingStore.CheckRequest | src/modules/bookings/bookings.service.ts:22-173 | the checks run in source order; the error reported is exactly the first failing check (none when all pass); on success the court, equipment rows and coach rate are those the pricing step needs |
| Bookings.BookingStore.QuoteRequest | src/modules/bookings/bookings.service.ts:176-204 | prices a checked request with the loaded rows; the breakdown is the pricing engine's for the court rate, the unit prices and the coach rate |
| Bookings.BookFails | src/modules/bookings/bookings.service.ts:253-255 | a failing check leaves the tables as they were |
| Bookings.BookSucceeds | src/modules/bookings/bookings.service.ts:176-251 | passing all checks appends the priced booking, its lines and its coach line |
| Bookings.BookKeepsTablesValid | src/modules/bookings/bookings.service.ts:206-218 | a booking takes the next id, so booking ids keep ascending and every id in use stays below the next value |
| Bookings.BookingStore.CreateBooking | src/modules/bookings/bookings.service.ts:20-257 | result and new tables are exactly `Book`'s; the id invariant is kept |
| Bookings.BookingStore.InsertEquipmentLines | src/modules/bookings/bookings.service.ts:220-232 | appends one line per item with its quantity and unit price, and changes nothing else |
| Bookings.NotFoundIff | src/modules/bookings/bookings.service.ts:28-83 | NOT_FOUND iff the court is missing or inactive, or a requested type is missing, or a requested coach is missing or inactive |
| Bookings.CourtUnavailableIff | src/modules/bookings/bookings.service.ts:105-113 | COURT_UNAVAILABLE iff everything exists and a CONFIRMED booking of the court overlaps the window |
| Bookings.EquipmentUnavailableIff | src/modules/bookings/bookings.service.ts:115-138 | EQUIPMENT_UNAVAILABLE iff everything exists, the court is free, and some item asks for more than total − usage |
| Bookings.CoachUnavailableIff | src/modules/bookings/bookings.service.ts:140-173 | COACH_UNAVAILABLE iff earlier checks pass, a coach is requested, and either it has an overlapping coach line or no slot covers the start hour |
| Bookings.SuccessIff | src/modules/bookings/bookings.service.ts:28-173 | success iff every check passes, in those terms |
| Bookings.BookEffect | src/modules/bookings/bookings.service.ts:204-255 | failure changes nothing. Success adds one CONFIRMED booking at the next id with total_price = the breakdown's total, one line per item with its quantity and unit price, and a coach line at baseCoach iff a coach was requested |
| Bookings.CourtsStayExclusive | src/modules/bookings/bookings.service.ts:86-113 | if no two clashing CONFIRMED bookings share a court before, none do after |
| Bookings.CoachesStayExclusive | src/modules/bookings/bookings.service.ts:140-150 | if no two clashing CONFIRMED bookings have coach lines for the same coach before, none do after |
| Bookings.CoachPairDistinct | src/modules/bookings/bookings.service.ts:140-150 | after a successful call, any two clashing bookings' coach lines name different coaches |
| Bookings.OneSideNew | src/modules/bookings/bookings.service.ts:141-150 | the new coach line and a clashing old booking's coach line name different coaches |
| Bookings.NewLinesUsage | src/modules/bookings/bookings.service.ts:220-232 | the new lines hold what the items ask for, per type |
| Bookings.ItemUsageAbsent | src/modules/bookings/bookings.service.ts:125-138 | items not naming a type ask for none of it |
| Bookings.ItemUsageDistinct | src/modules/bookings/bookings.service.ts:125-138 | with each type named once, the request asks for exactly that item's quantity |
| Bookings.NewUsageAt | src/modules/bookings/bookings.service.ts:86-123 | after a booking, usage at an instant is the old usage plus the request's units when the instant falls inside its window |
| Bookings.EquipmentStaysWithinCapacity | src/modules/bookings/bookings.service.ts:115-138 | for requests naming each type once with non-negative quantities: if no type is over its total at any instant before, none is after |
| Bookings.NewLineNonNegative | src/modules/bookings/bookings.service.ts:220-232 | with non-negative items every stored equipment quantity stays non-negative |
| Bookings.InstantWithinCapacity | src/modules/bookings/bookings.service.ts:115-138 | one type at one instant stays within its total after a successful call |
| Bookings.DuplicateItemsExceedCapacity | src/modules/bookings/bookings.service.ts:125-138 | two items of 3 units of a type with 5 in total are both accepted, and 6 units are then in use |
| Bookings.OverRequestExample | src/modules/bookings/bookings.service.ts:125-138 | 6 units of a type with 5 in total, none booked: EQUIPMENT_UNAVAILABLE |
| Bookings.CoachScheduleExample | src/modules/bookings/bookings.service.ts:152-173 | with a 9–17 slot: a 10:00 start passes, a 20:00 start is COACH_UNAVAILABLE, and a 16:00–19:00 booking passes |
| Availability.Filter | src/modules/availability/availability.service.ts:30-32 | a `WHERE` clause: the kept rows are exactly the table's rows that satisfy it, and there are no more of them than rows |
| Availability.FilterCount | src/modules/availability/availability.service.ts:30-32 | a kept row occurs as often as in the table, a dropped one never: no row is repeated or invented |
| Availability.FilterAppend | src/modules/availability/availability.service.ts:30-32 | filtering distributes over concatenation, so the kept rows stay in table order |
| Availability.FilterSingle | src/modules/availability/availability.service.ts:30-32 | one row is kept iff it satisfies the clause |
| Availability.FilterComplete | src/modules/availability/availability.service.ts:30-32 | every row that satisfies the clause has a position in the result |
| Availability.ActiveCourts | src/modules/availability/availability.service.ts:30 | exactly the active courts (as `Filter`: in table order, each as often as in the table) |
| Availability.ActiveEquipment | src/modules/availability/availability.service.ts:31 | exactly the active equipment types (as `Filter`) |
| Availability.ActiveCoaches | src/modules/availability/availability.service.ts:32 | exactly the active coaches (as `Filter`) |
| Availability.Report | src/modules/availability/availability.service.ts:25-136 | the spec function of the query: one entry per active court, type and coach, in table order, with its availability |
| Availability.BusyCourtIds | src/modules/availability/availability.service.ts:54-60 | the set holds exactly the courts some overlapping row names |
| Availability.BusyCoachIds | src/modules/availability/availability.service.ts:93-99 | the set holds exactly the coaches some overlapping row names |
| Availability.WorkingCoachIds | src/modules/availability/availability.service.ts:101-117 | the set holds exactly the coaches with a slot on the day, start_hour <= hour and end_hour >= hour + 1 |
| Availability.GetAllAvailableItems | src/modules/availability/availability.service.ts:25-136 | the result is exactly `Report` for the window |
| Availability.CourtEntriesMatchActiveCourts | src/modules/availability/availability.service.ts:62-68 | one court entry per active court, in order, with its id and name, and every active court is listed |
| Availability.EquipmentEntriesMatchActiveTypes | src/modules/availability/availability.service.ts:82-91 | one equipment entry per active type, in order, with its id and price, and every active type is listed |
| Availability.CoachEntriesMatchActiveCoaches | src/modules/availability/availability.service.ts:119-130 | one coach entry per active coach, in order, with its id and rate, and every active coach is listed |
| Availability.CourtAvailableIff | src/modules/availability/availability.service.ts:54-68 | a court is available iff no CONFIRMED booking of it overlaps the window |
| Availability.AvailableQuantityClamped | src/modules/availability/availability.service.ts:82-91 | the remaining quantity is >= 0, >= total − used, and equals one of them |
| Availability.CoachAvailableIff | src/modules/availability/availability.service.ts:93-130 | a coach is available iff a slot covers the start hour and no overlapping booking has a coach line for it |
| Agreement.CourtAgreement | src/modules/availability/availability.service.ts:54-68 | with the other resources found, the orchestrator's COURT_UNAVAILABLE coincides with the report's "not available" |
| Agreement.EquipmentAgreement | src/modules/availability/availability.service.ts:82-91 | a positive quantity passes the orchestrator's item check iff it is <= the reported remaining quantity |
| Agreement.CoachAgreement | src/modules/availability/availability.service.ts:119-130 | once court and equipment pass, a request with a coach succeeds iff the report marks the coach available |
| AdminController.SlotProblem | src/modules/admin/admin.controller.ts:104-134 | the checks on one slot in source order: 500 for a null entry, 400 for a non-number field or a range failure, none otherwise |
| AdminController.FirstSlotProblem | src/modules/admin/admin.controller.ts:103-135 | the slot loop: the first entry with a problem decides |
| AdminController.ValidateSetAvailability | src/modules/admin/admin.controller.ts:90-135 | the guards before the service call; a refusal is always 400 or 500 |
| AdminController.SetAvailabilityStatus | src/modules/admin/admin.controller.ts:90-150 | the status of the request: always 200, 400, 404 or 500 |
| AdminController.SlotProblemNone | src/modules/admin/admin.controller.ts:104-134 | a slot passes iff its three fields are numbers in range (0 <= startHour <= 23, 1 <= endHour <= 24, startHour < endHour, 0 <= dayOfWeek <= 6); a failing slot gives 400, or 500 when it is null |
| AdminController.FirstSlotProblemNone | src/modules/admin/admin.controller.ts:103-135 | the loop passes iff every slot passes |
| AdminController.FirstSlotProblemAt | src/modules/admin/admin.controller.ts:103-135 | the first failing slot decides: 500 if it is null, 400 otherwise |
| AdminController.FirstSlotProblemStatus | src/modules/admin/admin.controller.ts:103-135 | the loop stops only with 400 or 500 |
| AdminController.InvalidCoachIdRejected | src/modules/admin/admin.controller.ts:90-95 | a coach id of 0 or NaN gives 400 before any slot is looked at |
| AdminController.ServiceCalledIff | src/modules/admin/admin.controller.ts:90-137 | the service is called iff the id is a non-zero number and the slots form a non-empty array of in-range slots; it gets those slots in order, each with 0 <= startHour < endHour <= 24 and day in 0..6 |
| AdminController.StatusMapping | src/modules/admin/admin.controller.ts:137-150 | 200 iff accepted and saved; 404 iff accepted and COACH_NOT_FOUND; 500 when accepted and the service fails otherwise; a refused request gets 400 or 500 |
| AdminController.MissingSlotsRejected | src/modules/admin/admin.controller.ts:97-101 | with a valid coach id, slots that are not an array or are empty give 400 |
| AdminController.FractionalLateStartRejected | src/modules/admin/admin.controller.ts:115-119 | startHour 23.5 with endHour 24 is refused with 400 |
| BookingsController.NormaliseEquipment | src/modules/bookings/bookings.controller.ts:53-58 | `equipment?.map(...) ?? []`: [] when absent, each item through Number() in order, a throw (None) on a falsy scalar or a null element |
| BookingsController.ValidateBooking | src/modules/bookings/bookings.controller.ts:17-72 | the guards in source order; a refusal is always 400 or 500 |
| BookingsController.ErrorStatus | src/modules/bookings/bookings.controller.ts:86-99 | the catch block's status: always 400, 404 or 500 |
| BookingsController.CreateBookingStatus | src/modules/bookings/bookings.controller.ts:72-99 | the status of the request: always 201, 400, 404 or 500 |
| BookingsController.FirstBadItemIff | src/modules/bookings/bookings.controller.ts:60-67 | the item loop refuses iff some item has a zero or NaN type id or a numeric quantity <= 0 |
| BookingsController.ServiceCalledIff | src/modules/bookings/bookings.controller.ts:17-72 | the orchestrator is called iff the guards all hold: non-empty name and email strings, parsable start < end, a non-zero numeric courtId, equipment absent or an array of non-null, valid items |
| BookingsController.Normalisation | src/modules/bookings/bookings.controller.ts:53-80 | an accepted request passes on the strings, times and courtId. Absent equipment becomes [], each item goes through Number() in order, and coachId is None when absent, Number(coachId) otherwise |
| BookingsController.InternalErrorIff | src/modules/bookings/bookings.controller.ts:17-67 | a refusal is 500 iff every guard before the equipment mapping passes and the mapping throws (a falsy scalar, or an array with a null element); every other refusal is 400 |
| BookingsController.NullItemGivesInternalError | src/modules/bookings/bookings.controller.ts:54-58 | a null element anywhere in the equipment array gives 500, even after an invalid item |
| BookingsController.ErrorStatusMapping | src/modules/bookings/bookings.controller.ts:86-99 | the three *_UNAVAILABLE codes map to 400, NOT_FOUND to 404, an error without a code to 500 |
| BookingsController.CreatedIff | src/modules/bookings/bookings.controller.ts:72-99 | 201 iff accepted and created; 404 iff accepted and NOT_FOUND |
| BookingsController.NaNQuantityAccepted | src/modules/bookings/bookings.controller.ts:60-67 | an item with a NaN quantity passes the check |

## Left out

- round2 (`Number(n.toFixed(2))`, src/modules/bookings/pricing.ts:87, 170-179) depends on IEEE-754 formatting; amounts are exact `real`s.
- Pricing.CalculateBookingPrice: the breakdown and total are not rounded to cents, so the total identity holds exactly rather than up to rounding.
- Bookings.BookingStore.CreateBooking: the stored total_price, the coach line's stored price (the breakdown's baseCoach, src/modules/bookings/bookings.service.ts:238-242) and the returned breakdown are unrounded for the same reason.
- SQL and the connection pool are not modelled. Rows are sequences.
  - The active pricing rules (`getActivePricingRulesService`, ordered by id) are part of the catalog rather than queried.
  - The id order is a hypothesis (`AscendingIds`) of the lemmas that need it.
- Transactions and concurrency are not modelled. The rollback becomes "a failed call leaves the tables unchanged".
  - Two requests racing past each other's checks depend on database isolation, which the source does not set.
  - The invariants are proved for one request at a time.
  - The parallel catalog loads of the availability query are plain reads.
- Dates and time zones are inputs.
  - `getDay()`/`getHours()` are local-time inputs (day-of-week and start hour).
  - `new Date(...)` is a parsed millisecond value, or an Invalid Date, in the controller input.
- JavaScript coercions are inputs.
  - `Number(...)`, `typeof` and truthiness are folded into the controllers' input datatypes: a string, or not; a number, or not; NaN, or a number.
  - `Numeric` and `JsonNumber` have no ±Infinity, which a JSON literal too large for a double (`1e400`) or `Number("Infinity")` produces. No modelled outcome depends on it: +Infinity passes every guard as a large number does, and -Infinity fails `<= 0` as a negative number does.
  - A body that is not an object is not modelled.
- Controller and orchestrator are not composed.
  - The orchestrator's outcome is a parameter of `CreateBookingStatus`.
  - The orchestrator's ids and quantities are integers. A non-integral or NaN id or quantity reaching it (which it would then look up or insert) is not modelled.
- setCoachAvailabilityService (delete-then-insert of a coach's slots) is not part of this model. Its outcome (saved, COACH_NOT_FOUND, other error) is a parameter of `SetAvailabilityStatus`.
- Bookings.EquipmentStaysWithinCapacity: holds only for requests naming each type once with non-negative quantities. The source checks duplicate items separately against the same usage, and `DuplicateItemsExceedCapacity` shows the overrun that follows.
- Records.FindEquipmentType returns the first row with the id, while the source's map keeps the last. The two agree under unique primary keys, which `BookingStore.Valid` requires.
- The active-row queries of the availability service have no `ORDER BY`; the model returns the rows in table order.
- The booking's `created_at` and `updated_at` columns, which the insert fills with `NOW()` (src/modules/bookings/bookings.service.ts:210-212), are not modelled: no check or result reads them.
- Error messages are not modelled. Errors are the codes `NOT_FOUND`, `COURT_UNAVAILABLE`, `EQUIPMENT_UNAVAILABLE` and `COACH_UNAVAILABLE`, plus "no code".
- The HTTP plumbing, the CRUD controllers and services, and the availability controller are outside the core.
