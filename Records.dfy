/** The rows of the booking database and the lookups the services run against them.
    Tables that the booking engine only reads form the Catalog; tables it appends to
    form the Tables value. */
module Records {
  import opened Wrappers
  import Pricing

  datatype Status = Confirmed | OtherStatus(name: string)

  datatype Court = Court(id: int, name: string, isIndoor: bool, baseHourlyRate: real, isActive: bool)

  datatype EquipmentType = EquipmentType(
    id: int, name: string, totalQuantity: int, pricePerUnit: real, isActive: bool)

  datatype Coach = Coach(id: int, name: string, hourlyRate: real, isActive: bool)

  /** One weekly working window of a coach: hours [startHour, endHour) of dayOfWeek. */
  datatype CoachSlot = CoachSlot(coachId: int, dayOfWeek: int, startHour: int, endHour: int)

  /** startTime and endTime are milliseconds since the epoch. */
  datatype Booking = Booking(
    id: int, userName: string, userEmail: string,
    startTime: int, endTime: int, courtId: int, totalPrice: real, status: Status)

  datatype EquipmentLine = EquipmentLine(bookingId: int, equipmentTypeId: int, quantity: int, price: real)

  datatype CoachLine = CoachLine(bookingId: int, coachId: int, price: real)

  /** Rows the booking engine reads but never writes; rules are the active pricing
      rules in the order the rule query returns them. */
  datatype Catalog = Catalog(
    courts: seq<Court>,
    equipmentTypes: seq<EquipmentType>,
    coaches: seq<Coach>,
    slots: seq<CoachSlot>,
    rules: seq<Pricing.PricingRule>)

  /** Rows the booking engine appends to; nextBookingId is the next value of the
      bookings id sequence. */
  datatype Tables = Tables(
    bookings: seq<Booking>,
    equipmentLines: seq<EquipmentLine>,
    coachLines: seq<CoachLine>,
    nextBookingId: int)

  /** SELECT * FROM courts WHERE id = $1 AND is_active = true, first row. */
  function ActiveCourt(courts: seq<Court>, id: int): (r: Option<Court>)
    ensures r.Some? ==> r.value in courts && r.value.id == id && r.value.isActive
    ensures r.None? <==> forall c :: c in courts ==> !(c.id == id && c.isActive)
  {
    if courts == [] then None
    else if courts[0].id == id && courts[0].isActive then Some(courts[0])
    else ActiveCourt(courts[1..], id)
  }

  /** The equipment type with the given id, active or not. */
  function FindEquipmentType(types: seq<EquipmentType>, id: int): (r: Option<EquipmentType>)
    ensures r.Some? ==> r.value in types && r.value.id == id
    ensures r.None? <==> forall e :: e in types ==> e.id != id
  {
    if types == [] then None
    else if types[0].id == id then Some(types[0])
    else FindEquipmentType(types[1..], id)
  }

  /** SELECT * FROM coaches WHERE id = $1 AND is_active = true, first row. */
  function ActiveCoach(coaches: seq<Coach>, id: int): (r: Option<Coach>)
    ensures r.Some? ==> r.value in coaches && r.value.id == id && r.value.isActive
    ensures r.None? <==> forall c :: c in coaches ==> !(c.id == id && c.isActive)
  {
    if coaches == [] then None
    else if coaches[0].id == id && coaches[0].isActive then Some(coaches[0])
    else ActiveCoach(coaches[1..], id)
  }

  /** Primary keys: no two equipment types share an id. */
  predicate UniqueTypeIds(types: seq<EquipmentType>)
  {
    forall i, j :: 0 <= i < j < |types| ==> types[i].id != types[j].id
  }

  lemma {:induction false} FindUniqueType(types: seq<EquipmentType>, k: nat)
    requires UniqueTypeIds(types) && k < |types|
    ensures FindEquipmentType(types, types[k].id) == Some(types[k])
  {
    if k > 0 {
      assert types[1..][k - 1] == types[k];
      FindUniqueType(types[1..], k - 1);
    }
  }
}
