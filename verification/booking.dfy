/**
 * A reservation (src/classes/booking.ts). Its dates, discount and the
 * snapshot of the room's terms are fixed once built; only the class-wide id
 * counter changes, once per construction. Every check on a booking is lazy:
 * construction accepts anything, and each operation validates what it needs.
 */
module Bookings {
  import opened Validation
  import opened Optional
  import Percentages

  /**
   * The `RoomJSON` shape: a room's name, its bookings as ids, its rate and
   * its discount. A booking keeps one as the terms it was booked against.
   */
  datatype RoomJson = RoomJson(name: string, bookings: seq<int>, rate: real, discount: real)

  datatype Booking = Booking(
    id: int,
    name: string,
    email: string,
    checkIn: int,
    checkOut: int,
    discount: real,
    room: RoomJson)

  /** The constructor's options; a field left `None` takes its default. */
  datatype BookingInput = BookingInput(
    name: Option<string>,
    email: Option<string>,
    checkIn: Option<int>,
    checkOut: Option<int>,
    discount: Option<real>,
    room: Option<RoomJson>)

  /** 2023-01-01T00:00:00Z and 2024-12-12T00:00:00Z, the default stay. */
  const DefaultCheckIn: int := 1672531200000
  const DefaultCheckOut: int := 1733961600000
  const DefaultDiscount: real := 10.0
  /** The terms a booking gets when no room is given: free of charge. */
  const NoRoom: RoomJson := RoomJson("", [], 0.0, 0.0)

  /**
   * The fields the constructor initialises, for a given id: every given
   * field is stored as it is, unchecked, and every absent one takes its
   * default; the default stay is a valid one and the default room is free.
   */
  function Build(id: int, input: BookingInput): (b: Booking)
    ensures b.id == id
    ensures b.name == input.name.OrDefault("new booking") && b.email == input.email.OrDefault("email@example.com")
    ensures input.checkIn.Some? ==> b.checkIn == input.checkIn.value
    ensures input.checkOut.Some? ==> b.checkOut == input.checkOut.value
    ensures input.discount.Some? ==> b.discount == input.discount.value
    ensures input.room.Some? ==> b.room == input.room.value
    ensures input.checkIn == None ==> b.checkIn == DefaultCheckIn
    ensures input.checkOut == None ==> b.checkOut == DefaultCheckOut
    ensures input.checkIn == None && input.checkOut == None ==> b.checkIn < b.checkOut
    ensures input.discount == None ==> b.discount == DefaultDiscount && 0.0 <= b.discount <= 100.0
    ensures input.room == None ==> b.room.rate == 0.0 && b.room.discount == 0.0 && b.room.bookings == []
  {
    Booking(
      id,
      input.name.OrDefault("new booking"),
      input.email.OrDefault("email@example.com"),
      input.checkIn.OrDefault(DefaultCheckIn),
      input.checkOut.OrDefault(DefaultCheckOut),
      input.discount.OrDefault(DefaultDiscount),
      input.room.OrDefault(NoRoom))
  }

  /**
   * The static `Booking.idCount`: the id the next booking gets. `issued`
   * records, for the proof only, every id handed out so far.
   */
  class IdCounter {
    var idCount: int
    ghost var issued: set<int>

    ghost predicate Valid()
      reads this
    {
      forall i :: i in issued ==> i < idCount
    }

    constructor ()
      ensures Valid()
      ensures idCount == 1 && issued == {}
    {
      idCount := 1;
      issued := {};
    }

    /**
     * `new Booking(input)`: takes the current count as the id and increments
     * the count; no field is validated.
     */
    method NewBooking(input: BookingInput) returns (b: Booking)
      requires Valid()
      modifies this
      ensures Valid()
      ensures b == Build(old(idCount), input)
      ensures idCount == old(idCount) + 1
      ensures forall i :: i in old(issued) ==> i < b.id
      ensures issued == old(issued) + {b.id}
    {
      b := Build(idCount, input);
      issued := issued + {idCount};
      idCount := idCount + 1;
    }
  }

  /** Two bookings built one after the other get distinct, increasing ids. */
  method BuildTwo(ids: IdCounter, first: BookingInput, second: BookingInput) returns (a: Booking, b: Booking)
    requires ids.Valid()
    modifies ids
    ensures ids.Valid()
    ensures a.id < b.id && b.id == a.id + 1
    ensures ids.idCount == old(ids.idCount) + 2
    ensures a.id !in old(ids.issued) && b.id !in old(ids.issued)
  {
    a := ids.NewBooking(first);
    b := ids.NewBooking(second);
  }

  /** `datesValidation`: throws the check-in/check-out error on inverted dates, else returns true. */
  function DatesValidation(b: Booking): (r: Result<bool>)
    ensures r.Ok? <==> b.checkIn <= b.checkOut
    ensures r.Ok? ==> r.value
    ensures r.Err? ==> r.error == CheckDatesRangeInvalid
  {
    if b.checkIn > b.checkOut then Err(CheckDatesRangeInvalid) else Ok(true)
  }

  /**
   * A booking's own dates and a query range fail in the same cases, but with
   * different kinds.
   */
  lemma DateErrorKindsDiffer(b: Booking)
    ensures DatesValidation(b).Err? <==> Validation.DatesValidation(b.checkIn, b.checkOut).Err?
    ensures DatesValidation(b).Err? ==>
      DatesValidation(b).error != Validation.DatesValidation(b.checkIn, b.checkOut).error
  {
  }

  /**
   * The `fee` getter: throws when the booking discount is outside [0,100]
   * (the snapshot's discount is not checked); otherwise the room discount and
   * then the booking discount are taken off the snapshot's rate.
   */
  function Fee(b: Booking): (r: Result<real>)
    ensures r.Err? <==> b.discount < 0.0 || b.discount > 100.0
    ensures r.Err? ==> r.error == PercentOutOfRange
    ensures r.Ok? ==> r.value * 10000.0 == b.room.rate * (100.0 - b.room.discount) * (100.0 - b.discount)
  {
    if b.discount < 0.0 || b.discount > 100.0 then Err(PercentOutOfRange)
    else Ok(Percentages.GetFee(b.room.rate, b.room.discount, b.discount))
  }

  /** With sane room terms, a fee never exceeds the rate. */
  lemma FeeWithinRate(b: Booking)
    requires b.room.rate >= 0.0 && 0.0 <= b.room.discount <= 100.0
    ensures Fee(b).Ok? ==> 0.0 <= Fee(b).value <= b.room.rate
  {
    if Fee(b).Ok? {
      Percentages.FeeWithinPrice(b.room.rate, b.room.discount, b.discount);
    }
  }

  /** `occupiedDays`: validates the dates, then the stay's length in milliseconds. */
  function OccupiedDays(b: Booking): (r: Result<int>)
    ensures r.Err? <==> b.checkIn > b.checkOut
    ensures r.Err? ==> r.error == CheckDatesRangeInvalid
    ensures r.Ok? ==> r.value >= 0 && b.checkIn + r.value == b.checkOut
  {
    match DatesValidation(b)
    case Err(e) => Err(e)
    case Ok(_) => Ok(b.checkOut - b.checkIn)
  }

  /**
   * `isOccupied`: validates the dates, then tells whether `date` lies in the
   * stay, both the check-in and the check-out instant included.
   */
  function IsOccupied(b: Booking, date: int): (r: Result<bool>)
    ensures r.Err? <==> b.checkIn > b.checkOut
    ensures r.Err? ==> r.error == CheckDatesRangeInvalid
    ensures r.Ok? ==> (r.value <==> b.checkIn <= date <= b.checkOut)
  {
    match DatesValidation(b)
    case Err(e) => Err(e)
    case Ok(_) => Ok(date >= b.checkIn && date <= b.checkOut)
  }

  /**
   * The occupied instants form one closed interval whose length is
   * `occupiedDays`: from check-in to check-in plus that length.
   */
  lemma OccupiedDaysSpansOccupiedInstants(b: Booking, n: int)
    requires OccupiedDays(b) == Ok(n)
    ensures IsOccupied(b, b.checkIn) == Ok(true)
    ensures IsOccupied(b, b.checkIn + n) == Ok(true)
    ensures IsOccupied(b, b.checkIn - 1) == Ok(false)
    ensures IsOccupied(b, b.checkIn + n + 1) == Ok(false)
    ensures forall d :: b.checkIn <= d <= b.checkIn + n ==> IsOccupied(b, d) == Ok(true)
    ensures forall d :: IsOccupied(b, d) == Ok(b.checkIn <= d <= b.checkIn + n)
  {
  }

  /**
   * Construction validates nothing: inverted dates and a discount of 120 are
   * accepted, and fail only when the booking is used.
   */
  lemma ConstructionNeverValidates(id: int, checkIn: int, checkOut: int, discount: real)
    requires checkIn > checkOut && discount > 100.0
    ensures var b := Build(id, BookingInput(None, None, Some(checkIn), Some(checkOut), Some(discount), None));
      b.checkIn == checkIn && b.checkOut == checkOut && b.discount == discount &&
      DatesValidation(b) == Err(CheckDatesRangeInvalid) &&
      OccupiedDays(b).Err? && IsOccupied(b, checkIn).Err? &&
      Fee(b) == Err(PercentOutOfRange)
  {
  }

  /** Without a room snapshot, rate and room discount are 0, so every valid fee is 0. */
  lemma NoRoomIsFree(id: int, input: BookingInput)
    requires input.room == None
    requires 0.0 <= input.discount.OrDefault(DefaultDiscount) <= 100.0
    ensures Fee(Build(id, input)) == Ok(0.0)
  {
  }

  /** The default booking is a valid stay from 2023-01-01 to 2024-12-12 with a 10% discount. */
  lemma DefaultBookingIsValid(id: int)
    ensures var b := Build(id, BookingInput(None, None, None, None, None, None));
      DatesValidation(b) == Ok(true) && OccupiedDays(b) == Ok(61430400000) && Fee(b) == Ok(0.0)
  {
  }
}
