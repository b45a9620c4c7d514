/**
 * A room and its bookings, and the fleet-wide queries (src/classes/room.ts).
 * Occupancy sums, booking by booking, the overlap of each stay with the
 * query range; overlapping bookings are not merged, and the percentage is
 * capped at 100.
 */
module Rooms {
  import opened Validation
  import opened Optional
  import opened Bookings

  datatype Room = Room(name: string, bookings: seq<Booking>, rate: real, discount: real)

  /** The `bookings` option accepts either a list or a single booking. */
  datatype BookingsArg = List(items: seq<Booking>) | Single(item: Booking)

  /** The constructor's options; a field left `None` takes its default. */
  datatype RoomInput = RoomInput(
    name: Option<string>,
    bookings: Option<BookingsArg>,
    rate: Option<real>,
    discount: Option<real>)

  /**
   * A JavaScript number as far as occupancy needs one: a finite value, or
   * the NaN that `0 / 0` produces.
   */
  datatype Number = Finite(value: real) | NaN

  function Max(a: int, b: int): int { if a >= b then a else b }
  function Min(a: int, b: int): int { if a <= b then a else b }
  function MinReal(a: real, b: real): real { if a <= b then a else b }

  /** JavaScript `+` on numbers: NaN absorbs everything. */
  function Add(x: Number, y: Number): Number {
    if x.NaN? || y.NaN? then NaN else Finite(x.value + y.value)
  }

  /** JavaScript `/` by a positive count. */
  function Divide(x: Number, n: nat): Number
    requires n > 0
  {
    if x.NaN? then NaN else Finite(x.value / n as real)
  }

  /** The room constructor; a single booking is wrapped into a one-element list. */
  function NewRoom(input: RoomInput): (room: Room)
    ensures room.name == input.name.OrDefault("room")
    ensures room.rate == input.rate.OrDefault(100.0)
    ensures room.discount == input.discount.OrDefault(25.0)
    ensures input.bookings == None ==> room.bookings == []
    ensures input.bookings.Some? && input.bookings.value.List? ==> room.bookings == input.bookings.value.items
    ensures input.bookings.Some? && input.bookings.value.Single? ==> room.bookings == [input.bookings.value.item]
  {
    var bookings := match input.bookings.OrDefault(List([]))
      case List(items) => items
      case Single(item) => [item];
    Room(input.name.OrDefault("room"), bookings, input.rate.OrDefault(100.0), input.discount.OrDefault(25.0))
  }

  /** Passing one booking alone builds the same room as passing it in a list. */
  lemma SingleBookingIsWrapped(input: RoomInput, b: Booking)
    ensures NewRoom(input.(bookings := Some(Single(b)))) == NewRoom(input.(bookings := Some(List([b]))))
  {
  }

  // ---------------------------------------------------------------- isOccupied

  /**
   * `bookings.some(booking => booking.isOccupied(date))`: asks the bookings
   * in order and stops at the first that is occupied; an earlier booking with
   * inverted dates throws before a later one is asked.
   */
  function SomeOccupied(bs: seq<Booking>, date: int): (r: Result<bool>)
    ensures (forall i :: 0 <= i < |bs| ==> bs[i].checkIn <= bs[i].checkOut) ==>
      r == Ok(exists i :: 0 <= i < |bs| && bs[i].checkIn <= date <= bs[i].checkOut)
    ensures r == Ok(true) ==> exists i :: 0 <= i < |bs| && IsOccupied(bs[i], date) == Ok(true)
    ensures r == Ok(false) ==> forall i :: 0 <= i < |bs| ==> IsOccupied(bs[i], date) == Ok(false)
    ensures r.Err? ==> r.error == CheckDatesRangeInvalid
    ensures r.Err? ==> exists i :: 0 <= i < |bs| && bs[i].checkIn > bs[i].checkOut
  {
    if bs == [] then Ok(false)
    else
      match IsOccupied(bs[0], date)
      case Err(e) => Err(e)
      case Ok(true) => Ok(true)
      case Ok(false) =>
        var rest := SomeOccupied(bs[1..], date);
        assert forall i :: 1 <= i < |bs| ==> bs[i] == bs[1..][i - 1];
        rest
  }

  function RoomIsOccupied(room: Room, date: int): (r: Result<bool>)
    ensures room.bookings == [] ==> r == Ok(false)
    ensures (forall i :: 0 <= i < |room.bookings| ==> room.bookings[i].checkIn <= room.bookings[i].checkOut) ==>
      r == Ok(exists i :: 0 <= i < |room.bookings| && room.bookings[i].checkIn <= date <= room.bookings[i].checkOut)
    ensures r.Err? ==> r.error == CheckDatesRangeInvalid
    ensures r == Ok(true) ==> exists i :: 0 <= i < |room.bookings| && IsOccupied(room.bookings[i], date) == Ok(true)
  {
    SomeOccupied(room.bookings, date)
  }

  /**
   * `some` stops at the first hit: a room whose first booking covers the date
   * answers true although its second booking has inverted dates, and fails
   * when the two are listed the other way round.
   */
  lemma OccupiedStopsAtFirstHit(good: Booking, bad: Booking, date: int)
    requires good.checkIn <= date <= good.checkOut
    requires bad.checkIn > bad.checkOut
    ensures SomeOccupied([good, bad], date) == Ok(true)
    ensures SomeOccupied([bad, good], date) == Err(CheckDatesRangeInvalid)
  {
  }

  /**
   * Booking `k` has inverted dates and no booking before it covers the date,
   * so `some` reaches it and it throws.
   */
  predicate FailsFirst(bs: seq<Booking>, date: int, k: int)
  {
    0 <= k < |bs| && bs[k].checkIn > bs[k].checkOut &&
    forall j :: 0 <= j < k ==> !(bs[j].checkIn <= date <= bs[j].checkOut)
  }

  /**
   * The order rule of `some` for any list: the search fails exactly when an
   * inverted booking comes before every booking that covers the date.
   */
  lemma {:induction false} SomeOccupiedFailsIff(bs: seq<Booking>, date: int)
    ensures SomeOccupied(bs, date).Err? <==> exists k :: FailsFirst(bs, date, k)
  {
    if bs != [] {
      if bs[0].checkIn > bs[0].checkOut {
        assert FailsFirst(bs, date, 0);
      } else if bs[0].checkIn <= date <= bs[0].checkOut {
        assert SomeOccupied(bs, date) == Ok(true);
        forall k | 0 <= k < |bs|
          ensures !FailsFirst(bs, date, k)
        {
          if k > 0 {
            assert bs[0].checkIn <= date <= bs[0].checkOut;
          }
        }
      } else {
        var tail := bs[1..];
        assert SomeOccupied(bs, date) == SomeOccupied(tail, date);
        SomeOccupiedFailsIff(tail, date);
        if SomeOccupied(bs, date).Err? {
          var k :| FailsFirst(tail, date, k);
          assert bs[k + 1] == tail[k];
          forall j | 0 <= j < k + 1
            ensures !(bs[j].checkIn <= date <= bs[j].checkOut)
          {
            if j > 0 {
              assert bs[j] == tail[j - 1];
            }
          }
          assert FailsFirst(bs, date, k + 1);
        } else {
          forall k | FailsFirst(bs, date, k)
            ensures false
          {
            assert k > 0;
            assert tail[k - 1] == bs[k];
            forall j | 0 <= j < k - 1
              ensures !(tail[j].checkIn <= date <= tail[j].checkOut)
            {
              assert tail[j] == bs[j + 1];
            }
            assert FailsFirst(tail, date, k - 1);
          }
        }
      }
    }
  }

  // ---------------------------------------------------------------- occupancy

  /**
   * The time a booking's stay shares with [start, end]; a stay with inverted
   * dates shares none.
   */
  function Overlap(b: Booking, start: int, end: int): (n: int)
    ensures 0 <= n <= Max(end - start, 0)
    ensures n <= Max(b.checkOut - b.checkIn, 0)
    ensures b.checkOut <= start || end <= b.checkIn ==> n == 0
    ensures b.checkIn <= start <= end <= b.checkOut ==> n == end - start
  {
    Max(Min(b.checkOut, end) - Max(b.checkIn, start), 0)
  }

  /** The overlaps of the bookings summed, without merging those that overlap each other. */
  function OccupiedTime(bs: seq<Booking>, start: int, end: int): (n: int)
    ensures n >= 0
    ensures start >= end ==> n == 0
  {
    if bs == [] then 0
    else OccupiedTime(bs[..|bs| - 1], start, end) + Overlap(bs[|bs| - 1], start, end)
  }

  /** The summed time is nothing exactly when every booking overlaps nothing. */
  lemma {:induction false} OccupiedTimeZeroIff(bs: seq<Booking>, start: int, end: int)
    ensures OccupiedTime(bs, start, end) == 0 <==> forall i :: 0 <= i < |bs| ==> Overlap(bs[i], start, end) == 0
  {
    if bs != [] {
      var init := bs[..|bs| - 1];
      OccupiedTimeZeroIff(init, start, end);
      assert forall i :: 0 <= i < |init| ==> init[i] == bs[i];
    }
  }

  /** Each booking's overlap is part of the sum. */
  lemma {:induction false} OverlapWithinOccupiedTime(bs: seq<Booking>, start: int, end: int, k: int)
    requires 0 <= k < |bs|
    ensures Overlap(bs[k], start, end) <= OccupiedTime(bs, start, end)
  {
    if k < |bs| - 1 {
      var init := bs[..|bs| - 1];
      assert init[k] == bs[k];
      OverlapWithinOccupiedTime(init, start, end, k);
    }
  }

  /** The sum of the first bookings and that of the rest make up the whole. */
  lemma {:induction false} OccupiedTimeAppend(bs: seq<Booking>, cs: seq<Booking>, start: int, end: int)
    ensures OccupiedTime(bs + cs, start, end) == OccupiedTime(bs, start, end) + OccupiedTime(cs, start, end)
  {
    if cs != [] {
      var init := cs[..|cs| - 1];
      assert (bs + cs)[..|bs + cs| - 1] == bs + init;
      OccupiedTimeAppend(bs, init, start, end);
    } else {
      assert bs + cs == bs;
    }
  }

  /** `p` is `part` as a percentage of `whole`: `p == 100 * part / whole`, cross-multiplied. */
  predicate IsShare(p: real, part: int, whole: int)
  {
    p * whole as real == 100.0 * part as real
  }

  /** The percentage of a non-empty range covered by `occupied`, capped at 100. */
  function Percent(occupied: int, start: int, end: int): (p: real)
    requires occupied >= 0 && start < end
    ensures 0.0 <= p <= 100.0
    ensures p == 0.0 <==> occupied == 0
    ensures p == 100.0 <==> occupied >= end - start
    ensures occupied < end - start ==> IsShare(p, occupied, end - start)
  {
    var total := (end - start) as real;
    var ratio := occupied as real / total;
    assert ratio >= 1.0 <==> occupied >= end - start by {
      assert ratio * total == occupied as real;
    }
    MinReal(100.0, ratio * 100.0)
  }

  /**
   * What `occupancyPercentage` returns: the range error when start is after
   * end (bookings or not); 0 for a room without bookings; the NaN of `0 / 0`
   * for an empty range on a room with bookings; otherwise the capped
   * percentage of the summed overlaps.
   */
  function Occupancy(room: Room, start: int, end: int): (r: Result<Number>)
    ensures r.Err? <==> start > end
    ensures r.Err? ==> r.error == StartEndDatesRangeInvalid
    ensures r == Ok(NaN) <==> start == end && room.bookings != []
    ensures r.Ok? && r.value.Finite? ==> 0.0 <= r.value.value <= 100.0
    ensures room.bookings == [] && start <= end ==> r == Ok(Finite(0.0))
    ensures start < end && room.bookings != [] && OccupiedTime(room.bookings, start, end) < end - start ==>
      r.Ok? && r.value.Finite? && IsShare(r.value.value, OccupiedTime(room.bookings, start, end), end - start)
    ensures start < end && room.bookings != [] && OccupiedTime(room.bookings, start, end) >= end - start ==>
      r == Ok(Finite(100.0))
  {
    if start > end then Err(StartEndDatesRangeInvalid)
    else if |room.bookings| < 1 then Ok(Finite(0.0))
    else if end - start == 0 then Ok(NaN)
    else
      var occupied := OccupiedTime(room.bookings, start, end);
      var p := Percent(occupied, start, end);
      Ok(Finite(p))
  }

  /** `occupancyPercentage`, accumulating the overlaps in a loop as the source's `forEach` does. */
  method OccupancyPercentage(room: Room, start: int, end: int) returns (r: Result<Number>)
    ensures r == Occupancy(room, start, end)
  {
    var valid := Validation.DatesValidation(start, end);
    if valid.Err? {
      return Err(valid.error);
    }
    if |room.bookings| < 1 {
      return Ok(Finite(0.0));
    }
    var occupiedTime := 0;
    var i := 0;
    while i < |room.bookings|
      invariant 0 <= i <= |room.bookings|
      invariant occupiedTime == OccupiedTime(room.bookings[..i], start, end)
    {
      var booking := room.bookings[i];
      var overlapStart := Max(booking.checkIn, start);
      var overlapEnd := Min(booking.checkOut, end);
      occupiedTime := occupiedTime + Max(overlapEnd - overlapStart, 0);
      assert room.bookings[..i + 1][..i] == room.bookings[..i];
      i := i + 1;
    }
    assert room.bookings[..i] == room.bookings;
    var totalTimeInRange := Max(end - start, 0);
    if totalTimeInRange == 0 {
      return Ok(NaN);
    }
    r := Ok(Finite(Percent(occupiedTime, start, end)));
  }

  /** A valid booking that spans the whole range makes the room fully occupied. */
  lemma CoveringBookingIsFull(room: Room, start: int, end: int, k: int)
    requires start < end && 0 <= k < |room.bookings|
    requires room.bookings[k].checkIn <= start && end <= room.bookings[k].checkOut
    ensures Occupancy(room, start, end) == Ok(Finite(100.0))
  {
    OverlapWithinOccupiedTime(room.bookings, start, end, k);
  }

  /**
   * Bookings that overlap the range by nothing (disjoint ones, inverted ones)
   * do not change the percentage of a room that already has bookings.
   */
  lemma NonOverlappingBookingsIgnored(room: Room, extra: seq<Booking>, start: int, end: int)
    requires room.bookings != []
    requires forall i :: 0 <= i < |extra| ==> Overlap(extra[i], start, end) == 0
    ensures Occupancy(room.(bookings := room.bookings + extra), start, end) == Occupancy(room, start, end)
  {
    OccupiedTimeZeroIff(extra, start, end);
    OccupiedTimeAppend(room.bookings, extra, start, end);
  }

  /** A room whose only booking covers the second half of the range is half occupied. */
  lemma SecondHalfIsFifty(room: Room, start: int, middle: int, end: int)
    requires start < end && end - start == 2 * (end - middle)
    requires |room.bookings| == 1
    requires room.bookings[0].checkIn == middle && room.bookings[0].checkOut == end
    ensures Occupancy(room, start, end) == Ok(Finite(50.0))
  {
    var half := end - middle;
    assert room.bookings[..0] == [];
    assert OccupiedTime(room.bookings, start, end) == half;
    var h, t := half as real, (end - start) as real;
    assert t == 2.0 * h && h > 0.0;
    assert h / t == 0.5 by {
      assert (h / t) * t == h;
      assert (h / t) * (2.0 * h) == h;
      assert (h / t) * 2.0 == 1.0;
    }
  }

  /** Two bookings of the whole range count twice, and the cap brings the sum back to 100. */
  lemma DoubleBookingIsCapped(room: Room, start: int, end: int)
    requires start < end && |room.bookings| == 2
    requires forall i :: 0 <= i < 2 ==> room.bookings[i].checkIn <= start && end <= room.bookings[i].checkOut
    ensures OccupiedTime(room.bookings, start, end) == 2 * (end - start)
    ensures Occupancy(room, start, end) == Ok(Finite(100.0))
  {
    var bs := room.bookings;
    assert Overlap(bs[0], start, end) == end - start;
    assert Overlap(bs[1], start, end) == end - start;
    assert bs[..1][..0] == [] && bs[..1][0] == bs[0];
    assert OccupiedTime(bs[..1], start, end) == end - start;
  }

  /** An empty range on a room with bookings yields no number. */
  lemma EmptyRangeIsNaN(room: Room, date: int)
    requires room.bookings != []
    ensures Occupancy(room, date, date) == Ok(NaN)
  {
  }

  // ---------------------------------------------------------------- availability

  /**
   * `isAvailable`: the percentage is exactly 0. NaN is not 0, so a room with
   * bookings is never available on an empty range.
   */
  function IsAvailable(room: Room, start: int, end: int): (r: Result<bool>)
    ensures r.Err? <==> start > end
    ensures r.Err? ==> r.error == StartEndDatesRangeInvalid
    ensures r == Ok(true) <==> Occupancy(room, start, end) == Ok(Finite(0.0))
    ensures r == Ok(true) <==>
      start <= end &&
      (room.bookings == [] || (start < end && forall i :: 0 <= i < |room.bookings| ==> Overlap(room.bookings[i], start, end) == 0))
  {
    OccupiedTimeZeroIff(room.bookings, start, end);
    match Occupancy(room, start, end)
    case Err(e) => Err(e)
    case Ok(percentage) => Ok(percentage == Finite(0.0))
  }

  /**
   * A booking that only touches the range at an endpoint adds no time, so
   * the room is available over the range yet occupied at its end instant.
   */
  lemma TouchingBookingAvailableYetOccupied(room: Room, start: int, end: int, later: int)
    requires start < end < later
    requires room.bookings == [Booking(0, "", "", end, later, 0.0, NoRoom)]
    ensures IsAvailable(room, start, end) == Ok(true)
    ensures RoomIsOccupied(room, end) == Ok(true)
  {
    assert room.bookings[..0] == [];
  }

  // ---------------------------------------------------------------- fleet

  /** `rooms.filter(room => room.isAvailable(start, end))`. */
  function FilterAvailable(rooms: seq<Room>, start: int, end: int): (out: seq<Room>)
    ensures |out| <= |rooms|
    ensures forall room :: room in out <==> room in rooms && IsAvailable(room, start, end) == Ok(true)
  {
    if rooms == [] then []
    else
      (if IsAvailable(rooms[0], start, end) == Ok(true) then [rooms[0]] else [])
        + FilterAvailable(rooms[1..], start, end)
  }

  /** Filtering keeps the input order: it distributes over concatenation. */
  lemma {:induction false} FilterKeepsOrder(a: seq<Room>, b: seq<Room>, start: int, end: int)
    ensures FilterAvailable(a + b, start, end) == FilterAvailable(a, start, end) + FilterAvailable(b, start, end)
  {
    if a == [] {
      assert a + b == b;
    } else {
      assert (a + b)[1..] == a[1..] + b;
      FilterKeepsOrder(a[1..], b, start, end);
    }
  }

  /** A fleet in which every room is available comes back whole. */
  lemma {:induction false} AllAvailableKept(rooms: seq<Room>, start: int, end: int)
    requires forall i :: 0 <= i < |rooms| ==> IsAvailable(rooms[i], start, end) == Ok(true)
    ensures FilterAvailable(rooms, start, end) == rooms
  {
    if rooms != [] {
      AllAvailableKept(rooms[1..], start, end);
    }
  }

  /**
   * `availableRooms`: validates the range once, then the rooms whose
   * percentage is 0, in their input order.
   */
  function AvailableRooms(rooms: seq<Room>, start: int, end: int): (r: Result<seq<Room>>)
    ensures r.Err? <==> start > end
    ensures r.Err? ==> r.error == StartEndDatesRangeInvalid
    ensures r.Ok? ==> r.value == FilterAvailable(rooms, start, end)
    ensures r.Ok? ==> |r.value| <= |rooms|
    ensures r.Ok? ==> forall room :: room in r.value <==> room in rooms && Occupancy(room, start, end) == Ok(Finite(0.0))
  {
    match Validation.DatesValidation(start, end)
    case Err(e) => Err(e)
    case Ok(_) => Ok(FilterAvailable(rooms, start, end))
  }

  /** The per-room percentages summed in order, NaN absorbing. */
  function SumOccupancy(rooms: seq<Room>, start: int, end: int): (total: Number)
    requires start <= end
    ensures start < end ==> total.Finite? && 0.0 <= total.value <= 100.0 * |rooms| as real
  {
    if rooms == [] then Finite(0.0)
    else Add(SumOccupancy(rooms[..|rooms| - 1], start, end), Occupancy(rooms[|rooms| - 1], start, end).value)
  }

  /** The mean of `n` percentages is a percentage. */
  lemma MeanWithinPercent(sum: real, n: nat)
    requires n > 0 && 0.0 <= sum <= 100.0 * n as real
    ensures 0.0 <= sum / n as real <= 100.0
  {
    var m := sum / n as real;
    assert m * n as real == sum;
    if m > 100.0 {
      assert m * n as real > 100.0 * n as real;
    }
  }

  /**
   * What `totalOccupancyPercentage` returns: 0 for no rooms, before the
   * range is looked at; otherwise the range error, or the plain mean of the
   * rooms' percentages.
   */
  function TotalOccupancy(rooms: seq<Room>, start: int, end: int): (r: Result<Number>)
    ensures rooms == [] ==> r == Ok(Finite(0.0))
    ensures rooms != [] ==> (r.Err? <==> start > end)
    ensures r.Err? ==> r.error == StartEndDatesRangeInvalid
    ensures start < end ==> r.Ok? && r.value.Finite? && 0.0 <= r.value.value <= 100.0
  {
    if |rooms| == 0 then Ok(Finite(0.0))
    else if start > end then Err(StartEndDatesRangeInvalid)
    else
      var sum := SumOccupancy(rooms, start, end);
      if start < end then
        MeanWithinPercent(sum.value, |rooms|);
        Ok(Divide(sum, |rooms|))
      else
        Ok(Divide(sum, |rooms|))
  }

  /** `totalOccupancyPercentage`, accumulating the rooms' percentages in a loop. */
  method TotalOccupancyPercentage(rooms: seq<Room>, start: int, end: int) returns (r: Result<Number>)
    ensures r == TotalOccupancy(rooms, start, end)
  {
    if |rooms| == 0 {
      return Ok(Finite(0.0));
    }
    var valid := Validation.DatesValidation(start, end);
    if valid.Err? {
      return Err(valid.error);
    }
    var total := Finite(0.0);
    var i := 0;
    while i < |rooms|
      invariant 0 <= i <= |rooms|
      invariant total == SumOccupancy(rooms[..i], start, end)
    {
      var occupancy := OccupancyPercentage(rooms[i], start, end);
      total := Add(total, occupancy.value);
      assert rooms[..i + 1][..i] == rooms[..i];
      i := i + 1;
    }
    assert rooms[..i] == rooms;
    r := Ok(Divide(total, |rooms|));
  }

  /** Over one room, the fleet figure is that room's own, for every range. */
  lemma SingleRoomTotal(room: Room, start: int, end: int)
    ensures TotalOccupancy([room], start, end) == Occupancy(room, start, end)
  {
    if start <= end {
      assert [room][..0] == [];
      var occupancy := Occupancy(room, start, end).value;
      assert SumOccupancy([room], start, end) == Add(Finite(0.0), occupancy);
    }
  }

  /** `t` is the mean of `n` values summing to `s`: `t == s / n`, cross-multiplied. */
  predicate IsMean(t: real, n: nat, s: real)
  {
    t * n as real == s
  }

  /** Dividing by a positive count gives the mean. */
  lemma DivMul(s: real, n: nat)
    requires n > 0
    ensures IsMean(s / n as real, n, s)
  {
  }

  /** Over a non-empty fleet and a non-empty range, the figure is the mean of the rooms' percentages. */
  lemma TotalIsMeanOfRooms(rooms: seq<Room>, start: int, end: int)
    requires start < end && rooms != []
    ensures TotalOccupancy(rooms, start, end).Ok? && TotalOccupancy(rooms, start, end).value.Finite?
    ensures IsMean(TotalOccupancy(rooms, start, end).value.value, |rooms|, SumOccupancy(rooms, start, end).value)
  {
    DivMul(SumOccupancy(rooms, start, end).value, |rooms|);
  }

  /** The fleet sum over two fleets joined is the sum of their sums. */
  lemma {:induction false} SumOccupancyAppend(a: seq<Room>, b: seq<Room>, start: int, end: int)
    requires start < end
    ensures SumOccupancy(a + b, start, end).value == SumOccupancy(a, start, end).value + SumOccupancy(b, start, end).value
  {
    if b == [] {
      assert a + b == a;
    } else {
      var init := b[..|b| - 1];
      assert (a + b)[..|a + b| - 1] == a + init;
      assert (a + b)[|a + b| - 1] == b[|b| - 1];
      SumOccupancyAppend(a, init, start, end);
    }
  }

  /** The fleet sum over two rooms, unfolded. */
  lemma SumOfTwo(a: Room, b: Room, start: int, end: int)
    requires start <= end
    ensures SumOccupancy([a, b], start, end)
      == Add(Add(Finite(0.0), Occupancy(a, start, end).value), Occupancy(b, start, end).value)
  {
    assert [a, b][..1] == [a] && [a][..0] == [];
    assert SumOccupancy([a], start, end) == Add(SumOccupancy([], start, end), Occupancy(a, start, end).value);
    assert SumOccupancy([a, b], start, end) == Add(SumOccupancy([a], start, end), Occupancy(b, start, end).value);
  }

  /** Over two rooms, the fleet figure is the plain mean of theirs. */
  lemma TwoRoomMean(a: Room, b: Room, start: int, end: int, x: real, y: real)
    requires Occupancy(a, start, end) == Ok(Finite(x)) && Occupancy(b, start, end) == Ok(Finite(y))
    ensures TotalOccupancy([a, b], start, end) == Ok(Finite((x + y) / 2.0))
  {
    SumOfTwo(a, b, start, end);
    assert TotalOccupancy([a, b], start, end) == Ok(Divide(SumOccupancy([a, b], start, end), 2));
    MeanOfTwo(x, y);
  }

  lemma MeanOfTwo(x: real, y: real)
    ensures Divide(Add(Add(Finite(0.0), Finite(x)), Finite(y)), 2) == Finite((x + y) / 2.0)
  {
    assert Add(Add(Finite(0.0), Finite(x)), Finite(y)) == Finite(0.0 + x + y);
  }

  // ---------------------------------------------------------------- toJson

  /** `bookings.map(booking => booking.id)`. */
  function Ids(bs: seq<Booking>): (ids: seq<int>)
    ensures |ids| == |bs|
    ensures forall i :: 0 <= i < |bs| ==> ids[i] == bs[i].id
  {
    if bs == [] then [] else [bs[0].id] + Ids(bs[1..])
  }

  /** The `toJson` projection: the room's terms, with its bookings as ids. */
  function ToJson(room: Room): (j: RoomJson)
    ensures j.name == room.name && j.rate == room.rate && j.discount == room.discount
    ensures |j.bookings| == |room.bookings|
    ensures forall i :: 0 <= i < |room.bookings| ==> j.bookings[i] == room.bookings[i].id
  {
    RoomJson(room.name, Ids(room.bookings), room.rate, room.discount)
  }

  /**
   * A booking made against a room's `toJson` snapshot is charged that room's
   * rate less both discounts.
   */
  lemma FeeFromRoomSnapshot(room: Room, id: int, discount: real)
    requires 0.0 <= discount <= 100.0
    ensures var b := Build(id, BookingInput(None, None, None, None, Some(discount), Some(ToJson(room))));
      Fee(b).Ok? && Fee(b).value * 10000.0 == room.rate * (100.0 - room.discount) * (100.0 - discount)
  {
  }

  /** The fee cases of the booking tests: rate 100 at 0/0, 0/100 and 10/10. */
  lemma FeeScenarios(id: int)
    ensures var plain := NewRoom(RoomInput(None, Some(List([])), Some(100.0), Some(0.0)));
      var small := NewRoom(RoomInput(None, Some(List([])), Some(100.0), Some(10.0)));
      Fee(Build(id, BookingInput(None, None, None, None, Some(0.0), Some(ToJson(plain))))) == Ok(100.0) &&
      Fee(Build(id, BookingInput(None, None, None, None, Some(100.0), Some(ToJson(plain))))) == Ok(0.0) &&
      Fee(Build(id, BookingInput(None, None, None, None, Some(10.0), Some(ToJson(small))))) == Ok(81.0)
  {
  }

  /**
   * A room at rate 200 with no room discount and one undiscounted booking
   * spanning the range is fully occupied, and the booking costs 200.
   */
  lemma EndToEnd(id: int, start: int, end: int)
    requires start < end
    ensures var terms := RoomJson("", [], 200.0, 0.0);
      var b := Build(id, BookingInput(None, None, Some(start), Some(end), Some(0.0), Some(terms)));
      var room := NewRoom(RoomInput(None, Some(Single(b)), Some(200.0), Some(0.0)));
      Occupancy(room, start, end) == Ok(Finite(100.0)) && Fee(b) == Ok(200.0)
  {
    var terms := RoomJson("", [], 200.0, 0.0);
    var b := Build(id, BookingInput(None, None, Some(start), Some(end), Some(0.0), Some(terms)));
    var room := NewRoom(RoomInput(None, Some(Single(b)), Some(200.0), Some(0.0)));
    CoveringBookingIsFull(room, start, end, 0);
  }
}
