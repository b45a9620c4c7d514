# Room occupancy and booking fees, verified in Dafny

This project models the occupancy and fee logic of a small room-booking system. Rooms hold bookings. Each booking carries its check-in and check-out instants, a discount percentage, and a snapshot of the room's terms (rate and room discount). The model covers:

- the shared date-range check (TypeScript and JavaScript versions);
- the two-step fee calculator (exact in TypeScript, truncated by `parseInt` in JavaScript);
- the `Booking` class: its id counter, lazy date validation, `fee`, `occupiedDays` and `isOccupied`;
- the `Room` class: `isOccupied`, `occupancyPercentage`, `isAvailable`, `toJson`, and the fleet functions `totalOccupancyPercentage` and `availableRooms`.

Encoding:

- Instants are `int` milliseconds since the epoch, as `Date.getTime()` returns them.
- Rates, discounts, fees and percentages are exact `real`s.
- A thrown error is `Err(kind)` of a `Result`, with one kind per `errorMessages` key.
- Optional constructor fields are `Option`s; `None` stands for `undefined` and takes the source's default.
- `Booking` and `Room` are values: no operation of the core changes their fields after construction.
- The static `Booking.idCount` is the one piece of mutable state. It is the class `Bookings.IdCounter`, whose `NewBooking` method is the booking constructor.
- `occupancyPercentage` and `totalOccupancyPercentage` are methods with loops, as in the source. Each is proved equal to a specification function (`Occupancy`, `TotalOccupancy`), and the properties are proved about those functions.
- A JavaScript number result of the occupancy code is `Number = Finite(v) | NaN`.

Behaviour the model keeps exactly as the code has it:

- `Booking.isOccupied` is closed at both ends: the check-out instant itself counts as occupied (src/classes/booking.ts:55). The check-out instant is not excluded, as a half-open [checkIn, checkOut) would do. `Rooms.TouchingBookingAvailableYetOccupied` shows the consequence: a booking that starts at the end of a range adds no time to the percentage, yet the room is occupied at that end instant.
- `totalOccupancyPercentage` returns 0 for an empty room list before it validates the range, so an inverted range is accepted there (src/classes/room.ts:59-60). Every other range operation validates first.
- For an empty range (`start == end`), `occupancyPercentage` on a room with bookings divides 0 by 0. The result is NaN, not a percentage, and it is modelled as such. NaN is not 0, so such a room is never available, and the fleet mean over it is NaN too.
- Overlapping bookings are summed without merging; only the cap at 100 bounds the sum (`Rooms.DoubleBookingIsCapped`).
- A booking with inverted dates is never validated by `occupancyPercentage`; it just overlaps nothing.
- `Room.isOccupied` stops at the first booking that covers the date. A booking with inverted dates listed before that one makes the call fail; one listed after it is never asked (`Rooms.OccupiedStopsAtFirstHit`, and for any list `Rooms.SomeOccupiedFailsIff`).

Files: `validation.dfy`, `validation_js.dfy`, `percentages.dfy`, `percentages_js.dfy`, `booking.dfy`, `room.dfy`, and `optional.dfy` (the `Option` type for constructor arguments).

## Model

| member | source | states |
|---|---|---|
| `Validation.DatesValidation` | src/app/validation.ts:7-9 | fails with the start/end-range kind exactly when start is after end; accepts equal endpoints and start before end |
| `Validation.Message` | src/app/validation.ts:1-5 | each of the three messages names exactly one error kind |
| `Validation.EqualEndpointsAccepted` | src/app/validation.ts:8 | a zero-length range is valid |
| `Validation.MessagesDistinct` | src/app/validation.ts:1-5 | the three error kinds carry three different messages |
| `ValidationJs.Message` | src/app/validation.js:1-4 | each of the two messages names exactly one error kind |
| `ValidationJs.DatesValidation` | src/app/validation.js:6 | fails with the start/end-range kind exactly when start is after end, and otherwise returns nothing |
| `ValidationJs.AgreesWithTypeScript` | src/app/validation.js:1-6 | the JavaScript and TypeScript validators reject the same pairs, with the same message |
| `Percentages.CalculateTotal` | src/utils/percentages.ts:2 | the result times 100 is the price times (100 − discount); for a non-negative price and a discount in [0,100] it lies in [0, price] |
| `Percentages.GetFee` | src/utils/percentages.ts:1-6 | the fee times 10000 equals price × (100 − room discount) × (100 − booking discount): the second discount applies to the already discounted price |
| `Percentages.NoDiscountKeepsPrice` | src/utils/percentages.ts:1-6 | with no discounts the fee is the price |
| `Percentages.FullBookingDiscountIsFree` | src/utils/percentages.ts:1-6 | a 100% booking discount gives 0 whatever the room discount |
| `Percentages.DiscountsCompound` | src/index.test.ts:136-138 | 10% then 10% off 100 is 81 |
| `Percentages.FeeWithinPrice` | src/utils/percentages.ts:1-6 | for a non-negative price and discounts in [0,100], the fee lies in [0, price] |
| `Percentages.DiscountsCommute` | src/utils/percentages.ts:1-6 | swapping the room and booking discounts leaves the fee unchanged |
| `PercentagesJs.ParseInt` | src/utils/percentages.js:5 | the result is the value truncated toward zero: within one unit below a non-negative value, within one unit above a negative one |
| `PercentagesJs.GetFee` | src/utils/percentages.js:1-6 | the result is the exact TypeScript fee truncated toward zero; for sane inputs it is a non-negative integer at most the exact fee and more than the exact fee minus 1 |
| `PercentagesJs.NoDiscountKeepsPrice` | src/utils/percentages.js:1-6 | an integer price with no discounts is returned unchanged |
| `PercentagesJs.FullBookingDiscountIsFree` | src/utils/percentages.js:1-6 | a 100% booking discount gives 0 |
| `PercentagesJs.DiscountsCompound` | src/utils/percentages.js:1-6 | 10% then 10% off 100 is 81 |
| `PercentagesJs.TruncationLosesLessThanOne` | src/utils/percentages.js:5 | truncation lowers the exact fee by less than one unit and never raises it |
| `Bookings.IdCounter.constructor` | src/classes/booking.ts:15 | the counter starts at 1 with no id issued |
| `Bookings.IdCounter.NewBooking` | src/classes/booking.ts:24-33 | the booking gets the current count as its id, with every field defaulted when absent; the count goes up by 1; the new id exceeds every id issued before |
| `Bookings.Build` | src/classes/booking.ts:24-32 | the id is the one given; given dates, discount and room are stored unchecked; absent name and email default to "new booking" and "email@example.com"; absent dates default to 2023-01-01 and 2024-12-12 (a valid stay); an absent discount to 10; an absent room to rate 0 and discount 0 |
| `Bookings.BuildTwo` | src/classes/booking.ts:26 | two bookings built one after the other get consecutive, distinct, previously unissued ids |
| `Bookings.DatesValidation` | src/classes/booking.ts:35-38 | fails with the check-in/check-out kind exactly when check-in is after check-out; otherwise returns true |
| `Bookings.DateErrorKindsDiffer` | src/classes/booking.ts:36 | a booking's own dates fail exactly when the range validator would, but with a different error kind |
| `Bookings.Fee` | src/classes/booking.ts:40-43 | fails with the percent kind exactly when the booking discount is below 0 or above 100 (the room discount is not checked); otherwise the fee is the snapshot rate less both discounts, multiplied |
| `Bookings.FeeWithinRate` | src/classes/booking.ts:40-43 | with a non-negative rate and a room discount in [0,100], a successful fee lies in [0, rate] |
| `Bookings.OccupiedDays` | src/classes/booking.ts:45-48 | fails on inverted dates; otherwise a non-negative length that takes check-in to check-out |
| `Bookings.IsOccupied` | src/classes/booking.ts:50-56 | fails on inverted dates; otherwise true exactly when check-in ≤ date ≤ check-out, both ends included |
| `Bookings.OccupiedDaysSpansOccupiedInstants` | src/classes/booking.ts:45-56 | the occupied instants are exactly the closed interval from check-in to check-in plus `occupiedDays` |
| `Bookings.ConstructionNeverValidates` | src/classes/booking.ts:24-33 | inverted dates and a discount of 120 are stored as given; every later use fails with its kind |
| `Bookings.NoRoomIsFree` | src/classes/booking.ts:32 | without a room snapshot, rate and discount are 0, so every fee with a discount in [0,100] is 0 |
| `Bookings.DefaultBookingIsValid` | src/classes/booking.ts:24 | the default booking has valid dates (2023-01-01 to 2024-12-12) and, with no room, a fee of 0 |
| `Rooms.NewRoom` | src/classes/room.ts:24-29 | name, rate and discount default to 'room', 100 and 25; a list of bookings is kept as given, a single booking becomes a one-element list, none gives the empty list |
| `Rooms.SingleBookingIsWrapped` | src/classes/room.ts:26 | passing one booking alone builds the same room as passing it in a list |
| `Rooms.SomeOccupied` | src/classes/room.ts:31-33 | with all bookings valid, true exactly when some booking's closed interval holds the date; true only if some booking reports true; false only if every booking reports false; a failure is the check-in/check-out kind and comes from an inverted booking; which inverted bookings fail the search is stated by `SomeOccupiedFailsIff` |
| `Rooms.RoomIsOccupied` | src/classes/room.ts:31-33 | a room without bookings is never occupied; with all bookings valid, true exactly when some booking's closed interval holds the date; true only when some booking is occupied; a failure is the check-in/check-out kind, and happens exactly as `SomeOccupiedFailsIff` states for its bookings |
| `Rooms.SomeOccupiedFailsIff` | src/classes/room.ts:31-33 | for any list of bookings, the search fails exactly when some booking with inverted dates comes before every booking that covers the date |
| `Rooms.OccupiedStopsAtFirstHit` | src/classes/room.ts:32 | the search stops at the first covering booking, so an inverted booking fails the call only when it comes first |
| `Rooms.Overlap` | src/classes/room.ts:44-47 | the overlap is non-negative and at most the range length and the stay length; a disjoint or inverted booking overlaps nothing; a covering one overlaps the whole range |
| `Rooms.OccupiedTime` | src/classes/room.ts:41-49 | the summed overlaps are non-negative and zero on an empty range |
| `Rooms.OccupiedTimeZeroIff` | src/classes/room.ts:41-49 | the sum is zero exactly when every booking overlaps nothing |
| `Rooms.OverlapWithinOccupiedTime` | src/classes/room.ts:41-49 | every booking's overlap is at most the sum |
| `Rooms.OccupiedTimeAppend` | src/classes/room.ts:41-49 | the sum over two lists of bookings joined is the sum of their sums |
| `Rooms.Percent` | src/classes/room.ts:50-53 | the capped percentage lies in [0,100]; it is 0 exactly when nothing is occupied and 100 exactly when the summed overlaps reach the range length; below that it is 100 × occupied / range length |
| `Rooms.Occupancy` | src/classes/room.ts:35-54 | fails with the start/end kind exactly when start is after end, even with no bookings; 0 without bookings; NaN exactly for an empty range with bookings; otherwise within [0,100], below full occupancy exactly 100 × summed overlaps / range length, and exactly 100 once the summed overlaps reach the range length |
| `Rooms.OccupancyPercentage` | src/classes/room.ts:35-54 | the loop accumulating overlaps returns exactly `Occupancy` |
| `Rooms.CoveringBookingIsFull` | src/classes/room.ts:43-53 | a valid booking spanning the whole range gives 100 |
| `Rooms.NonOverlappingBookingsIgnored` | src/classes/room.ts:43-48 | adding bookings that overlap nothing (disjoint or inverted) to a room with bookings does not change its percentage |
| `Rooms.SecondHalfIsFifty` | src/classes/room.ts:43-53 | a single booking covering the second half of the range gives 50 |
| `Rooms.DoubleBookingIsCapped` | src/classes/room.ts:47-53 | two bookings of the whole range sum to twice its length, and the result is capped at 100 |
| `Rooms.EmptyRangeIsNaN` | src/classes/room.ts:50-53 | an empty range on a room with bookings gives NaN |
| `Rooms.IsAvailable` | src/classes/room.ts:72-74 | fails exactly when start is after end; true exactly when the percentage is 0, that is when the room has no bookings, or the range is non-empty and no booking overlaps it |
| `Rooms.TouchingBookingAvailableYetOccupied` | src/classes/booking.ts:55 | a booking starting at the end of a range leaves the room available over the range, yet occupied at its end instant |
| `Rooms.FilterAvailable` | src/classes/room.ts:78 | the result holds exactly the available rooms of the input and is no longer than it |
| `Rooms.FilterKeepsOrder` | src/classes/room.ts:78 | filtering distributes over concatenation, so the input order is kept |
| `Rooms.AllAvailableKept` | src/classes/room.ts:78 | when every room is available the whole list is returned |
| `Rooms.AvailableRooms` | src/classes/room.ts:76-80 | fails exactly when start is after end; otherwise returns the order-preserving filter `FilterAvailable` of the input: no longer than it, exactly the input rooms whose percentage is 0 |
| `Rooms.SumOccupancy` | src/classes/room.ts:62-67 | on a non-empty range the summed percentages are finite and within [0, 100 × number of rooms] |
| `Rooms.TotalOccupancy` | src/classes/room.ts:56-70 | 0 for no rooms whatever the range; otherwise fails exactly when start is after end; on a non-empty range a finite value within [0,100], which is the mean of the rooms' percentages (`TotalIsMeanOfRooms`) |
| `Rooms.TotalOccupancyPercentage` | src/classes/room.ts:56-70 | the loop accumulating percentages returns exactly `TotalOccupancy` |
| `Rooms.TotalIsMeanOfRooms` | src/classes/room.ts:62-69 | over any non-empty fleet and a non-empty range the figure is finite, and times the number of rooms it equals the summed percentages |
| `Rooms.SumOccupancyAppend` | src/classes/room.ts:62-67 | on a non-empty range, the summed percentages of two fleets joined are the sum of their summed percentages: each room adds its own percentage once, whatever its position |
| `Rooms.SingleRoomTotal` | src/classes/room.ts:56-70 | over one room the fleet figure equals that room's own, for every range |
| `Rooms.TwoRoomMean` | src/classes/room.ts:69 | over two rooms the fleet figure is the unweighted mean of theirs |
| `Rooms.Ids` | src/classes/room.ts:85 | the id list has the bookings' length, and each position holds that booking's id |
| `Rooms.ToJson` | src/classes/room.ts:82-89 | name, rate and discount are copied; the bookings become their ids, in order and with the same length |
| `Rooms.FeeFromRoomSnapshot` | src/classes/booking.ts:42 | a booking made against a room's `toJson` snapshot is charged that room's rate less both discounts |
| `Rooms.FeeScenarios` | src/index.test.ts:124-139 | at rate 100: discounts 0/0 give 100, booking discount 100 gives 0, 10/10 gives 81 |
| `Rooms.EndToEnd` | src/classes/room.ts:43-53 | a rate-200 room with one undiscounted booking spanning the range is 100% occupied and the booking costs 200 |

## Left out

- `new Date(x)` coercion of strings, numbers and dates (src/classes/booking.ts:29-30, src/classes/room.ts:36-37): operations take instants already converted to milliseconds, and invalid dates (NaN instants) are not modelled.
- Floating-point arithmetic: fees and percentages are exact reals, so IEEE-754 rounding and values too large for a double are not modelled. Occupancy results can only be finite or NaN here, since no infinite value can arise from the code's inputs.
- PercentagesJs.ParseInt: models `parseInt` of a number as truncation toward zero; its string round trip for very large or very small magnitudes is not modelled.
- Bookings.Booking fields: the source's fields are assignable, but no operation of the core assigns them, so a booking is an immutable value; `fee` and the other getters recompute on every call regardless.
- Bookings.IdCounter: callers assigning `Booking.idCount` directly are not modelled.
- src/classes/room.js and src/classes/booking.js are not part of this model: they return constants.
- src/utils/stringFormatter.ts and src/utils/stringFormatter.js (currency-string parsing) are not part of this model.
- The test harness and its JSON fixtures are used only as sources of expected values.
- `name` and `email` are carried through unchanged; beyond the constructor's defaults nothing is proved about them.
