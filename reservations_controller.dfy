/** The reservation engine (Controllers/ReservationsController.cs): the
    availability search, booking, the reservation listing and cancellation.
    `DateTime.Now` is the explicit `now` parameter and the fresh
    `Guid.NewGuid()` of a booking is the caller-supplied `newId`. */
module ReservationsController {
  import opened Models
  import opened Text
  import opened Intervals
  import opened ViewModels
  import opened Store
  import opened Arithmetic

  // ---------------------------------------------------------------------
  // Availability search

  datatype SearchResult =
    | Found(rooms: set<AvailableRoomViewModel>)
    | FromDateInPast
    | ToDateInPast
    | ToDateNotAfterFromDate

  /** The row the search shows for a room, with its hotel's name. */
  function Availability(hotels: map<Id, Hotel>, room: Room): AvailableRoomViewModel
    requires room.hotelId in hotels
  {
    AvailableRoomViewModel(room.roomId, room.name, hotels[room.hotelId].name,
                           room.floor, room.roomType, room.charges)
  }

  /** `SearchRooms`: the date guards in their order (a bound equal to `now`
      passes), then the active rooms no reservation collides with. The
      result is the unordered set of rows; the query sorts nothing. */
  function SearchRooms(hotels: map<Id, Hotel>, rooms: map<Id, Room>, reservations: map<Id, Reservation>,
                       fromDate: Ticks, toDate: Ticks, now: Ticks): (result: SearchResult)
    requires RoomKeysMatch(rooms) && RoomsReferenceHotels(hotels, rooms)
    ensures result == FromDateInPast <==> fromDate < now
    ensures result == ToDateInPast <==> now <= fromDate && toDate < now
    ensures result == ToDateNotAfterFromDate <==> now <= fromDate && now <= toDate && toDate <= fromDate
    ensures result.Found? <==> now <= fromDate < toDate
    ensures result.Found? ==> forall k :: k in rooms ==>
              (Availability(hotels, rooms[k]) in result.rooms <==>
                 rooms[k].isActive && !Booked(reservations, k, fromDate, toDate))
    ensures result.Found? ==> forall a :: a in result.rooms ==>
              a.roomId in rooms && a == Availability(hotels, rooms[a.roomId])
  {
    if fromDate < now then FromDateInPast
    else if toDate < now then ToDateInPast
    else if fromDate >= toDate then ToDateNotAfterFromDate
    else
      var overlapping := set k | k in reservations
                               && Overlaps(reservations[k].from, reservations[k].to, fromDate, toDate)
                             :: reservations[k].roomId;
      assert forall k :: k in rooms ==>
        (rooms[k].roomId in overlapping <==> Booked(reservations, k, fromDate, toDate));
      Found(set k | k in rooms && rooms[k].roomId !in overlapping && rooms[k].isActive
                  :: Availability(hotels, rooms[k]))
  }

  // ---------------------------------------------------------------------
  // Booking

  datatype BookingResult =
    | Reserved(reservationId: Id, cost: int, durationHours: int)
    | InvalidInput
    | InvalidDateRange
    | AlreadyReserved
    | RoomNotFound

  /** `(int)Math.Ceiling(TotalHours)` of a non-empty interval, over exact
      ticks: the least number of whole hours that covers it. */
  function DurationHours(from: Ticks, to: Ticks): (h: int)
    requires from < to
    ensures h >= 1
    ensures (h - 1) * TicksPerHour < to - from <= h * TicksPerHour
  {
    (to - from + TicksPerHour - 1) / TicksPerHour
  }

  /** `Math.Round(x, MidpointRounding.AwayFromZero)` of the exact quotient
      `num / den`: within half a unit, and a tie goes away from zero. */
  function RoundHalfAwayFromZero(num: int, den: int): (r: int)
    requires den > 0
    ensures 2 * den * r - den <= 2 * num <= 2 * den * r + den
    ensures 2 * num == 2 * den * r - den ==> num > 0
    ensures 2 * num == 2 * den * r + den ==> num < 0
  {
    if num >= 0 then
      var q := (2 * num + den) / (2 * den);
      DivisionBounds(2 * num + den, 2 * den);
      ZeroNumeratorRounds(den);
      q
    else
      var q := (-2 * num + den) / (2 * den);
      DivisionBounds(-2 * num + den, 2 * den);
      -q
  }

  /** The cost of a stay: the number of days, charged at the room's daily
      rate and rounded half away from zero, computed without floating point. */
  function Cost(from: Ticks, to: Ticks, charges: int): (c: int)
    ensures 2 * TicksPerDay * c - TicksPerDay <= 2 * (to - from) * charges <= 2 * TicksPerDay * c + TicksPerDay
  {
    RoundHalfAwayFromZero((to - from) * charges, TicksPerDay)
  }

  /** The record a successful booking stores. */
  function NewReservation(id: Id, model: CreateReservationViewModel, charges: int): (r: Reservation)
    requires model.from < model.to
    ensures r.reservationId == id && r.roomId == model.roomId
    ensures r.from == model.from && r.to == model.to
    ensures r.name == Trim(model.name)
    ensures r.durationHours == DurationHours(model.from, model.to) >= 1
    ensures r.cost == Cost(model.from, model.to, charges)
  {
    Reservation(id, Trim(model.name), model.roomId, model.from, model.to,
                Cost(model.from, model.to, charges), DurationHours(model.from, model.to))
  }

  /** Every guard of a booking passes. */
  predicate CanReserve(rooms: map<Id, Room>, reservations: map<Id, Reservation>, model: CreateReservationViewModel) {
    && ReservationModelIsValid(model)
    && model.from < model.to
    && !Booked(reservations, model.roomId, model.from, model.to)
    && ActiveRoom(rooms, model.roomId)
  }

  /** `ReserveRoom`: validate the request, refuse a collision with any
      reservation on the room (checked before the room itself is looked up),
      refuse a missing or inactive room, else store one new reservation. */
  method ReserveRoom(db: HotelManagementContext, model: CreateReservationViewModel, newId: Id)
    returns (result: BookingResult)
    requires db.Valid()
    requires newId != EmptyId && newId !in db.reservations
    modifies db
    ensures db.Valid()
    ensures db.hotels == old(db.hotels) && db.rooms == old(db.rooms)
    ensures !ReservationModelIsValid(model) ==> result == InvalidInput
    ensures ReservationModelIsValid(model) && model.from >= model.to ==> result == InvalidDateRange
    ensures (&& ReservationModelIsValid(model) && model.from < model.to
             && Booked(old(db.reservations), model.roomId, model.from, model.to))
            ==> result == AlreadyReserved
    ensures (&& ReservationModelIsValid(model) && model.from < model.to
             && !Booked(old(db.reservations), model.roomId, model.from, model.to)
             && !ActiveRoom(db.rooms, model.roomId))
            ==> result == RoomNotFound
    ensures result.Reserved? <==> CanReserve(db.rooms, old(db.reservations), model)
    ensures result.Reserved? ==>
              var r := NewReservation(newId, model, db.rooms[model.roomId].charges);
              && result == Reserved(newId, r.cost, r.durationHours)
              && db.reservations == old(db.reservations)[newId := r]
    ensures !result.Reserved? ==> db.reservations == old(db.reservations)
  {
    if !ReservationModelIsValid(model) {
      return InvalidInput;
    }
    if model.from >= model.to {
      return InvalidDateRange;
    }
    if Booked(db.reservations, model.roomId, model.from, model.to) {
      return AlreadyReserved;
    }
    if !ActiveRoom(db.rooms, model.roomId) {
      return RoomNotFound;
    }
    var room := db.rooms[model.roomId];
    var reservation := NewReservation(newId, model, room.charges);
    BookingKeepsNoOverlap(db.reservations, newId, reservation);
    db.reservations := db.reservations[newId := reservation];
    result := Reserved(newId, reservation.cost, reservation.durationHours);
  }

  // ---------------------------------------------------------------------
  // Listing

  /** `a` is listed before `b`: later start first, then the larger id. */
  predicate ListedBefore(a: Reservation, b: Reservation) {
    a.from > b.from || (a.from == b.from && a.reservationId > b.reservationId)
  }

  predicate NewestFirst(s: seq<Reservation>) {
    forall i, j :: 0 <= i < j < |s| ==> ListedBefore(s[i], s[j])
  }

  /** Puts `x` into its place in a listing that does not hold its id yet. */
  function InsertNewestFirst(x: Reservation, s: seq<Reservation>): (r: seq<Reservation>)
    requires NewestFirst(s)
    requires forall i :: 0 <= i < |s| ==> s[i].reservationId != x.reservationId
    ensures |r| == |s| + 1
    ensures forall y :: y in r <==> y == x || y in s
    ensures NewestFirst(r)
  {
    if s == [] || ListedBefore(x, s[0]) then
      [x] + s
    else
      var tail := InsertNewestFirst(x, s[1..]);
      assert ListedBefore(s[0], x);
      assert forall y :: y in tail ==> ListedBefore(s[0], y);
      [s[0]] + tail
  }

  /** `ViewReservations`: every reservation exactly once, latest start
      first, ties broken by the larger id. */
  ghost function ViewReservations(reservations: map<Id, Reservation>): (r: seq<Reservation>)
    requires ReservationKeysMatch(reservations)
    ensures |r| == |reservations|
    ensures forall k :: k in reservations ==> reservations[k] in r
    ensures forall i :: 0 <= i < |r| ==>
              r[i].reservationId in reservations && reservations[r[i].reservationId] == r[i]
    ensures NewestFirst(r)
    decreases |reservations|
  {
    if reservations == map[] then []
    else
      var k :| k in reservations;
      var rest := reservations - {k};
      assert rest.Keys == reservations.Keys - {k};
      var listed := ViewReservations(rest);
      var r := InsertNewestFirst(reservations[k], listed);
      assert forall j :: j in reservations ==> reservations[j] in r by {
        forall j | j in reservations ensures reservations[j] in r {
          if j != k {
            assert j in rest && rest[j] == reservations[j];
          }
        }
      }
      assert forall i :: 0 <= i < |r| ==>
               r[i].reservationId in reservations && reservations[r[i].reservationId] == r[i] by {
        forall i | 0 <= i < |r|
          ensures r[i].reservationId in reservations && reservations[r[i].reservationId] == r[i]
        {
          assert r[i] in r;
          if r[i] != reservations[k] {
            assert r[i] in listed;
            var j :| 0 <= j < |listed| && listed[j] == r[i];
          }
        }
      }
      r
  }

  // ---------------------------------------------------------------------
  // Cancellation

  datatype CancelResult =
    | Cancelled
    | InvalidReservationId
    | ReservationNotFound
    | AlreadyCompleted

  /** `CancelReservation`: refuse the empty id, an unknown id and a
      reservation that has already ended; otherwise delete it, even while it
      is in progress. */
  method CancelReservation(db: HotelManagementContext, reservationId: Id, now: Ticks)
    returns (result: CancelResult)
    requires db.Valid()
    modifies db
    ensures db.Valid()
    ensures db.hotels == old(db.hotels) && db.rooms == old(db.rooms)
    ensures reservationId == EmptyId ==> result == InvalidReservationId
    ensures reservationId != EmptyId && reservationId !in old(db.reservations) ==> result == ReservationNotFound
    ensures (&& reservationId != EmptyId && reservationId in old(db.reservations)
             && old(db.reservations)[reservationId].to <= now)
            ==> result == AlreadyCompleted
    ensures result == Cancelled <==>
              reservationId != EmptyId && reservationId in old(db.reservations)
              && now < old(db.reservations)[reservationId].to
    ensures result == Cancelled ==> db.reservations == old(db.reservations) - {reservationId}
    ensures result != Cancelled ==> db.reservations == old(db.reservations)
  {
    if reservationId == EmptyId {
      return InvalidReservationId;
    }
    if reservationId !in db.reservations {
      return ReservationNotFound;
    }
    var reservation := db.reservations[reservationId];
    if reservation.to <= now {
      return AlreadyCompleted;
    }
    db.reservations := db.reservations - {reservationId};
    result := Cancelled;
  }

  // ---------------------------------------------------------------------
  // Properties of the engine

  /** The duration is the only whole number of hours that covers the stay
      with less than an hour to spare. */
  lemma DurationIsLeastCover(from: Ticks, to: Ticks, h: int)
    requires from < to
    requires (h - 1) * TicksPerHour < to - from <= h * TicksPerHour
    ensures h == DurationHours(from, to)
  {
  }

  /** Being within half a unit with ties away from zero determines the
      rounded value: `RoundHalfAwayFromZero` is the only function that meets
      its contract. */
  lemma RoundingIsUnique(num: int, den: int, r: int)
    requires den > 0
    requires 2 * den * r - den <= 2 * num <= 2 * den * r + den
    requires 2 * num == 2 * den * r - den ==> num > 0
    requires 2 * num == 2 * den * r + den ==> num < 0
    ensures r == RoundHalfAwayFromZero(num, den)
  {
    var q := RoundHalfAwayFromZero(num, den);
    if r > q {
      ProductStep(den, r, q);
    } else if r < q {
      ProductStep(den, q, r);
    }
  }

  /** Twelve hours in a room charged 100 a day last 12 hours and cost 50. */
  lemma HalfDayAtHundredADay(from: Ticks)
    ensures DurationHours(from, from + 12 * TicksPerHour) == 12
    ensures Cost(from, from + 12 * TicksPerHour, 100) == 50
  {
  }

  /** A room the search lists for a window passes every guard of a booking
      of that room for that window (given a non-blank guest name). */
  lemma ListedRoomIsReservable(hotels: map<Id, Hotel>, rooms: map<Id, Room>, reservations: map<Id, Reservation>,
                               model: CreateReservationViewModel, now: Ticks)
    requires RoomKeysMatch(rooms) && RoomsReferenceHotels(hotels, rooms)
    requires ReservationModelIsValid(model) && model.roomId in rooms
    requires var s := SearchRooms(hotels, rooms, reservations, model.from, model.to, now);
             s.Found? && Availability(hotels, rooms[model.roomId]) in s.rooms
    ensures CanReserve(rooms, reservations, model)
  {
  }

  /** Once a reservation is stored, every window that collides with it is
      taken for its room: a second booking is refused and the search no
      longer lists the room. */
  lemma BookingBlocksOverlappingWindows(reservations: map<Id, Reservation>, id: Id, r: Reservation,
                                        from: Ticks, to: Ticks)
    requires Overlaps(r.from, r.to, from, to)
    ensures Booked(reservations[id := r], r.roomId, from, to)
  {
    assert id in reservations[id := r];
  }

  /** Back-to-back stays do not conflict: a booking leaves the windows that
      end where it starts, or start where it ends, exactly as free as they
      were. */
  lemma TouchingWindowsUnaffected(reservations: map<Id, Reservation>, id: Id, r: Reservation, t: Ticks)
    requires id !in reservations
    ensures Booked(reservations[id := r], r.roomId, r.to, t) == Booked(reservations, r.roomId, r.to, t)
    ensures Booked(reservations[id := r], r.roomId, t, r.from) == Booked(reservations, r.roomId, t, r.from)
  {
    var m := reservations[id := r];
    TouchingDoesNotOverlap(r.from, r.to, t);
    TouchingDoesNotOverlap(t, r.from, r.to);
    if Booked(m, r.roomId, r.to, t) {
      var k :| k in m && m[k].roomId == r.roomId && Overlaps(m[k].from, m[k].to, r.to, t);
      assert k != id && k in reservations;
    }
    if Booked(m, r.roomId, t, r.from) {
      var k :| k in m && m[k].roomId == r.roomId && Overlaps(m[k].from, m[k].to, t, r.from);
      assert k != id && k in reservations;
    }
    if Booked(reservations, r.roomId, r.to, t) {
      var k :| k in reservations && reservations[k].roomId == r.roomId
               && Overlaps(reservations[k].from, reservations[k].to, r.to, t);
      assert k in m && m[k] == reservations[k];
    }
    if Booked(reservations, r.roomId, t, r.from) {
      var k :| k in reservations && reservations[k].roomId == r.roomId
               && Overlaps(reservations[k].from, reservations[k].to, t, r.from);
      assert k in m && m[k] == reservations[k];
    }
  }

  /** Cancelling a reservation frees the very interval it held on its room. */
  lemma CancelFreesInterval(reservations: map<Id, Reservation>, id: Id)
    requires NoOverlap(reservations) && id in reservations
    ensures var c := reservations[id];
            !Booked(reservations - {id}, c.roomId, c.from, c.to)
  {
  }

  /** After a cancellation, a search for the cancelled interval (not yet
      begun) lists the room again, provided it is still active. */
  lemma CancelReopensRoom(hotels: map<Id, Hotel>, rooms: map<Id, Room>, reservations: map<Id, Reservation>,
                          id: Id, now: Ticks)
    requires Consistent(hotels, rooms, reservations) && id in reservations
    requires ActiveRoom(rooms, reservations[id].roomId) && now <= reservations[id].from
    ensures var c := reservations[id];
            var s := SearchRooms(hotels, rooms, reservations - {id}, c.from, c.to, now);
            s.Found? && Availability(hotels, rooms[c.roomId]) in s.rooms
  {
    CancelFreesInterval(reservations, id);
  }
}
