/** The database context (Models/HotelManagementContext.cs) as one in-memory
    store: three tables keyed by id. Its invariant collects what the primary
    and foreign keys guarantee together with what the controllers' guards
    keep true across every sequential run of actions. */
module Store {
  import opened Models
  import opened Intervals

  /** Primary keys: every record sits under its own id. */
  ghost predicate HotelKeysMatch(hotels: map<Id, Hotel>) {
    forall k :: k in hotels ==> hotels[k].hotelId == k
  }

  ghost predicate RoomKeysMatch(rooms: map<Id, Room>) {
    forall k :: k in rooms ==> rooms[k].roomId == k
  }

  ghost predicate ReservationKeysMatch(reservations: map<Id, Reservation>) {
    forall k :: k in reservations ==> reservations[k].reservationId == k
  }

  /** Foreign key FK_Room_Hotel. */
  ghost predicate RoomsReferenceHotels(hotels: map<Id, Hotel>, rooms: map<Id, Room>) {
    forall k :: k in rooms ==> rooms[k].hotelId in hotels
  }

  /** Foreign key FK_Reservation_Room. */
  ghost predicate ReservationsReferenceRooms(rooms: map<Id, Room>, reservations: map<Id, Reservation>) {
    forall k :: k in reservations ==> reservations[k].roomId in rooms
  }

  /** `FirstOrDefault(h => h.HotelId == id && h.IsActive)` found a hotel. */
  predicate ActiveHotel(hotels: map<Id, Hotel>, id: Id) {
    id in hotels && hotels[id].isActive
  }

  /** The room lookup of a booking found an active room. */
  predicate ActiveRoom(rooms: map<Id, Room>, id: Id) {
    id in rooms && rooms[id].isActive
  }

  /** Every active room belongs to an active hotel. */
  ghost predicate ActiveRoomsInActiveHotels(hotels: map<Id, Hotel>, rooms: map<Id, Room>) {
    forall k :: k in rooms && rooms[k].isActive ==> ActiveHotel(hotels, rooms[k].hotelId)
  }

  /** Two rooms with the same name on the same floor of the same hotel. */
  predicate SameSlot(a: Room, b: Room) {
    a.name == b.name && a.floor == b.floor && a.hotelId == b.hotelId
  }

  /** No two active rooms share name, floor and hotel. */
  ghost predicate UniqueActiveRooms(rooms: map<Id, Room>) {
    forall a, b :: a in rooms && b in rooms && a != b && rooms[a].isActive && rooms[b].isActive
      ==> !SameSlot(rooms[a], rooms[b])
  }

  /** No two active hotels share a name. Hotel creation keeps this; hotel
      editing does not, so it is not part of the store invariant. */
  ghost predicate UniqueActiveHotelNames(hotels: map<Id, Hotel>) {
    forall a, b :: a in hotels && b in hotels && a != b && hotels[a].isActive && hotels[b].isActive
      ==> hotels[a].name != hotels[b].name
  }

  /** Every stored reservation covers a non-empty interval. */
  ghost predicate IntervalsNonEmpty(reservations: map<Id, Reservation>) {
    forall k :: k in reservations ==> reservations[k].from < reservations[k].to
  }

  /** The reservation engine's invariant: on each room the stored intervals
      are pairwise disjoint. */
  ghost predicate NoOverlap(reservations: map<Id, Reservation>) {
    forall a, b :: a in reservations && b in reservations && a != b
      && reservations[a].roomId == reservations[b].roomId
      ==> !Overlaps(reservations[a].from, reservations[a].to, reservations[b].from, reservations[b].to)
  }

  /** Some reservation on `roomId` collides with the window `[from, to)`:
      the conflict query of a booking. */
  predicate Booked(reservations: map<Id, Reservation>, roomId: Id, from: Ticks, to: Ticks): (b: bool)
    ensures b <==> exists k :: k in reservations && reservations[k].roomId == roomId
                     && reservations[k].from < to && from < reservations[k].to
  {
    exists k :: k in reservations && reservations[k].roomId == roomId
      && Overlaps(reservations[k].from, reservations[k].to, from, to)
  }

  /** The active rooms of one hotel. */
  function ActiveRoomsOf(rooms: map<Id, Room>, hotelId: Id): set<Id> {
    set k | k in rooms && rooms[k].isActive && rooms[k].hotelId == hotelId
  }

  /** `Rooms.Where(r => r.IsActive).Count(r => r.HotelId == hotelId)`. */
  function ActiveRoomCount(rooms: map<Id, Room>, hotelId: Id): (n: nat)
    ensures n <= |rooms|
    ensures n == 0 <==> forall k :: k in rooms && rooms[k].hotelId == hotelId ==> !rooms[k].isActive
  {
    var active := ActiveRoomsOf(rooms, hotelId);
    SubsetCardinality(active, rooms.Keys);
    NoActiveRoomsOf(rooms, hotelId);
    |active|
  }

  /** A subset is no larger than its superset. */
  lemma {:induction false} SubsetCardinality(a: set<Id>, b: set<Id>)
    requires a <= b
    ensures |a| <= |b|
    decreases |b|
  {
    if a != {} {
      var x :| x in a;
      SubsetCardinality(a - {x}, b - {x});
    }
  }

  /** A hotel has no active rooms exactly when none of its rooms is active. */
  lemma NoActiveRoomsOf(rooms: map<Id, Room>, hotelId: Id)
    ensures |ActiveRoomsOf(rooms, hotelId)| == 0 <==>
              forall k :: k in rooms && rooms[k].hotelId == hotelId ==> !rooms[k].isActive
  {
    var active := ActiveRoomsOf(rooms, hotelId);
    if active != {} {
      var k :| k in active;
      assert k in rooms && rooms[k].hotelId == hotelId && rooms[k].isActive;
    } else {
      forall k | k in rooms && rooms[k].hotelId == hotelId
        ensures !rooms[k].isActive
      {
        assert k !in active;
      }
    }
  }

  ghost predicate Consistent(hotels: map<Id, Hotel>, rooms: map<Id, Room>, reservations: map<Id, Reservation>) {
    && HotelKeysMatch(hotels)
    && RoomKeysMatch(rooms)
    && ReservationKeysMatch(reservations)
    && RoomsReferenceHotels(hotels, rooms)
    && ReservationsReferenceRooms(rooms, reservations)
    && ActiveRoomsInActiveHotels(hotels, rooms)
    && UniqueActiveRooms(rooms)
    && IntervalsNonEmpty(reservations)
    && NoOverlap(reservations)
  }

  class HotelManagementContext {
    var hotels: map<Id, Hotel>
    var rooms: map<Id, Room>
    var reservations: map<Id, Reservation>

    ghost predicate Valid()
      reads this
    {
      Consistent(hotels, rooms, reservations)
    }

    /** An empty database. */
    constructor ()
      ensures Valid()
      ensures hotels == map[] && rooms == map[] && reservations == map[]
    {
      hotels, rooms, reservations := map[], map[], map[];
    }
  }

  /** Inserting a reservation that the conflict query did not flag keeps the
      per-room intervals disjoint. */
  lemma BookingKeepsNoOverlap(reservations: map<Id, Reservation>, id: Id, r: Reservation)
    requires NoOverlap(reservations)
    requires id !in reservations
    requires !Booked(reservations, r.roomId, r.from, r.to)
    ensures NoOverlap(reservations[id := r])
  {
    var m := reservations[id := r];
    forall a, b | a in m && b in m && a != b && m[a].roomId == m[b].roomId
      ensures !Overlaps(m[a].from, m[a].to, m[b].from, m[b].to)
    {
      if a == id {
        assert !Overlaps(m[b].from, m[b].to, r.from, r.to);
        OverlapsSymmetric(m[b].from, m[b].to, r.from, r.to);
      } else if b == id {
        assert !Overlaps(m[a].from, m[a].to, r.from, r.to);
      }
    }
  }

  /** Putting an active room of `room.hotelId` under a key that did not
      already hold one adds exactly one to that hotel's active room count. */
  lemma {:induction false} ActiveRoomCountAfterPut(rooms: map<Id, Room>, k: Id, room: Room)
    requires room.isActive
    requires k !in ActiveRoomsOf(rooms, room.hotelId)
    ensures ActiveRoomsOf(rooms[k := room], room.hotelId) == ActiveRoomsOf(rooms, room.hotelId) + {k}
    ensures ActiveRoomCount(rooms[k := room], room.hotelId) == ActiveRoomCount(rooms, room.hotelId) + 1
  {
    var before, after := ActiveRoomsOf(rooms, room.hotelId), ActiveRoomsOf(rooms[k := room], room.hotelId);
    assert after == before + {k};
  }
}
