/** The room catalogue (Controllers/RoomsController.cs): listing, creation
    and editing behind ordered guards, the uniqueness probe used by the form,
    and soft deletion. The fresh `Guid.NewGuid()` of a new room is the
    caller-supplied `newId`. */
module RoomsController {
  import opened Models
  import opened Text
  import opened ViewModels
  import opened Store

  datatype Outcome =
    | Created(roomId: Id)
    | Updated
    | Deactivated
    | RoomIdMismatch
    | ValidationFailed
    | HotelNotFound
    | RoomNotFound
    | DuplicateRoom
    | FloorOutOfRange
    | HotelFull

  /** `Index`: the active rooms, keyed by id. */
  function Index(rooms: map<Id, Room>): (listed: map<Id, Room>)
    ensures forall k :: k in listed <==> k in rooms && rooms[k].isActive
    ensures forall k :: k in listed ==> listed[k] == rooms[k]
  {
    map k | k in rooms && rooms[k].isActive :: rooms[k]
  }

  /** Some active room other than `except` already has this name, floor and
      hotel: the duplicate query of Create (no exception), Edit and the
      availability probe. */
  predicate SlotTaken(rooms: map<Id, Room>, name: string, floor: int, hotelId: Id, except: Option<Id>) {
    exists k :: k in rooms && rooms[k].isActive
      && rooms[k].name == name && rooms[k].floor == floor && rooms[k].hotelId == hotelId
      && (except.None? || rooms[k].roomId != except.value)
  }

  /** `IsRoomAvailable`: the remote-validation probe of the room form. */
  function IsRoomAvailable(rooms: map<Id, Room>, name: string, floor: int, hotelId: Id, id: Option<Id>): (available: bool)
    ensures IsNullOrWhiteSpace(name) || floor <= 0 || hotelId == EmptyId ==> available
    ensures !IsNullOrWhiteSpace(name) && floor > 0 && hotelId != EmptyId ==>
              (available <==> forall k :: k in rooms && rooms[k].isActive && (id.None? || rooms[k].roomId != id.value)
                                 ==> !(rooms[k].name == name && rooms[k].floor == floor && rooms[k].hotelId == hotelId))
  {
    if IsNullOrWhiteSpace(name) || floor <= 0 || hotelId == EmptyId then true
    else !SlotTaken(rooms, name, floor, hotelId, id)
  }

  /** The room a successful Create stores. */
  function NewRoom(id: Id, model: RoomViewModel): Room {
    Room(id, model.name, model.floor, model.hotelId, model.roomType, model.charges, true)
  }

  /** Every guard of Create passes. */
  predicate CanCreate(hotels: map<Id, Hotel>, rooms: map<Id, Room>, model: RoomViewModel) {
    && RoomModelIsValid(model)
    && ActiveHotel(hotels, model.hotelId)
    && !SlotTaken(rooms, model.name, model.floor, model.hotelId, None)
    && model.floor <= hotels[model.hotelId].totalFloors
    && ActiveRoomCount(rooms, model.hotelId) < hotels[model.hotelId].totalRooms
  }

  /** `Create`: the form, then the hotel (existing and active), then the
      duplicate, then the floor, then the hotel's room capacity; else one new
      active room. */
  method Create(db: HotelManagementContext, model: RoomViewModel, newId: Id) returns (result: Outcome)
    requires db.Valid()
    requires newId != EmptyId && newId !in db.rooms
    modifies db
    ensures db.Valid()
    ensures db.hotels == old(db.hotels) && db.reservations == old(db.reservations)
    ensures !RoomModelIsValid(model) ==> result == ValidationFailed
    ensures RoomModelIsValid(model) && !ActiveHotel(db.hotels, model.hotelId) ==> result == HotelNotFound
    ensures (&& RoomModelIsValid(model) && ActiveHotel(db.hotels, model.hotelId)
             && SlotTaken(old(db.rooms), model.name, model.floor, model.hotelId, None))
            ==> result == DuplicateRoom
    ensures (&& RoomModelIsValid(model) && ActiveHotel(db.hotels, model.hotelId)
             && !SlotTaken(old(db.rooms), model.name, model.floor, model.hotelId, None)
             && model.floor > db.hotels[model.hotelId].totalFloors)
            ==> result == FloorOutOfRange
    ensures (&& RoomModelIsValid(model) && ActiveHotel(db.hotels, model.hotelId)
             && !SlotTaken(old(db.rooms), model.name, model.floor, model.hotelId, None)
             && model.floor <= db.hotels[model.hotelId].totalFloors
             && ActiveRoomCount(old(db.rooms), model.hotelId) >= db.hotels[model.hotelId].totalRooms)
            ==> result == HotelFull
    ensures result.Created? <==> CanCreate(db.hotels, old(db.rooms), model)
    ensures result.Created? ==>
              && result == Created(newId)
              && db.rooms == old(db.rooms)[newId := NewRoom(newId, model)]
              && ActiveRoomCount(db.rooms, model.hotelId) == ActiveRoomCount(old(db.rooms), model.hotelId) + 1
              && ActiveRoomCount(db.rooms, model.hotelId) <= db.hotels[model.hotelId].totalRooms
    ensures !result.Created? ==> db.rooms == old(db.rooms)
  {
    if !RoomModelIsValid(model) {
      return ValidationFailed;
    }
    if !ActiveHotel(db.hotels, model.hotelId) {
      return HotelNotFound;
    }
    var hotel := db.hotels[model.hotelId];
    if SlotTaken(db.rooms, model.name, model.floor, model.hotelId, None) {
      return DuplicateRoom;
    }
    if model.floor > hotel.totalFloors {
      return FloorOutOfRange;
    }
    var roomCount := ActiveRoomCount(db.rooms, model.hotelId);
    if roomCount >= hotel.totalRooms {
      return HotelFull;
    }
    var room := NewRoom(newId, model);
    OpenSlotKeepsRoomsUnique(db.rooms, newId, room);
    ActiveRoomCountAfterPut(db.rooms, newId, room);
    db.rooms := db.rooms[newId := room];
    result := Created(newId);
  }

  /** The room after a successful Edit: Name, Floor, HotelId, Type and
      Charges come from the form; the id and the active flag stay. */
  function Edited(room: Room, model: RoomViewModel): Room {
    room.(name := model.name, floor := model.floor, hotelId := model.hotelId,
          roomType := model.roomType, charges := model.charges)
  }

  /** Every guard of Edit passes. The capacity guard applies only when the
      room moves to another hotel. */
  predicate CanEdit(hotels: map<Id, Hotel>, rooms: map<Id, Room>, id: Id, model: RoomViewModel) {
    && model.roomId == Some(id)
    && RoomModelIsValid(model)
    && id in rooms
    && ActiveHotel(hotels, model.hotelId)
    && (rooms[id].hotelId != model.hotelId ==>
          ActiveRoomCount(rooms, model.hotelId) < hotels[model.hotelId].totalRooms)
    && model.floor <= hotels[model.hotelId].totalFloors
    && !SlotTaken(rooms, model.name, model.floor, model.hotelId, Some(id))
  }

  /** `Edit`: the id check, the form, the room, the target hotel (existing
      and active), its capacity when the room moves, the floor, then the
      duplicate among the other active rooms; else overwrite five fields. */
  method Edit(db: HotelManagementContext, id: Id, model: RoomViewModel) returns (result: Outcome)
    requires db.Valid()
    modifies db
    ensures db.Valid()
    ensures db.hotels == old(db.hotels) && db.reservations == old(db.reservations)
    ensures model.roomId != Some(id) ==> result == RoomIdMismatch
    ensures model.roomId == Some(id) && !RoomModelIsValid(model) ==> result == ValidationFailed
    ensures (&& model.roomId == Some(id) && RoomModelIsValid(model)
             && id !in old(db.rooms))
            ==> result == RoomNotFound
    ensures (&& model.roomId == Some(id) && RoomModelIsValid(model)
             && id in old(db.rooms) && !ActiveHotel(db.hotels, model.hotelId))
            ==> result == HotelNotFound
    ensures (&& model.roomId == Some(id) && RoomModelIsValid(model)
             && id in old(db.rooms) && ActiveHotel(db.hotels, model.hotelId)
             && old(db.rooms)[id].hotelId != model.hotelId
             && ActiveRoomCount(old(db.rooms), model.hotelId) >= db.hotels[model.hotelId].totalRooms)
            ==> result == HotelFull
    ensures (&& model.roomId == Some(id) && RoomModelIsValid(model)
             && id in old(db.rooms) && ActiveHotel(db.hotels, model.hotelId)
             && (old(db.rooms)[id].hotelId != model.hotelId ==>
                   ActiveRoomCount(old(db.rooms), model.hotelId) < db.hotels[model.hotelId].totalRooms)
             && model.floor > db.hotels[model.hotelId].totalFloors)
            ==> result == FloorOutOfRange
    ensures result == Updated <==> CanEdit(db.hotels, old(db.rooms), id, model)
    ensures result == Updated ==>
              && db.rooms == old(db.rooms)[id := Edited(old(db.rooms)[id], model)]
              && (old(db.rooms)[id].isActive && old(db.rooms)[id].hotelId != model.hotelId ==>
                    ActiveRoomCount(db.rooms, model.hotelId) <= db.hotels[model.hotelId].totalRooms)
    ensures result == DuplicateRoom <==>
              && model.roomId == Some(id) && RoomModelIsValid(model) && id in old(db.rooms)
              && ActiveHotel(db.hotels, model.hotelId)
              && (old(db.rooms)[id].hotelId != model.hotelId ==>
                    ActiveRoomCount(old(db.rooms), model.hotelId) < db.hotels[model.hotelId].totalRooms)
              && model.floor <= db.hotels[model.hotelId].totalFloors
              && SlotTaken(old(db.rooms), model.name, model.floor, model.hotelId, Some(id))
    ensures result != Updated ==> db.rooms == old(db.rooms)
  {
    if model.roomId != Some(id) {
      return RoomIdMismatch;
    }
    if !RoomModelIsValid(model) {
      return ValidationFailed;
    }
    if id !in db.rooms {
      return RoomNotFound;
    }
    var currentRoom := db.rooms[id];
    if !ActiveHotel(db.hotels, model.hotelId) {
      return HotelNotFound;
    }
    var hotel := db.hotels[model.hotelId];
    if currentRoom.hotelId != model.hotelId {
      var targetHotelRoomCount := ActiveRoomCount(db.rooms, model.hotelId);
      if targetHotelRoomCount >= hotel.totalRooms {
        return HotelFull;
      }
    }
    if model.floor > hotel.totalFloors {
      return FloorOutOfRange;
    }
    if SlotTaken(db.rooms, model.name, model.floor, model.hotelId, Some(id)) {
      return DuplicateRoom;
    }
    var room := Edited(currentRoom, model);
    OpenSlotKeepsRoomsUnique(db.rooms, id, room);
    if currentRoom.isActive && currentRoom.hotelId != model.hotelId {
      ActiveRoomCountAfterPut(db.rooms, id, room);
    }
    db.rooms := db.rooms[id := room];
    result := Updated;
  }

  /** The room after `Delete`: only the active flag changes. */
  function Deactivate(rooms: map<Id, Room>, id: Id): (after: map<Id, Room>)
    requires id in rooms
    ensures after.Keys == rooms.Keys
    ensures !after[id].isActive
  {
    rooms[id := rooms[id].(isActive := false)]
  }

  /** `Delete`: a soft delete of an existing room, active or not. */
  method Delete(db: HotelManagementContext, id: Id) returns (result: Outcome)
    requires db.Valid()
    modifies db
    ensures db.Valid()
    ensures db.hotels == old(db.hotels) && db.reservations == old(db.reservations)
    ensures result == RoomNotFound <==> id !in old(db.rooms)
    ensures result == Deactivated <==> id in old(db.rooms)
    ensures result == Deactivated ==> db.rooms == Deactivate(old(db.rooms), id)
    ensures result != Deactivated ==> db.rooms == old(db.rooms)
  {
    if id !in db.rooms {
      return RoomNotFound;
    }
    db.rooms := Deactivate(db.rooms, id);
    result := Deactivated;
  }

  // ---------------------------------------------------------------------
  // Properties of the catalogue

  /** Putting an active room into a slot the duplicate query found free
      (ignoring the room's own key) keeps (name, floor, hotel) unique among
      active rooms. Create and Edit both rely on it. */
  lemma OpenSlotKeepsRoomsUnique(rooms: map<Id, Room>, k: Id, room: Room)
    requires UniqueActiveRooms(rooms) && RoomKeysMatch(rooms)
    requires room.roomId == k
    requires !SlotTaken(rooms, room.name, room.floor, room.hotelId, Some(k))
    ensures UniqueActiveRooms(rooms[k := room])
    ensures RoomKeysMatch(rooms[k := room])
  {
    var m := rooms[k := room];
    forall a, b | a in m && b in m && a != b && m[a].isActive && m[b].isActive
      ensures !SameSlot(m[a], m[b])
    {
      if a == k {
        assert rooms[b].roomId != k;
      } else if b == k {
        assert rooms[a].roomId != k;
      }
    }
  }

  /** The probe answers for a new room exactly what Create's duplicate guard
      decides, and for an existing room what Edit's decides, once the form's
      name, floor and hotel are filled in. */
  lemma ProbeMatchesGuards(rooms: map<Id, Room>, model: RoomViewModel, id: Id)
    requires RoomModelIsValid(model) && model.hotelId != EmptyId
    ensures IsRoomAvailable(rooms, model.name, model.floor, model.hotelId, None)
            == !SlotTaken(rooms, model.name, model.floor, model.hotelId, None)
    ensures IsRoomAvailable(rooms, model.name, model.floor, model.hotelId, Some(id))
            == !SlotTaken(rooms, model.name, model.floor, model.hotelId, Some(id))
  {
  }

  /** A created room shows up in the listing; nothing else there changes. */
  lemma CreateAddsToIndex(rooms: map<Id, Room>, newId: Id, model: RoomViewModel)
    ensures Index(rooms[newId := NewRoom(newId, model)]) == Index(rooms)[newId := NewRoom(newId, model)]
  {
  }

  /** A deleted room leaves the listing; nothing else there changes. */
  lemma DeleteRemovesFromIndex(rooms: map<Id, Room>, id: Id)
    requires id in rooms
    ensures Index(Deactivate(rooms, id)) == Index(rooms) - {id}
  {
  }

  /** Deleting twice is deleting once. */
  lemma DeleteIsIdempotent(rooms: map<Id, Room>, id: Id)
    requires id in rooms
    ensures Deactivate(Deactivate(rooms, id), id) == Deactivate(rooms, id)
  {
  }
}
