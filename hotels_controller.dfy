/** The hotel catalogue (Controllers/HotelsController.cs): listing, creation
    with an active-name check, editing, the name probe used by the form and
    soft deletion refused while active rooms remain. The fresh
    `Guid.NewGuid()` of a new hotel is the caller-supplied `newId`. */
module HotelsController {
  import opened Models
  import opened Text
  import opened HotelViewModels
  import opened Store

  datatype Outcome =
    | Created(hotelId: Id)
    | Updated
    | Deactivated
    | BadRequest
    | ValidationFailed
    | NameTaken
    | HotelNotFound
    | HotelInUse

  /** `Index`: the active hotels, keyed by id. */
  function Index(hotels: map<Id, Hotel>): (listed: map<Id, Hotel>)
    ensures forall k :: k in listed <==> k in hotels && hotels[k].isActive
    ensures forall k :: k in listed ==> listed[k] == hotels[k]
  {
    map k | k in hotels && hotels[k].isActive :: hotels[k]
  }

  /** Some active hotel other than `except` already has this name. */
  predicate NameTakenBy(hotels: map<Id, Hotel>, name: string, except: Option<Id>) {
    exists k :: k in hotels && hotels[k].isActive && hotels[k].name == name
      && (except.None? || hotels[k].hotelId != except.value)
  }

  /** `IsNameAvailable`: the remote-validation probe of the hotel form. */
  function IsNameAvailable(hotels: map<Id, Hotel>, name: string, id: Option<Id>): (available: bool)
    ensures IsNullOrWhiteSpace(name) ==> available
    ensures !IsNullOrWhiteSpace(name) ==>
              (available <==> forall k :: k in hotels && hotels[k].isActive && (id.None? || hotels[k].hotelId != id.value)
                                 ==> hotels[k].name != name)
  {
    if IsNullOrWhiteSpace(name) then true
    else !NameTakenBy(hotels, name, id)
  }

  /** The hotel a successful Create stores; a missing rooms-per-floor count
      becomes 0. */
  function NewHotel(id: Id, model: HotelViewModel): Hotel {
    Hotel(id, model.name, model.address, model.rating, model.totalRooms, model.totalFloors,
          Some(if model.roomsPerFloor.Some? then model.roomsPerFloor.value else 0), true)
  }

  /** `Create`: the form, then the name among active hotels; else one new
      active hotel. */
  method Create(db: HotelManagementContext, model: HotelViewModel, newId: Id) returns (result: Outcome)
    requires db.Valid()
    requires newId != EmptyId && newId !in db.hotels
    modifies db
    ensures db.Valid()
    ensures db.rooms == old(db.rooms) && db.reservations == old(db.reservations)
    ensures !ModelIsValidAsWritten(model) ==> result == ValidationFailed
    ensures ModelIsValidAsWritten(model) && NameTakenBy(old(db.hotels), model.name, None) ==> result == NameTaken
    ensures result.Created? <==> ModelIsValidAsWritten(model) && !NameTakenBy(old(db.hotels), model.name, None)
    ensures result.Created? ==>
              && result == Created(newId)
              && db.hotels == old(db.hotels)[newId := NewHotel(newId, model)]
    ensures !result.Created? ==> db.hotels == old(db.hotels)
    ensures UniqueActiveHotelNames(old(db.hotels)) ==> UniqueActiveHotelNames(db.hotels)
  {
    if !ModelIsValidAsWritten(model) {
      return ValidationFailed;
    }
    if NameTakenBy(db.hotels, model.name, None) {
      return NameTaken;
    }
    var hotel := NewHotel(newId, model);
    if UniqueActiveHotelNames(db.hotels) {
      FreeNameKeepsNamesUnique(db.hotels, newId, hotel);
    }
    db.hotels := db.hotels[newId := hotel];
    result := Created(newId);
  }

  /** The hotel after a successful Edit: Name, Address, Rating, the three
      counts come from the form (rooms per floor as given, without the
      default); the id and the active flag stay. */
  function Edited(hotel: Hotel, model: HotelViewModel): Hotel {
    hotel.(name := model.name, address := model.address, rating := model.rating,
           totalFloors := model.totalFloors, totalRooms := model.totalRooms,
           roomsPerFloor := model.roomsPerFloor)
  }

  /** `Edit`: the id check, the form, the hotel (active or not); else
      overwrite six fields. Neither the name nor the room capacity is
      checked again. */
  method Edit(db: HotelManagementContext, id: Id, model: HotelViewModel) returns (result: Outcome)
    requires db.Valid()
    modifies db
    ensures db.Valid()
    ensures db.rooms == old(db.rooms) && db.reservations == old(db.reservations)
    ensures model.hotelId != Some(id) ==> result == BadRequest
    ensures model.hotelId == Some(id) && !ModelIsValidAsWritten(model) ==> result == ValidationFailed
    ensures model.hotelId == Some(id) && ModelIsValidAsWritten(model) && id !in old(db.hotels) ==> result == HotelNotFound
    ensures result == Updated <==> model.hotelId == Some(id) && ModelIsValidAsWritten(model) && id in old(db.hotels)
    ensures result == Updated ==> db.hotels == old(db.hotels)[id := Edited(old(db.hotels)[id], model)]
    ensures result != Updated ==> db.hotels == old(db.hotels)
  {
    if model.hotelId != Some(id) {
      return BadRequest;
    }
    if !ModelIsValidAsWritten(model) {
      return ValidationFailed;
    }
    if id !in db.hotels {
      return HotelNotFound;
    }
    db.hotels := db.hotels[id := Edited(db.hotels[id], model)];
    result := Updated;
  }

  /** Some active room belongs to the hotel. */
  predicate HasActiveRooms(rooms: map<Id, Room>, hotelId: Id) {
    exists k :: k in rooms && rooms[k].hotelId == hotelId && rooms[k].isActive
  }

  /** The hotels after `Delete`: only the active flag changes. */
  function Deactivate(hotels: map<Id, Hotel>, id: Id): (after: map<Id, Hotel>)
    requires id in hotels
    ensures after.Keys == hotels.Keys
    ensures !after[id].isActive
  {
    hotels[id := hotels[id].(isActive := false)]
  }

  /** `Delete`: a soft delete of an existing hotel, refused while any active
      room references it. */
  method Delete(db: HotelManagementContext, id: Id) returns (result: Outcome)
    requires db.Valid()
    modifies db
    ensures db.Valid()
    ensures db.rooms == old(db.rooms) && db.reservations == old(db.reservations)
    ensures id !in old(db.hotels) ==> result == HotelNotFound
    ensures id in old(db.hotels) && HasActiveRooms(db.rooms, id) ==> result == HotelInUse
    ensures result == Deactivated <==> id in old(db.hotels) && !HasActiveRooms(db.rooms, id)
    ensures result == Deactivated ==> db.hotels == Deactivate(old(db.hotels), id)
    ensures result != Deactivated ==> db.hotels == old(db.hotels)
  {
    if id !in db.hotels {
      return HotelNotFound;
    }
    if HasActiveRooms(db.rooms, id) {
      return HotelInUse;
    }
    DeactivatingUnusedHotelKeepsRoomsHoused(db.hotels, db.rooms, id);
    db.hotels := Deactivate(db.hotels, id);
    result := Deactivated;
  }

  // ---------------------------------------------------------------------
  // Properties of the catalogue

  /** Adding an active hotel under a name no active hotel has keeps active
      names unique. */
  lemma FreeNameKeepsNamesUnique(hotels: map<Id, Hotel>, newId: Id, hotel: Hotel)
    requires UniqueActiveHotelNames(hotels)
    requires newId !in hotels
    requires !NameTakenBy(hotels, hotel.name, None)
    ensures UniqueActiveHotelNames(hotels[newId := hotel])
  {
    var m := hotels[newId := hotel];
    forall a, b | a in m && b in m && a != b && m[a].isActive && m[b].isActive
      ensures m[a].name != m[b].name
    {
      if a == newId {
        assert b in hotels && hotels[b].isActive;
      } else if b == newId {
        assert a in hotels && hotels[a].isActive;
      }
    }
  }

  /** Editing does not re-check the name, so it can give an active hotel the
      name of another one. */
  lemma EditCanDuplicateName()
    ensures var hotels := map[1 := Hotel(1, "Alpha", None, "5", 10, 2, Some(5), true),
                              2 := Hotel(2, "Beta", None, "4", 10, 2, Some(5), true)];
            var model := HotelViewModel(Some(2), "Alpha", None, "4", 2, 10, Some(5));
            && UniqueActiveHotelNames(hotels)
            && ModelIsValidAsWritten(model)
            && !UniqueActiveHotelNames(hotels[2 := Edited(hotels[2], model)])
  {
    var hotels := map[1 := Hotel(1, "Alpha", None, "5", 10, 2, Some(5), true),
                      2 := Hotel(2, "Beta", None, "4", 10, 2, Some(5), true)];
    var model := HotelViewModel(Some(2), "Alpha", None, "4", 2, 10, Some(5));
    assert !IsWhiteSpace(model.name[0]) && !IsWhiteSpace(model.rating[0]);
    var edited := hotels[2 := Edited(hotels[2], model)];
    assert edited[1].name == edited[2].name;
  }

  /** Editing does not compare the new room total with the active rooms the
      hotel already has, so it can leave a hotel over capacity. */
  lemma EditCanOverfillHotel()
    ensures var hotels := map[1 := Hotel(1, "Alpha", None, "5", 2, 1, Some(2), true)];
            var rooms := map[7 := Room(7, "101", 1, 1, "Suite", 100, true),
                             8 := Room(8, "102", 1, 1, "Suite", 100, true)];
            var model := HotelViewModel(Some(1), "Alpha", None, "5", 1, 1, Some(1));
            && ActiveRoomCount(rooms, 1) <= hotels[1].totalRooms
            && ModelIsValidAsWritten(model)
            && ActiveRoomCount(rooms, 1) > Edited(hotels[1], model).totalRooms
  {
    var rooms := map[7 := Room(7, "101", 1, 1, "Suite", 100, true),
                     8 := Room(8, "102", 1, 1, "Suite", 100, true)];
    var model := HotelViewModel(Some(1), "Alpha", None, "5", 1, 1, Some(1));
    assert !IsWhiteSpace(model.name[0]) && !IsWhiteSpace(model.rating[0]);
    assert ActiveRoomsOf(rooms, 1) == {7, 8};
  }

  /** Deactivating a hotel no active room references keeps every active
      room in an active hotel. */
  lemma DeactivatingUnusedHotelKeepsRoomsHoused(hotels: map<Id, Hotel>, rooms: map<Id, Room>, id: Id)
    requires ActiveRoomsInActiveHotels(hotels, rooms)
    requires id in hotels && !HasActiveRooms(rooms, id)
    ensures ActiveRoomsInActiveHotels(Deactivate(hotels, id), rooms)
  {
  }

  /** The probe answers what Create's name guard decides for a new hotel. */
  lemma ProbeMatchesCreateGuard(hotels: map<Id, Hotel>, model: HotelViewModel)
    requires AnnotationsHold(model)
    ensures IsNameAvailable(hotels, model.name, None) == !NameTakenBy(hotels, model.name, None)
  {
  }

  /** A deleted hotel leaves the listing; nothing else there changes. */
  lemma DeleteRemovesFromIndex(hotels: map<Id, Hotel>, id: Id)
    requires id in hotels
    ensures Index(Deactivate(hotels, id)) == Index(hotels) - {id}
  {
  }

  /** Deleting twice is deleting once. */
  lemma DeleteIsIdempotent(hotels: map<Id, Hotel>, id: Id)
    requires id in hotels
    ensures Deactivate(Deactivate(hotels, id), id) == Deactivate(hotels, id)
  {
  }
}
