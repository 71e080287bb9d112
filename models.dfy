/** The three persisted entities (Models/Hotel.cs, Models/Room.cs,
    Models/Reservation.cs) as plain records. Navigation properties
    (`Room.Hotel`, `Reservation.Room`, the collections) are replaced by the
    id fields they are keyed on; lookups go through the store's maps. */
module Models {

  /** A GUID. The model only needs equality, a total order for the listing
      tie-break and a distinguished empty value. */
  type Id = nat

  /** `Guid.Empty`. */
  const EmptyId: Id := 0

  /** `int.MaxValue`, the upper bound of every `[Range(1, int.MaxValue)]`. */
  const IntMax: int := 0x7FFF_FFFF

  /** What `[Range(1, int.MaxValue)]` admits. */
  predicate PositiveInt(x: int) {
    1 <= x <= IntMax
  }

  /** A `DateTime` as a count of 100-nanosecond ticks. */
  type Ticks = int

  const TicksPerHour: int := 36_000_000_000
  const TicksPerDay: int := 24 * TicksPerHour

  /** C# nullable values (`int?`, `string?`, `Guid?`). */
  datatype Option<T> = None | Some(value: T)

  datatype Hotel = Hotel(
    hotelId: Id,
    name: string,
    address: Option<string>,
    rating: string,
    totalRooms: int,
    totalFloors: int,
    roomsPerFloor: Option<int>,
    isActive: bool)

  datatype Room = Room(
    roomId: Id,
    name: string,
    floor: int,
    hotelId: Id,
    roomType: string,
    charges: int,
    isActive: bool)

  datatype Reservation = Reservation(
    reservationId: Id,
    name: string,
    roomId: Id,
    from: Ticks,
    to: Ticks,
    cost: int,
    durationHours: int)
}
