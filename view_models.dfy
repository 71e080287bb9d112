/** The room form and the two reservation forms (ViewModels/RoomViewModel.cs,
    ViewModels/ReservationViewModel.cs) with what their data annotations let
    through `ModelState.IsValid`. */
module ViewModels {
  import opened Models
  import opened Text

  datatype RoomViewModel = RoomViewModel(
    roomId: Option<Id>,
    name: string,
    floor: int,
    hotelId: Id,
    roomType: string,
    charges: int)

  /** `ModelState.IsValid` for the room form: Name required and at most 20
      UTF-16 code units, Floor and Charges in `[1, int.MaxValue]`, Type required.
      `[Required]` on the non-nullable `HotelId` always holds. */
  predicate RoomModelIsValid(m: RoomViewModel) {
    && !IsNullOrWhiteSpace(m.name) && Utf16Length(m.name) <= 20
    && PositiveInt(m.floor)
    && !IsNullOrWhiteSpace(m.roomType)
    && PositiveInt(m.charges)
  }

  /** The booking request. The `Cost`, `DurationHours`, `RoomName` and
      `HotelName` properties are display-only and never read by the booking. */
  datatype CreateReservationViewModel = CreateReservationViewModel(
    name: string,
    roomId: Id,
    from: Ticks,
    to: Ticks)

  /** `ModelState.IsValid` for the booking request: `[Required]` on `Name`
      rejects a blank name; on the non-nullable `RoomId`, `From` and `To` it
      always holds. */
  predicate ReservationModelIsValid(m: CreateReservationViewModel) {
    !IsNullOrWhiteSpace(m.name)
  }

  /** One row of the availability search result. */
  datatype AvailableRoomViewModel = AvailableRoomViewModel(
    roomId: Id,
    roomName: string,
    hotelName: string,
    floor: int,
    roomType: string,
    charges: int)
}
