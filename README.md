# Hotel management: a verified model of the booking and catalogue core

This project models the booking and catalogue logic of an ASP.NET Core hotel
management application. Hotels have floors and a room capacity. Rooms belong
to a hotel and carry a daily charge. Guests reserve a room for a time window
`[From, To)`. The database context is modelled as one sequential in-memory
store (`Store.HotelManagementContext`) holding three maps keyed by id: hotels,
rooms and reservations. Each controller action that writes is a module-level
method that takes the store and modifies it; each query is a pure function
over its maps. Every method keeps the store invariant
`Consistent`, which says:

- every record sits under its own key;
- rooms reference hotels and reservations reference rooms (the two foreign
  keys);
- every active room belongs to an active hotel;
- no two active rooms share name, floor and hotel;
- every reservation covers a non-empty interval;
- on each room, the stored reservations never overlap.

Modules:

- `Models`: the three entities (`Hotel`, `Room`, `Reservation`), ids, ticks
  and the `[Range(1, int.MaxValue)]` bound.
- `Text`: .NET `char.IsWhiteSpace`, `string.IsNullOrWhiteSpace`,
  `string.Trim` and `string.Length` in UTF-16 code units.
- `Intervals`: the overlap test `!(r.To <= from || r.From >= to)` used by
  both the search and the booking.
- `Arithmetic`: small facts about products and division used by the proofs.
- `HotelViewModels`, `ViewModels`: the forms and what their annotations let
  through `ModelState.IsValid`.
- `Store`: the tables, the invariant, and the facts each action relies on to
  keep it.
- `ReservationsController`, `RoomsController`, `HotelsController`: the
  actions.

`DateTime.Now` is an explicit `now` parameter. A fresh `Guid.NewGuid()` is a
caller-supplied `newId` that is non-empty and not yet a key. A `DateTime` is
a whole number of 100-ns ticks.

Behaviour worth noting:

- the search returns the matching rooms in no particular order;
- a booking checks for conflicting reservations before it looks the room up,
  so a conflict on an inactive room reports "already reserved";
- a booking accepts windows that lie in the past (only the search refuses
  them);
- the reservation listing breaks ties on `From` by descending reservation id;
- the hotel form's validity is the program's own, including the 32-bit
  wrap-around of its rooms-per-floor rule (see Findings).

## Model

| member | source | states |
|---|---|---|
| Text.Trim | Assignment/Controllers/ReservationsController.cs:131 | The trimmed guest name is a contiguous slice of the input. It is empty exactly when the input is blank, and otherwise starts and ends with a non-white-space character. Only white space is cut from either end. |
| Text.Utf16Length | Assignment/ViewModels/RoomViewModel.cs:9-12 | The length `[StringLength]` bounds: between the number of characters and twice it, equal to it when every character is in the Basic Multilingual Plane and twice it when none is. |
| Text.TwentyEmojiExceedTwentyUnits | Assignment/ViewModels/RoomViewModel.cs:9-12 | Twenty emoji are twenty characters but forty code units, so a 20-unit limit refuses them. |
| Intervals.Overlaps | Assignment/Controllers/ReservationsController.cs:105-106 | The conflict test holds exactly when the two half-open windows share an instant: `rFrom < to && from < rTo`. |
| Intervals.OverlapsSymmetric | Assignment/Controllers/ReservationsController.cs:54 | Overlap does not depend on which window is the stored one. |
| Intervals.TouchingDoesNotOverlap | Assignment/Controllers/ReservationsController.cs:105-106 | Back-to-back windows, where one ends exactly where the other starts, do not conflict in either order. |
| Intervals.NonEmptyOverlapsItself | Assignment/Controllers/ReservationsController.cs:105-106 | A non-empty window conflicts with itself. |
| HotelViewModels.AnnotationsHold | Assignment/ViewModels/HotelViewModel.cs:9-29 | Name non-blank and at most 20 code units, address absent or at most 100, rating non-blank, floors and rooms in `[1, int.MaxValue]`, rooms per floor present and in that range. |
| HotelViewModels.ModelIsValidAsWritten | Assignment/ViewModels/HotelViewModel.cs:9-42 | The program's `ModelState.IsValid` for the hotel form: the annotations and the rule with the wrapping product. |
| HotelViewModels.ModelIsValid | Assignment/ViewModels/HotelViewModel.cs:9-42 | The same with the rule as intended; the corrected half of the finding. |
| HotelViewModels.WrapInt32 | Assignment/ViewModels/HotelViewModel.cs:35 | The unchecked 32-bit result lies in the `int` range, is congruent to the exact value modulo 2^32, and equals the exact value when that fits. |
| HotelViewModels.ValidateAsWritten | Assignment/ViewModels/HotelViewModel.cs:31-42 | The rule as written yields at most one error, and that error is the RoomsPerFloor mismatch. It yields none when rooms per floor is missing or a total is not positive. |
| HotelViewModels.Validate | Assignment/ViewModels/HotelViewModel.cs:31-42 | The intended rule, with the product taken exactly, has the same shape as the rule as written. |
| HotelViewModels.ValidateRejectsExactlyMismatch | Assignment/ViewModels/HotelViewModel.cs:33-40 | The rule rejects a form if and only if rooms per floor is given, both totals are positive, and rooms per floor times floors differs from total rooms. |
| HotelViewModels.ValidModelFillsEveryFloor | Assignment/ViewModels/HotelViewModel.cs:9-42 | An accepted hotel form has rooms per floor times floors equal to total rooms, the floor count divides the room count, and there are no more floors than rooms. |
| HotelViewModels.AsWrittenAgreesWithoutOverflow | Assignment/ViewModels/HotelViewModel.cs:35 | When the product fits in 32 bits, the rule as written and the intended rule give the same answer. |
| HotelViewModels.AsWrittenAdmitsOverflowedForm | Assignment/ViewModels/HotelViewModel.cs:35 | Take 6 700 417 floors, 641 rooms per floor and 1 room in total. The program's validity accepts this form, but the intended rule rejects it. |
| ViewModels.RoomModelIsValid | Assignment/ViewModels/RoomViewModel.cs:9-25 | The room form is valid when the name is non-blank and at most 20 code units, floor and charges are in `[1, int.MaxValue]`, and the type is non-blank. |
| ViewModels.ReservationModelIsValid | Assignment/ViewModels/ReservationViewModel.cs:32-42 | The booking request is valid exactly when the guest name is not blank; the other required fields are non-nullable. |
| Store.HotelManagementContext.constructor | Assignment/Models/HotelManagementContext.cs:30-71 | An empty database meets the store invariant. |
| Store.Booked | Assignment/Controllers/ReservationsController.cs:104-109 | A window is booked on a room exactly when some reservation on that room starts before the window ends and ends after the window starts. |
| Store.ActiveRoomCount | Assignment/Controllers/RoomsController.cs:86 | The hotel's active-room count is at most the number of rooms, and is zero exactly when none of the hotel's rooms is active. |
| Store.BookingKeepsNoOverlap | Assignment/Controllers/ReservationsController.cs:104-140 | Inserting a reservation that the conflict query did not flag keeps every room's reservations pairwise disjoint. |
| Store.ActiveRoomCountAfterPut | Assignment/Controllers/RoomsController.cs:86-104 | Adding an active room under a new key grows that hotel's set of active rooms by exactly that key. Its count rises by one. |
| ReservationsController.Availability | Assignment/Controllers/ReservationsController.cs:60-68 | A search row carries the room's id, name, floor, type and charges and its hotel's name. |
| ReservationsController.SearchRooms | Assignment/Controllers/ReservationsController.cs:32-69 | The date guards apply in order: from in the past, then to in the past, then to not after from. A bound equal to `now` passes. Once the guards pass, a room's row is listed if and only if the room is active and no reservation on it overlaps the window. Every listed row is the row of its room, carrying its hotel's name. |
| ReservationsController.DurationHours | Assignment/Controllers/ReservationsController.cs:125 | The duration is at least one hour and is the ceiling of the stay in hours: `(h-1)` hours fall short and `h` hours cover it. |
| ReservationsController.DurationIsLeastCover | Assignment/Controllers/ReservationsController.cs:125 | Any whole number of hours that covers the stay with less than an hour to spare equals the computed duration. |
| ReservationsController.RoundHalfAwayFromZero | Assignment/Controllers/ReservationsController.cs:127 | The rounded value is within half a unit of the exact quotient, and a tie goes away from zero. |
| ReservationsController.RoundingIsUnique | Assignment/Controllers/ReservationsController.cs:127 | Those two properties determine the rounded value, so the rounding is the unique such integer. |
| ReservationsController.Cost | Assignment/Controllers/ReservationsController.cs:124-127 | The cost is within half a unit of days times the daily charge. |
| ReservationsController.HalfDayAtHundredADay | Assignment/Controllers/ReservationsController.cs:124-127 | A 12-hour stay at 100 a day lasts 12 hours and costs 50. |
| ReservationsController.NewReservation | Assignment/Controllers/ReservationsController.cs:128-137 | The stored reservation carries the new id, the room, the window, the trimmed name, the covering duration and the rounded cost. |
| ReservationsController.ReserveRoom | Assignment/Controllers/ReservationsController.cs:98-140 | The outcomes follow the guard order: a blank name is invalid input, then `From >= To` is an invalid date range, then a conflict on the room means already reserved, then a missing or inactive room is not found. A booking succeeds if and only if every guard passes. On success exactly one reservation is added and nothing else changes. The store invariant, including per-room disjointness, is preserved. |
| ReservationsController.ListedRoomIsReservable | Assignment/Controllers/ReservationsController.cs:104-122 | A room that the search lists for a window passes every booking guard for that window, given a non-blank name. |
| ReservationsController.BookingBlocksOverlappingWindows | Assignment/Controllers/ReservationsController.cs:104-112 | After a reservation is stored, every window that overlaps it is booked for its room. |
| ReservationsController.TouchingWindowsUnaffected | Assignment/Controllers/ReservationsController.cs:105-106 | Storing a reservation leaves windows that end where it starts, or start where it ends, exactly as booked as they were before. |
| ReservationsController.InsertNewestFirst | Assignment/Controllers/ReservationsController.cs:166-167 | Inserting into a listing ordered by descending `From`, then descending id, keeps that order. The length grows by one and the elements are the old ones plus the new one. |
| ReservationsController.ViewReservations | Assignment/Controllers/ReservationsController.cs:162-168 | The listing holds every reservation exactly once, each under its own id. It is strictly ordered by descending `From`, then descending id. |
| ReservationsController.CancelReservation | Assignment/Controllers/ReservationsController.cs:185-211 | The outcomes follow the guard order: the empty id is invalid, then an unknown id is not found, then a reservation with `To <= now` is already completed. Otherwise exactly that reservation is removed, even one still in progress. Nothing else changes and the invariant is kept. |
| ReservationsController.CancelFreesInterval | Assignment/Controllers/ReservationsController.cs:210 | After a cancellation, the cancelled interval is no longer booked on its room. |
| ReservationsController.CancelReopensRoom | Assignment/Controllers/ReservationsController.cs:210 | Suppose the cancelled interval has not begun and its room is still active. Then, after the cancellation, a search for that interval lists the room again. |
| RoomsController.Index | Assignment/Controllers/RoomsController.cs:21-25 | The listing holds exactly the active rooms, unchanged. |
| RoomsController.SlotTaken | Assignment/Controllers/RoomsController.cs:66-72 | The duplicate query: some active room other than the excepted one has this name, floor and hotel. |
| RoomsController.NewRoom | Assignment/Controllers/RoomsController.cs:93-102 | A created room takes the new id and the form's five fields and is active. |
| RoomsController.Edited | Assignment/Controllers/RoomsController.cs:201-205 | An edited room takes the form's name, floor, hotel, type and charges; its id and active flag stay. |
| RoomsController.IsRoomAvailable | Assignment/Controllers/RoomsController.cs:222-231 | A blank name, a floor of zero or less, or the empty hotel id answers available. Otherwise the answer is available if and only if no other active room has this name, floor and hotel. |
| RoomsController.ProbeMatchesGuards | Assignment/Controllers/RoomsController.cs:222-231 | For a filled-in form, the probe gives the same answer as Create's duplicate guard (no own id) and as Edit's (with own id). |
| RoomsController.Create | Assignment/Controllers/RoomsController.cs:57-110 | The outcomes follow the guard order: invalid form, then missing or inactive hotel, then duplicate, then floor beyond the hotel's floors, then hotel full. Creation succeeds if and only if every guard passes. It adds exactly one active room, and the hotel's active-room count rises by one and stays within its total. Uniqueness and the invariant are kept. |
| RoomsController.Edit | Assignment/Controllers/RoomsController.cs:151-207 | The outcomes follow the guard order: id mismatch, invalid form, room not found, target hotel not found, then target hotel full (only when the room moves), then floor out of range, then duplicate among the other active rooms. On success exactly the five form fields change. The active flag stays, and uniqueness and the invariant are kept. |
| RoomsController.Deactivate | Assignment/Controllers/RoomsController.cs:251 | A room delete keeps the set of keys and leaves the room inactive. |
| RoomsController.Delete | Assignment/Controllers/RoomsController.cs:245-252 | An unknown id is not found. Otherwise only the room's active flag is cleared, whether or not the room was already inactive. |
| RoomsController.OpenSlotKeepsRoomsUnique | Assignment/Controllers/RoomsController.cs:66-78 | Putting an active room into a slot that the duplicate query found free keeps (name, floor, hotel) unique among active rooms. |
| RoomsController.CreateAddsToIndex | Assignment/Controllers/RoomsController.cs:93-104 | A created room appears in the listing, and nothing else in the listing changes. |
| RoomsController.DeleteRemovesFromIndex | Assignment/Controllers/RoomsController.cs:245-252 | A deleted room leaves the listing, and nothing else in the listing changes. |
| RoomsController.DeleteIsIdempotent | Assignment/Controllers/RoomsController.cs:245-252 | Deleting a room twice has the same effect as deleting it once. |
| HotelsController.Index | Assignment/Controllers/HotelsController.cs:21-24 | The listing holds exactly the active hotels, unchanged. |
| HotelsController.NameTakenBy | Assignment/Controllers/HotelsController.cs:150 | The name query: some active hotel other than the excepted one has this name. |
| HotelsController.NewHotel | Assignment/Controllers/HotelsController.cs:58-68 | A created hotel takes the new id and the form's fields, rooms per floor defaulting to 0, and is active. |
| HotelsController.Edited | Assignment/Controllers/HotelsController.cs:122-127 | An edited hotel takes the form's name, address, rating, floors, rooms and rooms per floor as given; its id and active flag stay. |
| HotelsController.HasActiveRooms | Assignment/Controllers/HotelsController.cs:174 | Some active room references the hotel. |
| HotelsController.IsNameAvailable | Assignment/Controllers/HotelsController.cs:147-152 | A blank name answers available. Otherwise the answer is available if and only if no other active hotel has this name. |
| HotelsController.ProbeMatchesCreateGuard | Assignment/Controllers/HotelsController.cs:147-152 | For a valid form, the probe gives the same answer as Create's name guard. |
| HotelsController.Create | Assignment/Controllers/HotelsController.cs:45-71 | A form the program finds invalid (annotations, or the wrapping rooms-per-floor rule) fails, then a name already held by an active hotel is refused. Creation succeeds if and only if both guards pass. It adds exactly one active hotel, with rooms per floor defaulting to 0. Unique active names are kept. |
| HotelsController.FreeNameKeepsNamesUnique | Assignment/Controllers/HotelsController.cs:48-70 | Adding an active hotel under a name that no active hotel has keeps active hotel names unique. |
| HotelsController.Edit | Assignment/Controllers/HotelsController.cs:115-129 | The outcomes follow the guard order: id mismatch, a form the program finds invalid, hotel not found (active or not). On success exactly six fields are overwritten, with rooms per floor as given. The invariant is kept. |
| HotelsController.EditCanDuplicateName | Assignment/Controllers/HotelsController.cs:115-129 | Edit re-checks no name. A valid edit can give an active hotel the name of another active hotel. |
| HotelsController.EditCanOverfillHotel | Assignment/Controllers/HotelsController.cs:122-127 | Edit does not compare the new total with the hotel's active rooms. A valid edit can leave a hotel with more active rooms than its total. |
| HotelsController.Deactivate | Assignment/Controllers/HotelsController.cs:180 | A hotel delete keeps the set of keys and leaves the hotel inactive. |
| HotelsController.Delete | Assignment/Controllers/HotelsController.cs:168-181 | An unknown id is not found, then a hotel with any active room is refused. Deactivation succeeds if and only if the hotel exists and has no active room, and only its active flag changes. The invariant is kept. |
| HotelsController.DeactivatingUnusedHotelKeepsRoomsHoused | Assignment/Controllers/HotelsController.cs:174-180 | Deactivating a hotel that no active room references keeps every active room in an active hotel. |
| HotelsController.DeleteRemovesFromIndex | Assignment/Controllers/HotelsController.cs:168-181 | A deleted hotel leaves the listing, and nothing else in the listing changes. |
| HotelsController.DeleteIsIdempotent | Assignment/Controllers/HotelsController.cs:168-181 | Deleting a hotel twice has the same effect as deleting it once. |

## Left out

- Concurrency: the store is sequential, so two requests racing between the conflict query and `SaveChangesAsync` are not modelled. The source takes no lock and uses no transaction.
- Entity Framework, SQL Server, async I/O and the `try`/`catch` blocks that turn storage exceptions into error messages are left out. The model has no failing store.
- MVC plumbing is left out: views, `TempData` messages, JSON message texts, `ViewBag.Hotels`, anti-forgery tokens, and the GET `Create`/`Edit` actions that only fill a form.
- `Include`/`ThenInclude` navigations are left out. The model follows ids through the maps instead. Column limits (`HasMaxLength`) are left out because the database enforces them at save time.
- Program.cs (service set-up and routing) is not part of this model.
- Ids are natural numbers. The order used to break ties in the reservation listing is the order on these numbers, not SQL Server's `uniqueidentifier` byte order.
- ReservationsController.SearchRooms: `ModelState.IsValid` for the search form holds for every input the model can express, because its two dates are non-nullable; an unparsable posted date is not modelled.
- ReservationsController.ReserveRoom: the `totalDays` figure of the reply (days rounded to two decimals) is display output and is not modelled.
- ReservationsController.Cost: the source converts ticks to `double` days, multiplies by a `decimal` rate converted to `double`, rounds, and casts to `int`. The model computes the same quantity over exact integers. It does not model floating-point error or the overflow of the final cast.
- ReservationsController.DurationHours: computed exactly over ticks. The `double` hours of the source and the overflow of its `(int)` cast are not modelled.
- ReservationsController.ViewReservations: a ghost function, because picking the next key from a map needs `:|`. The executable query is the ordering itself, which `InsertNewestFirst` captures.
- RoomsController.Create, RoomsController.Edit, RoomsController.IsRoomAvailable: the duplicate query compares names exactly, while the program runs it in SQL under the database collation (by default case-insensitive and blind to trailing spaces), so the model accepts "alpha" beside an active "Alpha" where the program refuses it.
- HotelsController.Create, HotelsController.IsNameAvailable: the name query compares names exactly rather than under the database collation, with the same consequence.
- Hotel name uniqueness and room capacity per hotel are not part of the store invariant, because hotel Edit can break both. They are stated per operation instead (`Create`, `EditCanDuplicateName`, `EditCanOverfillHotel`).

## Findings

| source | as written | input that shows it | evidently intended | confidence | as-written member | corrected member |
|---|---|---|---|---|---|---|
| Assignment/ViewModels/HotelViewModel.cs:35 | `RoomsPerFloor.Value * TotalFloors != TotalRooms` is computed in unchecked 32-bit `int`, so the product can wrap around | TotalFloors = 6 700 417, RoomsPerFloor = 641, TotalRooms = 1: the product 2^32 + 1 wraps to 1, so the form is accepted | Rooms per floor times floors equals total rooms over the integers | not executed | HotelViewModels.AsWrittenAdmitsOverflowedForm | HotelViewModels.ValidModelFillsEveryFloor |
