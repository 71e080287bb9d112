/** The hotel form (ViewModels/HotelViewModel.cs): its data annotations and
    its `IValidatableObject.Validate` rule "rooms per floor times floors is
    the number of rooms". `ModelState.IsValid` for this form is the
    conjunction of the two. */
module HotelViewModels {
  import opened Models
  import opened Text
  import opened Arithmetic

  datatype HotelViewModel = HotelViewModel(
    hotelId: Option<Id>,
    name: string,
    address: Option<string>,
    rating: string,
    totalFloors: int,
    totalRooms: int,
    roomsPerFloor: Option<int>)

  /** The single `ValidationResult` `Validate` can yield; it names the
      `RoomsPerFloor` member. */
  datatype ValidationError = RoomsPerFloorMismatch

  /** `[Required]`, `[StringLength]` and `[Range]` on the form's properties.
      `[Required]` on the non-nullable `int` properties always holds; on
      `RoomsPerFloor` (an `int?`) it demands a value. */
  predicate AnnotationsHold(vm: HotelViewModel) {
    && !IsNullOrWhiteSpace(vm.name) && Utf16Length(vm.name) <= 20
    && (vm.address.None? || Utf16Length(vm.address.value) <= 100)
    && !IsNullOrWhiteSpace(vm.rating)
    && PositiveInt(vm.totalFloors)
    && PositiveInt(vm.totalRooms)
    && vm.roomsPerFloor.Some? && PositiveInt(vm.roomsPerFloor.value)
  }

  /** The value C#'s unchecked 32-bit `int` arithmetic keeps of `x`. */
  function WrapInt32(x: int): (w: int)
    ensures -IntMax - 1 <= w <= IntMax
    ensures (x - w) % 0x1_0000_0000 == 0
    ensures -IntMax - 1 <= x <= IntMax ==> w == x
  {
    (x + 0x8000_0000) % 0x1_0000_0000 - 0x8000_0000
  }

  /** `Validate` as the source writes it: the product is computed in 32-bit
      `int` and may wrap around before it is compared with `TotalRooms`. */
  function ValidateAsWritten(vm: HotelViewModel): (errors: seq<ValidationError>)
    ensures |errors| <= 1
    ensures errors != [] ==> errors == [RoomsPerFloorMismatch]
    ensures vm.roomsPerFloor.None? || vm.totalFloors <= 0 || vm.totalRooms <= 0 ==> errors == []
  {
    if vm.roomsPerFloor.Some? && vm.totalFloors > 0 && vm.totalRooms > 0 then
      if WrapInt32(vm.roomsPerFloor.value * vm.totalFloors) != vm.totalRooms then
        [RoomsPerFloorMismatch]
      else []
    else []
  }

  /** `Validate` with the product taken over the integers, as intended. */
  function Validate(vm: HotelViewModel): (errors: seq<ValidationError>)
    ensures |errors| <= 1
    ensures errors != [] ==> errors == [RoomsPerFloorMismatch]
    ensures vm.roomsPerFloor.None? || vm.totalFloors <= 0 || vm.totalRooms <= 0 ==> errors == []
  {
    if vm.roomsPerFloor.Some? && vm.totalFloors > 0 && vm.totalRooms > 0 then
      if vm.roomsPerFloor.value * vm.totalFloors != vm.totalRooms then
        [RoomsPerFloorMismatch]
      else []
    else []
  }

  /** `ModelState.IsValid` for the form, as the program computes it: the
      annotations and the rule with the wrapping product. */
  predicate ModelIsValidAsWritten(vm: HotelViewModel) {
    AnnotationsHold(vm) && ValidateAsWritten(vm) == []
  }

  /** The form's validity with the rule as intended. */
  predicate ModelIsValid(vm: HotelViewModel) {
    AnnotationsHold(vm) && Validate(vm) == []
  }

  /** The rule rejects exactly the forms whose three counts are all given,
      both totals are positive and the floors cannot hold the rooms evenly. */
  lemma ValidateRejectsExactlyMismatch(vm: HotelViewModel)
    ensures Validate(vm) != [] <==>
      && vm.roomsPerFloor.Some?
      && vm.totalFloors > 0 && vm.totalRooms > 0
      && vm.roomsPerFloor.value * vm.totalFloors != vm.totalRooms
  {
  }

  /** A form accepted by both the annotations and `Validate` describes a
      hotel whose floors each hold `RoomsPerFloor` rooms: the floor count
      divides the room count. */
  lemma ValidModelFillsEveryFloor(vm: HotelViewModel)
    requires ModelIsValid(vm)
    ensures vm.roomsPerFloor.value * vm.totalFloors == vm.totalRooms
    ensures vm.totalRooms % vm.totalFloors == 0
    ensures vm.totalFloors <= vm.totalRooms
  {
    var p, f := vm.roomsPerFloor.value, vm.totalFloors;
    assert vm.totalRooms == p * f;
    assert (p * f) / f == p && (p * f) % f == 0 by {
      MultipleDivides(p, f);
    }
    assert p * f >= 1 * f by {
      MultiplyMonotone(p, f);
    }
  }

  /** Whenever the product fits in 32 bits the source's rule and the intended
      one agree; they can only differ through overflow. */
  lemma AsWrittenAgreesWithoutOverflow(vm: HotelViewModel)
    requires vm.roomsPerFloor.Some?
    requires -IntMax - 1 <= vm.roomsPerFloor.value * vm.totalFloors <= IntMax
    ensures ValidateAsWritten(vm) == Validate(vm)
  {
  }

  /** The source's rule admits a hotel of 6 700 417 floors, 641 rooms per
      floor and a single room in all: 641 * 6 700 417 = 2^32 + 1 wraps to 1. */
  lemma AsWrittenAdmitsOverflowedForm()
    ensures var vm := HotelViewModel(None, "Grand", None, "5", 6_700_417, 1, Some(641));
      && AnnotationsHold(vm)
      && ValidateAsWritten(vm) == []
      && vm.roomsPerFloor.value * vm.totalFloors != vm.totalRooms
      && Validate(vm) == [RoomsPerFloorMismatch]
      && ModelIsValidAsWritten(vm) && !ModelIsValid(vm)
  {
    var vm := HotelViewModel(None, "Grand", None, "5", 6_700_417, 1, Some(641));
    assert 641 * 6_700_417 == 0x1_0000_0001;
    assert WrapInt32(0x1_0000_0001) == 1;
    assert !IsNullOrWhiteSpace(vm.name) by {
      assert !IsWhiteSpace(vm.name[0]);
    }
    assert !IsNullOrWhiteSpace(vm.rating) by {
      assert !IsWhiteSpace(vm.rating[0]);
    }
  }
}
