/** AddressServiceImpl: the signed-in user's addresses over the address table.
    Adding stores the address with its owner; deleting soft-deletes the first
    address in the user's own list with the id; reads treat a deleted address
    as missing. The authenticated user, which the source takes from the
    request thread, is a parameter that is None when nobody is signed in. */
module AddressService {
  import opened Common
  import opened Model
  import opened Tables
  import opened UserMapper

  /** The row addAddress saves: the converted address owned by the signed-in
      user, or by nobody when no user is signed in. */
  function OwnedAddress(addressDto: AddressDto, owner: Option<User>): (a: Address)
    ensures SameAddressFields(addressDto, a) && !a.deleted && a.user == owner
  {
    ConvertAddressDtoToDao(addressDto).(user := owner)
  }

  class AddressServiceImpl {
    /** addressRepository's table. */
    var addresses: Table<Address>

    ghost predicate Valid()
      reads this
    {
      WellKeyed(addresses, AddressId)
    }

    constructor (firstAddressId: int)
      ensures Valid()
      ensures addresses == Table([], firstAddressId)
    {
      addresses := Table([], firstAddressId);
    }

    /** addAddress. `current` is the authenticated user, or None. The address
        is saved whatever its id and whoever is signed in; the call fails after
        the write when the stored id is not positive, or when nobody is signed
        in (the confirmation reads the user's first name). Otherwise the address
        reads back as it was given, under its stored id. */
    method AddAddress(addressDto: AddressDto, current: Option<User>) returns (r: Result<Confirmation>)
      requires Valid()
      modifies this
      ensures Valid()
      ensures addresses == Save(old(addresses), OwnedAddress(addressDto, current), AddressId, AddressWithId).0
      ensures var saved := Save(old(addresses), OwnedAddress(addressDto, current), AddressId, AddressWithId).1;
        && saved.id.Some?
        && (0 < saved.id.value ==> GetAddressById(saved.id.value) == Ok(addressDto.(id := saved.id)))
        && (0 < saved.id.value && current.Some? ==> r == Ok(Confirmation(JavaString(current.value.firstName), AddressAdded)))
        && (0 < saved.id.value && current.None? ==> r == Err(NullReference))
        && (!(0 < saved.id.value) ==> r == Err(ResourcePersistence(AddressNotAdded)))
      ensures addressDto.id.None? ==>
        addresses.rows == old(addresses.rows) + [OwnedAddress(addressDto, current).(id := Some(old(addresses.nextId)))]
    {
      var address := ConvertAddressDtoToDao(addressDto);
      address := address.(user := current);
      SaveKeepsKeys(addresses, address, AddressId, AddressWithId);
      if addressDto.id.None? {
        SaveAppends(addresses, address, AddressId, AddressWithId);
      }
      var (table, saved) := Save(addresses, address, AddressId, AddressWithId);
      addresses := table;
      if !(0 < saved.id.value) {
        return Err(ResourcePersistence(AddressNotAdded));
      }
      AddressRoundTrip(addressDto);
      assert ConvertAddressDaoToDto(saved) == addressDto.(id := saved.id);
      if current.None? {
        return Err(NullReference);
      }
      return Ok(Confirmation(JavaString(current.value.firstName), AddressAdded));
    }

    /** deleteAddress. `current` is the authenticated user, or None, which
        fails on reading its address list before any write. The user's address
        list is not null and holds stored addresses (each with an id). The
        first address in that list with the id is marked deleted, in the list
        (the returned user) and in the table; when the list has none, nothing
        changes. */
    method DeleteAddress(id: int, current: Option<User>) returns (r: Result<Confirmation>, user: Option<User>)
      requires Valid()
      requires current.Some? ==> current.value.addresses.Some?
      requires current.Some? ==> forall a :: a in current.value.addresses.value ==> a.id.Some?
      modifies this
      ensures Valid()
      ensures current.None? ==> r == Err(NullReference) && addresses == old(addresses) && user == current
      ensures current.Some? && FirstIndex(current.value.addresses.value, AddressId, Some(id)).None? ==>
        && r == Err(DataNotFound(AddressNotFound))
        && addresses == old(addresses) && user == current
      ensures current.Some? && FirstIndex(current.value.addresses.value, AddressId, Some(id)).Some? ==>
        var k := FirstIndex(current.value.addresses.value, AddressId, Some(id)).value;
        var flagged := current.value.addresses.value[k].(deleted := true);
        && addresses == Save(old(addresses), flagged, AddressId, AddressWithId).0
        && user == Some(current.value.(addresses := Some(current.value.addresses.value[k := flagged])))
        && r == Ok(Confirmation(JavaString(current.value.firstName), AddressDeleted))
        && GetAddressById(id) == Err(DataNotFound(AddressNotFound))
    {
      user := current;
      if current.None? {
        return Err(NullReference), user;
      }
      var list := current.value.addresses.value;
      for i := 0 to |list|
        invariant forall j :: 0 <= j < i ==> list[j].id != Some(id)
        invariant addresses == old(addresses) && user == current
      {
        if list[i].id == Some(id) {
          FirstIndexAt(list, AddressId, Some(id), i);
          var location := list[i].(deleted := true);
          user := Some(current.value.(addresses := Some(list[i := location])));
          SaveKeepsKeys(addresses, location, AddressId, AddressWithId);
          addresses := Save(addresses, location, AddressId, AddressWithId).0;
          return Ok(Confirmation(JavaString(current.value.firstName), AddressDeleted)), user;
        }
      }
      return Err(DataNotFound(AddressNotFound)), user;
    }

    /** getAddressById: not found when no row has the id or the row is
        deleted; otherwise that address as a DTO. */
    function GetAddressById(id: int): (r: Result<AddressDto>)
      reads this
      requires Valid()
      ensures r.Err? ==> r.failure == DataNotFound(AddressNotFound)
      ensures r.Ok? <==> exists i :: 0 <= i < |addresses.rows| && addresses.rows[i].id == Some(id) && !addresses.rows[i].deleted
      ensures r.Ok? ==> exists a :: a in addresses.rows && a.id == Some(id) && r.value == ConvertAddressDaoToDto(a)
    {
      match FindFirst(addresses.rows, AddressId, Some(id))
      case None => Err(DataNotFound(AddressNotFound))
      case Some(a) => if a.deleted then Err(DataNotFound(AddressNotFound)) else Ok(ConvertAddressDaoToDto(a))
    }
  }
}
