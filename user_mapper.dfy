/** UserMapper: conversions between the user, address, role and wishlist
    entities and their DTOs. The scalar converters are builder expressions; the
    composite convertUserDTO and convertUserDAO loop over the address and role
    lists and, as written, replace the object they built with a fresh one that
    holds only the converted list. */
module UserMapper {
  import opened Common
  import opened Model
  import opened Tables
  import ProductMapper

  /** The fields a user and its DTO share, password aside. */
  predicate SameUserFields(d: UserDto, u: User)
  {
    && d.id == u.id
    && d.firstName == u.firstName
    && d.middleName == u.middleName
    && d.lastName == u.lastName
    && d.email == u.email
    && d.mobileNumber == u.mobileNumber
  }

  /** convertUserDTOToDAO: the scalar fields and the password; no roles or
      addresses, not deleted. */
  function ConvertUserDtoToDao(d: UserDto): (u: User)
    ensures SameUserFields(d, u) && u.password == d.password
    ensures !u.deleted && u.roles.None? && u.addresses.None?
  {
    User(d.id, false, d.firstName, d.middleName, d.lastName, d.email, d.password,
         d.mobileNumber, None, None)
  }

  /** convertUserDAOToDTO: the same scalar fields, never the password. */
  function ConvertUserDaoToDto(u: User): (d: UserDto)
    ensures SameUserFields(d, u)
    ensures d.password.None? && d.roles.None? && d.addresses.None?
  {
    UserDto(u.id, u.firstName, u.middleName, u.lastName, u.email, None,
            u.mobileNumber, None, None)
  }

  /** A user DTO sent to the entity and back keeps every scalar field but the
      password. */
  lemma UserScalarRoundTrip(d: UserDto)
    ensures ConvertUserDaoToDto(ConvertUserDtoToDao(d)) == d.(password := None, roles := None, addresses := None)
  {
  }

  /** The eight fields an address and its DTO share. */
  predicate SameAddressFields(d: AddressDto, a: Address)
  {
    && d.id == a.id
    && d.doorNumber == a.doorNumber
    && d.street == a.street
    && d.city == a.city
    && d.state == a.state
    && d.pinCode == a.pinCode
    && d.addressType == a.addressType
    && d.landmark == a.landmark
  }

  /** convertAddressDTOToDAO: the eight fields; no owner, not deleted. */
  function ConvertAddressDtoToDao(d: AddressDto): (a: Address)
    ensures SameAddressFields(d, a) && !a.deleted && a.user.None?
  {
    Address(d.id, false, d.doorNumber, d.street, d.city, d.state, d.pinCode,
            d.addressType, d.landmark, None)
  }

  /** convertAddressDAOToDTO: the eight fields. */
  function ConvertAddressDaoToDto(a: Address): (d: AddressDto)
    ensures SameAddressFields(d, a)
  {
    AddressDto(a.id, a.doorNumber, a.street, a.city, a.state, a.pinCode,
               a.addressType, a.landmark)
  }

  /** An address DTO sent to the entity and back is unchanged. */
  lemma AddressRoundTrip(d: AddressDto)
    ensures ConvertAddressDaoToDto(ConvertAddressDtoToDao(d)) == d
  {
  }

  /** convertRoleDTOToDAO */
  function ConvertRoleDtoToDao(d: RoleDto): (r: Role)
    ensures r.id == d.id && r.roleType == d.roleType
  {
    Role(d.id, d.roleType)
  }

  /** convertRoleDAOToDTO */
  function ConvertRoleDaoToDto(r: Role): (d: RoleDto)
    ensures d.id == r.id && d.roleType == r.roleType
  {
    RoleDto(r.id, r.roleType)
  }

  /** A role sent there and back is unchanged, in both directions. */
  lemma RoleRoundTrip(d: RoleDto, r: Role)
    ensures ConvertRoleDaoToDto(ConvertRoleDtoToDao(d)) == d
    ensures ConvertRoleDtoToDao(ConvertRoleDaoToDto(r)) == r
  {
  }

  /** A list of roles sent there and back is unchanged. */
  lemma {:induction false} RoleListRoundTrip(roles: seq<RoleDto>)
    ensures MapSeq(MapSeq(roles, ConvertRoleDtoToDao), ConvertRoleDaoToDto) == roles
  {
    var back := MapSeq(MapSeq(roles, ConvertRoleDtoToDao), ConvertRoleDaoToDto);
    forall i | 0 <= i < |roles|
      ensures back[i] == roles[i]
    {
      RoleRoundTrip(roles[i], Role(None, ""));
    }
  }

  /** A list of addresses sent there and back is unchanged. */
  lemma {:induction false} AddressListRoundTrip(addresses: seq<AddressDto>)
    ensures MapSeq(MapSeq(addresses, ConvertAddressDtoToDao), ConvertAddressDaoToDto) == addresses
  {
    var back := MapSeq(MapSeq(addresses, ConvertAddressDtoToDao), ConvertAddressDaoToDto);
    forall i | 0 <= i < |addresses|
      ensures back[i] == addresses[i]
    {
      AddressRoundTrip(addresses[i]);
    }
  }

  /** convertWishlistDAO: id and name, and one product DTO per product of the
      wishlist, in order; an empty list when the wishlist's products are null. */
  method ConvertWishlistDao(w: Wishlist) returns (r: WishlistDto)
    ensures r.id == w.id && r.name == w.name && r.products.Some?
    ensures w.products.None? ==> r.products.value == []
    ensures w.products.Some? ==> |r.products.value| == |w.products.value|
    ensures w.products.Some? ==> forall i :: 0 <= i < |w.products.value| ==>
              Some(r.products.value[i]) == ProductMapper.ConvertProductToProductDto(Some(w.products.value[i]))
  {
    var products: seq<ProductDto> := [];
    if w.products.Some? {
      var source := w.products.value;
      for i := 0 to |source|
        invariant |products| == i
        invariant forall j :: 0 <= j < i ==>
          Some(products[j]) == ProductMapper.ConvertProductToProductDto(Some(source[j]))
      {
        var dto := ProductMapper.ConvertProductToProductDto(Some(source[i]));
        products := products + [dto.value];
      }
    }
    r := WishlistDto(w.id, w.name, Some(products));
  }

  /** convertWishlistDTO: only id and name; the products are left null. */
  function ConvertWishlistDto(d: WishlistDto): (w: Wishlist)
    ensures w.id == d.id && w.name == d.name && w.products.None?
  {
    Wishlist(d.id, d.name, None)
  }

  /** What convertUserDTO returns, as written. The user built from the scalar
      fields is replaced by a fresh user that holds only the converted
      addresses when they are not null, and that in turn by a fresh user that
      holds only the converted roles when there are any. */
  function UserFromDto(d: UserDto): User
    requires d.roles.Some?
  {
    if |d.roles.value| > 0 then EmptyUser().(roles := Some(MapSeq(d.roles.value, ConvertRoleDtoToDao)))
    else if d.addresses.Some? then EmptyUser().(addresses := Some(MapSeq(d.addresses.value, ConvertAddressDtoToDao)))
    else ConvertUserDtoToDao(d)
  }

  /** What convertUserDAO returns, as written: the same replacements in the
      DTO direction. */
  function UserDtoFromUser(u: User): UserDto
    requires u.roles.Some?
  {
    if |u.roles.value| > 0 then EmptyUserDto().(roles := Some(MapSeq(u.roles.value, ConvertRoleDaoToDto)))
    else if u.addresses.Some? then EmptyUserDto().(addresses := Some(MapSeq(u.addresses.value, ConvertAddressDaoToDto)))
    else ConvertUserDaoToDto(u)
  }

  /** convertUserDTO. With a null role list the source throws after building
      the user and its addresses, and no result is returned, so the caller must
      supply one. */
  method ConvertUserDto(d: UserDto) returns (u: User)
    requires d.roles.Some?
    ensures u == UserFromDto(d)
  {
    u := ConvertUserDtoToDao(d);
    if d.addresses.Some? {
      var source := d.addresses.value;
      var addresses: seq<Address> := [];
      for i := 0 to |source|
        invariant addresses == MapSeq(source[..i], ConvertAddressDtoToDao)
      {
        MapSeqSnoc(source[..i], source[i], ConvertAddressDtoToDao);
        assert source[..i + 1] == source[..i] + [source[i]];
        addresses := addresses + [ConvertAddressDtoToDao(source[i])];
      }
      assert source[..|source|] == source;
      u := EmptyUser().(addresses := Some(addresses));
    }
    if |d.roles.value| > 0 {
      var source := d.roles.value;
      var roles: seq<Role> := [];
      for i := 0 to |source|
        invariant roles == MapSeq(source[..i], ConvertRoleDtoToDao)
      {
        MapSeqSnoc(source[..i], source[i], ConvertRoleDtoToDao);
        assert source[..i + 1] == source[..i] + [source[i]];
        roles := roles + [ConvertRoleDtoToDao(source[i])];
      }
      assert source[..|source|] == source;
      u := EmptyUser().(roles := Some(roles));
    }
  }

  /** convertUserDAO. With a null role list the source throws after building
      the DTO and its addresses, and no result is returned, so the caller must
      supply one. */
  method ConvertUserDao(user: User) returns (d: UserDto)
    requires user.roles.Some?
    ensures d == UserDtoFromUser(user)
  {
    d := ConvertUserDaoToDto(user);
    if user.addresses.Some? {
      var source := user.addresses.value;
      var addresses: seq<AddressDto> := [];
      for i := 0 to |source|
        invariant addresses == MapSeq(source[..i], ConvertAddressDaoToDto)
      {
        MapSeqSnoc(source[..i], source[i], ConvertAddressDaoToDto);
        assert source[..i + 1] == source[..i] + [source[i]];
        addresses := addresses + [ConvertAddressDaoToDto(source[i])];
      }
      assert source[..|source|] == source;
      d := EmptyUserDto().(addresses := Some(addresses));
    }
    if |user.roles.value| > 0 {
      var source := user.roles.value;
      var roles: seq<RoleDto> := [];
      for i := 0 to |source|
        invariant roles == MapSeq(source[..i], ConvertRoleDaoToDto)
      {
        MapSeqSnoc(source[..i], source[i], ConvertRoleDaoToDto);
        assert source[..i + 1] == source[..i] + [source[i]];
        roles := roles + [ConvertRoleDaoToDto(source[i])];
      }
      assert source[..|source|] == source;
      d := EmptyUserDto().(roles := Some(roles));
    }
  }

  /** With any role present, convertUserDTO loses every scalar field and the
      addresses: the result holds the converted roles and nothing else. */
  lemma UserFromDtoKeepsOnlyRoles(d: UserDto)
    requires d.roles.Some? && |d.roles.value| > 0
    ensures var u := UserFromDto(d);
      && u.id.None? && u.firstName.None? && u.middleName.None? && u.lastName.None?
      && u.email.None? && u.password.None? && u.mobileNumber.None? && u.addresses.None?
      && u.roles.Some? && MapSeq(u.roles.value, ConvertRoleDaoToDto) == d.roles.value
  {
    RoleListRoundTrip(d.roles.value);
  }

  /** With no roles but an address list, convertUserDTO keeps only the
      addresses. */
  lemma UserFromDtoKeepsOnlyAddresses(d: UserDto)
    requires d.roles.Some? && |d.roles.value| == 0 && d.addresses.Some?
    ensures var u := UserFromDto(d);
      && u.id.None? && u.firstName.None? && u.middleName.None? && u.lastName.None?
      && u.email.None? && u.password.None? && u.mobileNumber.None? && u.roles.None? && !u.deleted
      && u.addresses.Some? && MapSeq(u.addresses.value, ConvertAddressDaoToDto) == d.addresses.value
  {
    AddressListRoundTrip(d.addresses.value);
  }

  /** With any role present, convertUserDAO returns the converted roles and
      nothing else: no profile field and no address reaches the DTO. */
  lemma UserDtoFromUserKeepsOnlyRoles(u: User)
    requires u.roles.Some? && |u.roles.value| > 0
    ensures var d := UserDtoFromUser(u);
      && d.id.None? && d.firstName.None? && d.middleName.None? && d.lastName.None?
      && d.email.None? && d.password.None? && d.mobileNumber.None? && d.addresses.None?
      && d.roles.Some? && MapSeq(d.roles.value, ConvertRoleDtoToDao) == u.roles.value
  {
    var roles := u.roles.value;
    var back := MapSeq(MapSeq(roles, ConvertRoleDaoToDto), ConvertRoleDtoToDao);
    forall i | 0 <= i < |roles|
      ensures back[i] == roles[i]
    {
      RoleRoundTrip(ConvertRoleDaoToDto(roles[i]), roles[i]);
    }
  }

  /** With no roles but an address list, convertUserDAO returns the addresses,
      each with its eight fields, and nothing else. */
  lemma UserDtoFromUserKeepsOnlyAddresses(u: User)
    requires u.roles.Some? && |u.roles.value| == 0 && u.addresses.Some?
    ensures var d := UserDtoFromUser(u);
      && d.id.None? && d.firstName.None? && d.middleName.None? && d.lastName.None?
      && d.email.None? && d.password.None? && d.mobileNumber.None? && d.roles.None?
      && d.addresses.Some? && |d.addresses.value| == |u.addresses.value|
      && forall i :: 0 <= i < |u.addresses.value| ==> SameAddressFields(d.addresses.value[i], u.addresses.value[i])
  {
  }

  /** Sending a DTO with roles through convertUserDTO and back through
      convertUserDAO yields a DTO that holds the same roles and nothing else. */
  lemma {:induction false} UserRoundTripKeepsOnlyRoles(d: UserDto)
    requires d.roles.Some? && |d.roles.value| > 0
    ensures UserFromDto(d).roles.Some?
    ensures UserDtoFromUser(UserFromDto(d)) == EmptyUserDto().(roles := d.roles)
  {
    RoleListRoundTrip(d.roles.value);
  }
}
