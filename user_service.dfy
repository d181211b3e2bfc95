/** UserServiceImpl: sign-up, profile reads, profile update and soft delete
    over the user table. Sign-up stores whatever UserMapper.convertUserDTO
    builds, and a customer gets a wishlist and a cart from the wishlist and
    cart services, which are not part of this model: their calls are recorded
    in order. The authenticated user, which the source takes from the request
    thread, and the BCrypt encoding of a password, which is salted at random,
    are parameters. */
module UserService {
  import opened Common
  import opened Model
  import opened Tables
  import opened UserMapper

  /** The key of findByEmail. */
  function UserEmail(u: User): Option<string> { u.email }

  /** The key of findByMobileNumber. */
  function UserMobileNumber(u: User): Option<string> { u.mobileNumber }

  /** isEmailIdExists: the stored emails in store order compared with
      `userEmailId.equals(stored)`, which throws when the argument is null and
      there is a stored row to compare it with. */
  function StoredEmailExists(rows: seq<User>, email: Option<string>): (r: Result<bool>)
    ensures email.None? ==> r == (if rows == [] then Ok(false) else Err(NullReference))
    ensures email.Some? ==> r == Ok(exists i :: 0 <= i < |rows| && rows[i].email == email)
    decreases |rows|
  {
    if rows == [] then Ok(false)
    else if email.None? then Err(NullReference)
    else if rows[0].email == email then Ok(true)
    else StoredEmailExists(rows[1..], email)
  }

  /** isMobileNumberExists: the stored numbers in store order compared with
      `stored.equals(mobileNumber)`, which throws on the first stored null
      reached before a match. */
  function StoredMobileNumberExists(rows: seq<User>, mobile: Option<string>): (r: Result<bool>)
    ensures (forall i :: 0 <= i < |rows| ==> rows[i].mobileNumber.Some?) ==>
      r == Ok(exists i :: 0 <= i < |rows| && rows[i].mobileNumber == mobile)
    ensures r.Err? ==> r == Err(NullReference) && exists i :: 0 <= i < |rows| && rows[i].mobileNumber.None?
    ensures r == Ok(true) ==> mobile.Some? && exists i :: 0 <= i < |rows| && rows[i].mobileNumber == mobile
    ensures r == Ok(false) ==> forall i :: 0 <= i < |rows| ==> rows[i].mobileNumber.Some? && rows[i].mobileNumber != mobile
    decreases |rows|
  {
    if rows == [] then Ok(false)
    else if rows[0].mobileNumber.None? then Err(NullReference)
    else if rows[0].mobileNumber == mobile then Ok(true)
    else StoredMobileNumberExists(rows[1..], mobile)
  }

  /** The guard of createUser: the email is checked first and the mobile
      number only when the email is free. Ok(true) means the sign-up is
      refused as a duplicate. */
  function SignupClash(rows: seq<User>, d: UserDto): (r: Result<bool>)
    ensures r == Ok(false) ==>
      && (d.email.Some? ==> forall i :: 0 <= i < |rows| ==> rows[i].email != d.email)
      && (forall i :: 0 <= i < |rows| ==> rows[i].mobileNumber.Some? && rows[i].mobileNumber != d.mobileNumber)
    ensures d.email.Some? && (exists i :: 0 <= i < |rows| && rows[i].email == d.email) ==> r == Ok(true)
  {
    match StoredEmailExists(rows, d.email)
    case Err(f) => Err(f)
    case Ok(true) => Ok(true)
    case Ok(false) => StoredMobileNumberExists(rows, d.mobileNumber)
  }

  /** A role that makes the new user a customer. */
  predicate IsCustomer(role: Role)
  {
    EqualsIgnoreCase(role.roleType, "CUSTOMER")
  }

  predicate HasCustomerRole(roles: seq<Role>)
  {
    exists i :: 0 <= i < |roles| && IsCustomer(roles[i])
  }

  /** The row createUser stores for a sign-up: convertUserDTO keeps only the
      roles of a user that has some, so email, names, mobile number and the
      freshly encoded password are all dropped. */
  lemma SignupStoresOnlyRoles(d: UserDto, hashedPassword: string, id: int)
    requires d.roles.Some? && |d.roles.value| > 0
    ensures UserFromDto(d.(password := Some(hashedPassword))).(id := Some(id))
            == EmptyUser().(id := Some(id), roles := Some(MapSeq(d.roles.value, ConvertRoleDtoToDao)))
  {
    UserFromDtoKeepsOnlyRoles(d.(password := Some(hashedPassword)));
  }

  /** In a store holding one signed-up user, a second sign-up with a non-null
      email cannot succeed: no stored email matches it, and the mobile-number
      scan then meets the stored user's null number. */
  lemma SecondSignupFails(first: UserDto, second: UserDto, id: int)
    requires first.roles.Some? && |first.roles.value| > 0
    requires second.email.Some?
    ensures SignupClash([UserFromDto(first).(id := Some(id))], second) == Err(NullReference)
  {
    UserFromDtoKeepsOnlyRoles(first);
  }

  /** validByEmailId: the first user stored with the email belongs to someone
      other than the user being updated. */
  function EmailTakenByOther(rows: seq<User>, u: UserDto): (r: bool)
    ensures r <==> (exists i :: 0 <= i < |rows| && rows[i].email == u.email && rows[i].id != u.id
                                && forall j :: 0 <= j < i ==> rows[j].email != u.email)
  {
    match FirstIndex(rows, UserEmail, u.email)
    case None => false
    case Some(i) => rows[i].id != u.id
  }

  /** validByPhoneNumber: the first user stored with the mobile number belongs
      to someone other than the user being updated. */
  function MobileTakenByOther(rows: seq<User>, u: UserDto): (r: bool)
    ensures r <==> (exists i :: 0 <= i < |rows| && rows[i].mobileNumber == u.mobileNumber && rows[i].id != u.id
                                && forall j :: 0 <= j < i ==> rows[j].mobileNumber != u.mobileNumber)
  {
    match FirstIndex(rows, UserMobileNumber, u.mobileNumber)
    case None => false
    case Some(i) => rows[i].id != u.id
  }

  /** The row updateUser saves: the input's profile fields under the current
      user's id, the re-encoded password, and the current user's roles and
      addresses. */
  function UpdatedRow(user: UserDto, current: User, hashedPassword: string): (row: User)
    ensures SameUserFields(user.(id := current.id), row)
    ensures row.password == Some(hashedPassword) && !row.deleted
    ensures row.roles == current.roles && row.addresses == current.addresses
  {
    ConvertUserDtoToDao(user.(id := current.id, password := Some(hashedPassword)))
      .(roles := current.roles, addresses := current.addresses)
  }

  class UserServiceImpl {
    /** userRepository's table. */
    var users: Table<User>
    /** The (wishlist, owner) pairs handed to wishlistService.createWishlist. */
    var wishlistRequests: seq<(WishlistDto, User)>
    /** The carts handed to cartService.createCart. */
    var cartRequests: seq<CartDto>

    /** Ids are unique and every stored user has a role list (the store never
        hands out a null collection). */
    ghost predicate Valid()
      reads this
    {
      && WellKeyed(users, UserId)
      && forall u :: u in users.rows ==> u.roles.Some?
    }

    constructor (firstUserId: int)
      ensures Valid()
      ensures users == Table([], firstUserId)
      ensures wishlistRequests == [] && cartRequests == []
    {
      users := Table([], firstUserId);
      wishlistRequests := [];
      cartRequests := [];
    }

    /** isEmailIdExists as the source's loop. */
    method IsEmailIdExists(userEmailId: Option<string>) returns (r: Result<bool>)
      ensures r == StoredEmailExists(users.rows, userEmailId)
    {
      var rows := users.rows;
      var userEmailIds := MapSeq(rows, UserEmail);
      for i := 0 to |userEmailIds|
        invariant StoredEmailExists(rows[i..], userEmailId) == StoredEmailExists(rows, userEmailId)
      {
        assert rows[i..][1..] == rows[i + 1..];
        if userEmailId.None? {
          return Err(NullReference);
        }
        if userEmailId == userEmailIds[i] {
          return Ok(true);
        }
      }
      return Ok(false);
    }

    /** isMobileNumberExists as the source's loop. */
    method IsMobileNumberExists(mobileNumber: Option<string>) returns (r: Result<bool>)
      ensures r == StoredMobileNumberExists(users.rows, mobileNumber)
    {
      var rows := users.rows;
      var userMobileNumbers := MapSeq(rows, UserMobileNumber);
      for i := 0 to |userMobileNumbers|
        invariant StoredMobileNumberExists(rows[i..], mobileNumber) == StoredMobileNumberExists(rows, mobileNumber)
      {
        assert rows[i..][1..] == rows[i + 1..];
        if userMobileNumbers[i].None? {
          return Err(NullReference);
        }
        if userMobileNumbers[i] == mobileNumber {
          return Ok(true);
        }
      }
      return Ok(false);
    }

    /** The guard of createUser, in the source's order: the email scan, then
        the mobile-number scan only when the email is free. */
    method CheckSignup(userDto: UserDto) returns (r: Result<bool>)
      ensures r == SignupClash(users.rows, userDto)
    {
      var emailTaken := IsEmailIdExists(userDto.email);
      if emailTaken.Err? {
        return Err(emailTaken.failure);
      }
      if emailTaken.value {
        return Ok(true);
      }
      r := IsMobileNumberExists(userDto.mobileNumber);
    }

    /** The save in createUser: the converted sign-up, which holds only the
        roles, is appended under the next generated id. */
    method SaveSignup(encoded: UserDto) returns (createdUser: User)
      requires Valid()
      requires encoded.roles.Some? && |encoded.roles.value| > 0
      modifies this`users
      ensures Valid()
      ensures createdUser == EmptyUser().(id := Some(old(users.nextId)),
                                           roles := Some(MapSeq(encoded.roles.value, ConvertRoleDtoToDao)))
      ensures users == Table(old(users.rows) + [createdUser], old(users.nextId) + 1)
    {
      var converted := ConvertUserDto(encoded);
      UserFromDtoKeepsOnlyRoles(encoded);
      SaveAppends(users, converted, UserId, UserWithId);
      SaveKeepsKeys(users, converted, UserId, UserWithId);
      var (table, saved) := Save(users, converted, UserId, UserWithId);
      users, createdUser := table, saved;
    }

    /** createUser. A null password passes the scans and then makes the
        encoder throw before anything is saved; so does a null role list, in
        the conversion that follows. An empty role list is
        excluded: the source would store a user with a null role list and then
        throw on converting it back. */
    method CreateUser(userDto: UserDto, hashedPassword: string) returns (r: Result<UserDto>)
      requires Valid()
      requires userDto.roles.Some? ==> |userDto.roles.value| > 0
      modifies this
      ensures Valid()
      ensures old(SignupClash(users.rows, userDto)).Err? ==>
        && r == Err(NullReference)
        && users == old(users) && wishlistRequests == old(wishlistRequests) && cartRequests == old(cartRequests)
      ensures old(SignupClash(users.rows, userDto)) == Ok(true) ==>
        && r == Err(RedundantData(EmailIdPhoneNumberExists))
        && users == old(users) && wishlistRequests == old(wishlistRequests) && cartRequests == old(cartRequests)
      ensures old(SignupClash(users.rows, userDto)) == Ok(false) && userDto.password.None? ==>
        && r == Err(IllegalArgument)
        && users == old(users) && wishlistRequests == old(wishlistRequests) && cartRequests == old(cartRequests)
      ensures old(SignupClash(users.rows, userDto)) == Ok(false) && userDto.password.Some? && userDto.roles.None? ==>
        && r == Err(NullReference)
        && users == old(users) && wishlistRequests == old(wishlistRequests) && cartRequests == old(cartRequests)
      ensures old(SignupClash(users.rows, userDto)) == Ok(false) && userDto.password.Some? && userDto.roles.Some? ==>
        var stored := EmptyUser().(id := Some(old(users.nextId)), roles := Some(MapSeq(userDto.roles.value, ConvertRoleDtoToDao)));
        && users == Table(old(users.rows) + [stored], old(users.nextId) + 1)
        && (0 < old(users.nextId) ==> r == Ok(EmptyUserDto().(roles := userDto.roles)))
        && (!(0 < old(users.nextId)) ==> r == Err(ResourcePersistence(ProfileNotCreated)))
        && (0 < old(users.nextId) && HasCustomerRole(stored.roles.value) ==>
              && wishlistRequests == old(wishlistRequests) + [(WishlistDto(None, "nullWishlist", None), stored)]
              && cartRequests == old(cartRequests) + [CartDto(EmptyUserDto().(roles := userDto.roles))])
        && (!(0 < old(users.nextId) && HasCustomerRole(stored.roles.value)) ==>
              wishlistRequests == old(wishlistRequests) && cartRequests == old(cartRequests))
    {
      var taken := CheckSignup(userDto);
      if taken.Err? {
        return Err(NullReference);
      }
      if taken.value {
        return Err(RedundantData(EmailIdPhoneNumberExists));
      }
      if userDto.password.None? {
        return Err(IllegalArgument);
      }
      if userDto.roles.None? {
        return Err(NullReference);
      }
      var createdUser := SaveSignup(userDto.(password := Some(hashedPassword)));
      var user := ConvertUserDao(createdUser);
      UserRoundTripKeepsOnlyRoles(userDto.(password := Some(hashedPassword)));
      UserFromDtoKeepsOnlyRoles(userDto.(password := Some(hashedPassword)));
      if !(0 < createdUser.id.value) {
        return Err(ResourcePersistence(ProfileNotCreated));
      }
      assert JavaString(createdUser.firstName) + "Wishlist" == "nullWishlist";
      SetUpCustomer(createdUser, user);
      r := Ok(user);
    }

    /** The loop at the end of createUser: at the first role that is a
        customer role, one wishlist named after the user's first name and one
        cart holding the returned profile are requested; with no customer role
        nothing is. */
    method SetUpCustomer(createdUser: User, user: UserDto)
      requires createdUser.roles.Some?
      modifies this`wishlistRequests, this`cartRequests
      ensures HasCustomerRole(createdUser.roles.value) ==>
        && wishlistRequests == old(wishlistRequests)
                               + [(WishlistDto(None, JavaString(createdUser.firstName) + "Wishlist", None), createdUser)]
        && cartRequests == old(cartRequests) + [CartDto(user)]
      ensures !HasCustomerRole(createdUser.roles.value) ==>
        wishlistRequests == old(wishlistRequests) && cartRequests == old(cartRequests)
    {
      var roles := createdUser.roles.value;
      var i := 0;
      var created := false;
      while i < |roles| && !created
        invariant 0 <= i <= |roles|
        invariant !created ==> wishlistRequests == old(wishlistRequests) && cartRequests == old(cartRequests)
        invariant !created ==> forall j :: 0 <= j < i ==> !IsCustomer(roles[j])
        invariant created ==> HasCustomerRole(roles)
        invariant created ==>
          && wishlistRequests == old(wishlistRequests)
                                 + [(WishlistDto(None, JavaString(createdUser.firstName) + "Wishlist", None), createdUser)]
          && cartRequests == old(cartRequests) + [CartDto(user)]
      {
        if EqualsIgnoreCase(roles[i].roleType, "CUSTOMER") {
          var wishlist := WishlistDto(None, JavaString(createdUser.firstName) + "Wishlist", None);
          var cartDto := CartDto(user);
          wishlistRequests := wishlistRequests + [(wishlist, createdUser)];
          cartRequests := cartRequests + [cartDto];
          created := true;
        }
        i := i + 1;
      }
    }

    /** getUserById: not found when no row has the id or the row is deleted;
        otherwise that user as the mapper converts it. */
    function GetUserById(id: int): (r: Result<UserDto>)
      reads this
      requires Valid()
      ensures r.Err? ==> r.failure == DataNotFound(UserNotFound)
      ensures r.Ok? <==> exists i :: 0 <= i < |users.rows| && users.rows[i].id == Some(id) && !users.rows[i].deleted
      ensures r.Ok? ==> exists u :: u in users.rows && u.id == Some(id) && u.roles.Some? && r.value == UserDtoFromUser(u)
    {
      match FindFirst(users.rows, UserId, Some(id))
      case None => Err(DataNotFound(UserNotFound))
      case Some(u) => if u.deleted then Err(DataNotFound(UserNotFound)) else Ok(UserDtoFromUser(u))
    }

    /** updateUser. `current` is the authenticated user, a stored row, or null
        when nobody is signed in; `hashedPassword` is the encoding of the
        current user's stored password, and a null stored password makes the
        encoder throw before any write. The input's id is replaced by the
        current user's; an email or mobile number whose first stored holder is
        someone else is refused before any write. */
    method UpdateUser(user: UserDto, current: Option<User>, hashedPassword: string) returns (r: Result<UserDto>)
      requires Valid()
      requires current.Some? ==> current.value in users.rows
      modifies this`users
      ensures Valid()
      ensures current.None? ==> r == Err(DataNotFound(UserNotFound)) && users == old(users)
      ensures current.Some? && EmailTakenByOther(old(users.rows), user.(id := current.value.id)) ==>
        r == Err(RedundantData(EmailIdExists)) && users == old(users)
      ensures current.Some? && !EmailTakenByOther(old(users.rows), user.(id := current.value.id))
              && MobileTakenByOther(old(users.rows), user.(id := current.value.id)) ==>
        r == Err(RedundantData(MobileNumberExists)) && users == old(users)
      ensures current.Some? && !EmailTakenByOther(old(users.rows), user.(id := current.value.id))
              && !MobileTakenByOther(old(users.rows), user.(id := current.value.id))
              && current.value.password.None? ==>
        r == Err(IllegalArgument) && users == old(users)
      ensures current.Some? && !EmailTakenByOther(old(users.rows), user.(id := current.value.id))
              && !MobileTakenByOther(old(users.rows), user.(id := current.value.id))
              && current.value.password.Some? ==>
        var row := UpdatedRow(user, current.value, hashedPassword);
        && users.nextId == old(users.nextId)
        && |users.rows| == |old(users.rows)|
        && (forall j :: 0 <= j < |users.rows| ==>
              users.rows[j] == if old(users.rows[j]).id == current.value.id then row else old(users.rows[j]))
        && row.roles.Some?
        && r == Ok(UserDtoFromUser(row))
    {
      if current.None? {
        return Err(DataNotFound(UserNotFound));
      }
      var existingUser := current.value;
      var u := user.(id := existingUser.id);
      if EmailTakenByOther(users.rows, u) {
        return Err(RedundantData(EmailIdExists));
      }
      if MobileTakenByOther(users.rows, u) {
        return Err(RedundantData(MobileNumberExists));
      }
      if existingUser.password.None? {
        return Err(IllegalArgument);
      }
      u := u.(password := Some(hashedPassword));
      var userDao := ConvertUserDtoToDao(u);
      userDao := userDao.(roles := existingUser.roles, addresses := existingUser.addresses);
      var i :| 0 <= i < |users.rows| && users.rows[i] == existingUser;
      SaveReplaces(users, userDao, UserId, UserWithId, i);
      SaveKeepsKeys(users, userDao, UserId, UserWithId);
      users := Save(users, userDao, UserId, UserWithId).0;
      var userDto := ConvertUserDao(userDao);
      r := Ok(userDto);
    }

    /** deleteUser. `current` is the authenticated user, a stored row, or
        None, which fails on reading its id before any write. Only that user
        may delete the profile: the row is soft-deleted, after which
        getUserById no longer finds it. */
    method DeleteUser(id: int, current: Option<User>) returns (r: Result<Confirmation>)
      requires Valid()
      requires current.Some? ==> current.value in users.rows
      modifies this`users
      ensures Valid()
      ensures current.None? ==> r == Err(NullReference) && users == old(users)
      ensures current.Some? && current.value.id != Some(id) ==>
        r == Err(DataNotFound(UserNotFound)) && users == old(users)
      ensures current.Some? && current.value.id == Some(id) ==>
        && users.nextId == old(users.nextId)
        && |users.rows| == |old(users.rows)|
        && (forall j :: 0 <= j < |users.rows| ==>
              users.rows[j] == if old(users.rows[j]).id == Some(id) then current.value.(deleted := true) else old(users.rows[j]))
        && r == Ok(Confirmation(JavaString(current.value.firstName), UserDeleted))
        && GetUserById(id) == Err(DataNotFound(UserNotFound))
    {
      if current.None? {
        return Err(NullReference);
      }
      var signedIn := current.value;
      if signedIn.id == Some(id) {
        var user := signedIn.(deleted := true);
        var i :| 0 <= i < |users.rows| && users.rows[i] == signedIn;
        SaveReplaces(users, user, UserId, UserWithId, i);
        SaveKeepsKeys(users, user, UserId, UserWithId);
        users := Save(users, user, UserId, UserWithId).0;
        return Ok(Confirmation(JavaString(user.firstName), UserDeleted));
      }
      return Err(DataNotFound(UserNotFound));
    }

    /** getAllUser: every stored user, deleted ones included, in store order,
        each with its profile fields and without password, roles or
        addresses. */
    method GetAllUser() returns (r: seq<UserDto>)
      ensures r == MapSeq(users.rows, ConvertUserDaoToDto)
      ensures |r| == |users.rows|
      ensures forall i :: 0 <= i < |r| ==> SameUserFields(r[i], users.rows[i]) && r[i].password.None?
    {
      var rows := users.rows;
      r := [];
      if |rows| != 0 {
        for i := 0 to |rows|
          invariant r == MapSeq(rows[..i], ConvertUserDaoToDto)
        {
          MapSeqSnoc(rows[..i], rows[i], ConvertUserDaoToDto);
          assert rows[..i + 1] == rows[..i] + [rows[i]];
          r := r + [ConvertUserDaoToDto(rows[i])];
        }
        assert rows[..|rows|] == rows;
      }
    }

    /** loadUserByUsername: the first user stored with the email, deleted or
        not; not found when there is none. */
    function LoadUserByUsername(username: string): (r: Result<User>)
      reads this
      ensures r.Err? <==> forall i :: 0 <= i < |users.rows| ==> users.rows[i].email != Some(username)
      ensures r.Err? ==> r.failure == DataNotFound(UserNotFound)
      ensures r.Ok? ==> r.value in users.rows && r.value.email == Some(username)
    {
      match FindFirst(users.rows, UserEmail, Some(username))
      case None => Err(DataNotFound(UserNotFound))
      case Some(u) => Ok(u)
    }
  }
}
