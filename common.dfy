/** Values shared by every part of the online-store model: Java's null, the
    exceptions the services throw, and the few java.lang.String operations the
    services rely on. */
module Common {

  /** A reference that may be null. */
  datatype Option<+T> = None | Some(value: T)

  /** The Constant names the services attach to the exceptions they throw. */
  datatype Message =
    | InvalidManufactureExpiryDate
    | ProductCreationFailed
    | StockCreationFailed
    | ProductNotFound
    | DuplicateBrandName
    | BrandNotFound
    | EmailIdPhoneNumberExists
    | EmailIdExists
    | MobileNumberExists
    | ProfileNotCreated
    | UserNotFound
    | AddressNotAdded
    | AddressNotFound

  /** The exception kinds of the service layer. NullReference is a
      NullPointerException the source would throw on a null value.
      IllegalArgument is the IllegalArgumentException thrown for a null
      argument: by the password encoder, or by a repository lookup by a null
      id, which Spring Data's repository proxy passes on to the caller as
      InvalidDataAccessApiUsageException. The source catches neither. */
  datatype Failure =
    | InvalidInput(message: Message)
    | DataNotFound(message: Message)
    | RedundantData(message: Message)
    | ResourcePersistence(message: Message)
    | NullReference
    | IllegalArgument

  /** A service call either returns a value or throws one of the exceptions above. */
  datatype Result<+T> = Ok(value: T) | Err(failure: Failure)

  /** The status strings that end a successful user or address call. */
  datatype Event = UserDeleted | AddressAdded | AddressDeleted

  /** `firstName + Constant.X`: the user's first name followed by a status constant. */
  datatype Confirmation = Confirmation(firstName: string, event: Event)

  /** How Java renders a possibly-null String inside a `+` concatenation. */
  function JavaString(s: Option<string>): (r: string)
    ensures s.Some? ==> r == s.value
    ensures s.None? ==> r == "null"
  {
    match s
    case None => "null"
    case Some(v) => v
  }

  /** Upper-case letter of an ASCII character; every other character is kept. */
  function UpperAscii(c: char): (u: char)
    ensures 'a' <= c <= 'z' ==> 'A' <= u <= 'Z' && u as int == c as int - 32
    ensures !('a' <= c <= 'z') ==> u == c
  {
    if 'a' <= c <= 'z' then (c as int - 32) as char else c
  }

  /** String.equalsIgnoreCase, restricted to ASCII case. */
  predicate EqualsIgnoreCase(s: string, t: string)
  {
    |s| == |t| && forall i :: 0 <= i < |s| ==> UpperAscii(s[i]) == UpperAscii(t[i])
  }
}
