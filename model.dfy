/** The persisted entities (package model) and the wire objects (package dto)
    of the online store. Every entity extends BaseModel, which contributes the
    id and the soft-delete flag; a Long or String that may be null is an Option. */
module Model {
  import opened Common

  /** java.util.Date as a day count; the services only compare dates. */
  type Date = int

  /** java.lang.Double, kept as its 64-bit pattern and never interpreted. */
  datatype Double = Double(bits: bv64)

  datatype Brand = Brand(id: Option<int>, deleted: bool, name: string)

  datatype BrandDto = BrandDto(id: Option<int>, name: string)

  /** A category or sub-category; the product mapper hands it over unchanged. */
  datatype Category = Category(id: Option<int>, name: string)

  /** quantity and both dates are transient: they travel with the object but
      are not stored. */
  datatype Product = Product(
    id: Option<int>,
    deleted: bool,
    quantity: Option<int>,
    price: Option<Double>,
    dateOfExpire: Option<Date>,
    dateOfManufacture: Option<Date>,
    description: string,
    name: string,
    brand: Option<Brand>,
    category: Option<Category>,
    subCategory: Option<Category>,
    wishlists: Option<seq<Wishlist>>)

  datatype Wishlist = Wishlist(id: Option<int>, name: string, products: Option<seq<Product>>)

  datatype ProductDto = ProductDto(
    id: Option<int>,
    quantity: Option<int>,
    price: Option<Double>,
    dateOfExpire: Option<Date>,
    dateOfManufacture: Option<Date>,
    description: string,
    name: string,
    brand: Option<BrandDto>,
    category: Option<Category>,
    subCategory: Option<Category>,
    wishlists: Option<seq<WishlistDto>>)

  datatype WishlistDto = WishlistDto(id: Option<int>, name: string, products: Option<seq<ProductDto>>)

  datatype Role = Role(id: Option<int>, roleType: string)

  datatype RoleDto = RoleDto(id: Option<int>, roleType: string)

  /** An address row; `user` is the owning user (the join column). */
  datatype Address = Address(
    id: Option<int>,
    deleted: bool,
    doorNumber: string,
    street: string,
    city: string,
    state: string,
    pinCode: string,
    addressType: string,
    landmark: string,
    user: Option<User>)

  datatype AddressDto = AddressDto(
    id: Option<int>,
    doorNumber: string,
    street: string,
    city: string,
    state: string,
    pinCode: string,
    addressType: string,
    landmark: string)

  datatype User = User(
    id: Option<int>,
    deleted: bool,
    firstName: Option<string>,
    middleName: Option<string>,
    lastName: Option<string>,
    email: Option<string>,
    password: Option<string>,
    mobileNumber: Option<string>,
    roles: Option<seq<Role>>,
    addresses: Option<seq<Address>>)

  datatype UserDto = UserDto(
    id: Option<int>,
    firstName: Option<string>,
    middleName: Option<string>,
    lastName: Option<string>,
    email: Option<string>,
    password: Option<string>,
    mobileNumber: Option<string>,
    roles: Option<seq<RoleDto>>,
    addresses: Option<seq<AddressDto>>)

  datatype CartDto = CartDto(user: UserDto)

  /** What `User.builder().build()` yields: every field left null, not deleted. */
  function EmptyUser(): User
  {
    User(None, false, None, None, None, None, None, None, None, None)
  }

  /** What `UserDTO.builder().build()` yields. */
  function EmptyUserDto(): UserDto
  {
    UserDto(None, None, None, None, None, None, None, None, None)
  }

  /** Key functions for the repositories. */
  function ProductId(p: Product): Option<int> { p.id }
  function BrandId(b: Brand): Option<int> { b.id }
  function UserId(u: User): Option<int> { u.id }
  function AddressId(a: Address): Option<int> { a.id }

  /** The row the store writes when it assigns a generated id. */
  function ProductWithId(p: Product, id: int): Product { p.(id := Some(id)) }
  function BrandWithId(b: Brand, id: int): Brand { b.(id := Some(id)) }
  function UserWithId(u: User, id: int): User { u.(id := Some(id)) }
  function AddressWithId(a: Address, id: int): Address { a.(id := Some(id)) }
}
