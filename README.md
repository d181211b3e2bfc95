# Online store service layer in Dafny

A model of the service layer and the mappers of a Spring back-office for an
online store: products and brands, users with their roles, and addresses.
Every repository is an in-memory table (`Tables.Table`): the rows `findAll`
returns in store order, plus the next id the store generates. `save` updates
the row with the same id in place, or appends the row under a fresh id.
Records are soft-deleted: a `deleted` flag is set and no row is removed. Each
service is a class whose fields are the tables it writes and, where it calls
a collaborator service that is not part of this model (stock, wishlist,
cart), a log of those calls in order. Each exception kind the services throw
is a `Failure` variant of a `Result`. A `NullPointerException` the source
would throw on a null value is `Failure.NullReference`, and an
`IllegalArgumentException` thrown for a null argument is
`Failure.IllegalArgument`.

Modules:

- `Common`: null (`Option`), `Result`, the exception kinds and message
  constants, and the two `java.lang.String` behaviours the services rely on.
- `Tables`: the repository table, derived queries (`findByName`,
  `findByEmail`, ...) as "first row whose key matches", and `save`.
- `Model`: the entities and DTOs. Product quantity and both dates are
  transient columns.
- `BrandMapper`, `ProductMapper`, `UserMapper`: the mappers. `convertUserDTO`
  and `convertUserDAO` are modelled as written: a user with roles comes back
  holding only its roles.
- `ProductService`, `UserService`, `AddressService`: `ProductServiceImpl`,
  `UserServiceImpl` and `AddressServiceImpl`.

Consequences of the code as written, stated as contracts:

- Sign-up stores a user that holds only its roles (`UserService.SignupStoresOnlyRoles`).
- The customer's wishlist is named `"nullWishlist"` (`UserService.UserServiceImpl.CreateUser`).
- A second sign-up with a non-null email meets the first user's null mobile
  number and throws (`UserService.SecondSignupFails`).
- `updateBrand` refuses to keep a brand's own name (`ProductService.ProductServiceImpl.UpdateBrand`).
- The `ProductService` interface documents `getAll` as throwing when there are
  no products. The implementation returns an empty list, and the model
  follows the implementation.

## Model

All paths are under `src/main/java/com/ideas2it/onlinestore/`; the table
repeats them in full.

| member | source | states |
|---|---|---|
| Common.JavaString | src/main/java/com/ideas2it/onlinestore/service/impl/UserServiceImpl.java:80 | a null String renders as "null" inside `+`, any other as itself |
| Common.UpperAscii | src/main/java/com/ideas2it/onlinestore/service/impl/UserServiceImpl.java:79 | lower-case ASCII letters map to their upper case, every other character is kept (the case folding of `equalsIgnoreCase`) |
| Tables.FirstIndex | src/main/java/com/ideas2it/onlinestore/service/impl/ProductServiceImpl.java:72-73 | a derived query's position: the key matches there and at no earlier row; none means no row matches |
| Tables.FindFirst | src/main/java/com/ideas2it/onlinestore/service/impl/ProductServiceImpl.java:72-73 | a derived query returns a row exactly when some stored row (deleted or not) has the key, and that row is stored and has the key |
| Tables.Filter | src/main/java/com/ideas2it/onlinestore/service/impl/ProductServiceImpl.java:117-124 | the rows a filtering loop keeps are never more than the rows it scans |
| Tables.FilterAppend | src/main/java/com/ideas2it/onlinestore/service/impl/ProductServiceImpl.java:117-124 | filtering rows appended to a list appends their filtered rows: store order is kept |
| Tables.FilterMembership | src/main/java/com/ideas2it/onlinestore/service/impl/ProductServiceImpl.java:117-124 | a row is kept exactly when it is stored and accepted |
| Tables.MapSeq | src/main/java/com/ideas2it/onlinestore/service/impl/UserServiceImpl.java:157-160 | a converting loop yields one result per row, the i-th being the conversion of the i-th row |
| Tables.Save | src/main/java/com/ideas2it/onlinestore/service/impl/ProductServiceImpl.java:76-79 | `save` keeps the row count or adds one row; when it adds, the stored row is the input under the next generated id, appended last |
| Tables.SaveKeepsKeys | src/main/java/com/ideas2it/onlinestore/service/impl/ProductServiceImpl.java:76-79 | after a save ids stay unique and below the generator, `findById` of the saved id returns the saved row, and every row with another id is unchanged |
| Tables.SaveReplaces | src/main/java/com/ideas2it/onlinestore/service/impl/ProductServiceImpl.java:136-137 | saving a row whose id is stored replaces that row in place and returns the input |
| Tables.SaveAppends | src/main/java/com/ideas2it/onlinestore/service/impl/ProductServiceImpl.java:78-79 | saving a row whose id is null or not stored appends it under the next generated id |
| ProductMapper.ConvertProductDtoToProduct | src/main/java/com/ideas2it/onlinestore/util/mapper/ProductMapper.java:32-46 | null maps to null; otherwise id, name, description, price, both dates and quantity are copied, the entity is not deleted and has no wishlists |
| ProductMapper.ConvertProductToProductDto | src/main/java/com/ideas2it/onlinestore/util/mapper/ProductMapper.java:54-68 | null maps to null; otherwise the same fields are copied and the wishlists are not |
| ProductMapper.ProductRoundTrip | src/main/java/com/ideas2it/onlinestore/util/mapper/ProductMapper.java:32-68 | a DTO sent to the entity and back is unchanged except that its wishlists are dropped |
| ProductMapper.ProductEntityRoundTrip | src/main/java/com/ideas2it/onlinestore/util/mapper/ProductMapper.java:32-68 | an entity sent to the DTO and back keeps its scalar fields and categories, loses its deleted flag and wishlists, and its brand's deleted flag |
| UserMapper.ConvertUserDtoToDao | src/main/java/com/ideas2it/onlinestore/util/mapper/UserMapper.java:39-49 | id, names, email, mobile number and password are copied; no roles or addresses; not deleted |
| UserMapper.ConvertUserDaoToDto | src/main/java/com/ideas2it/onlinestore/util/mapper/UserMapper.java:57-65 | the same fields except the password, which never reaches the DTO |
| UserMapper.UserScalarRoundTrip | src/main/java/com/ideas2it/onlinestore/util/mapper/UserMapper.java:39-65 | a user DTO sent to the entity and back keeps every field but the password, roles and addresses |
| UserMapper.ConvertAddressDtoToDao | src/main/java/com/ideas2it/onlinestore/util/mapper/UserMapper.java:73-83 | all eight address fields are copied; not deleted; no owner |
| UserMapper.ConvertAddressDaoToDto | src/main/java/com/ideas2it/onlinestore/util/mapper/UserMapper.java:91-101 | all eight address fields are copied |
| UserMapper.AddressRoundTrip | src/main/java/com/ideas2it/onlinestore/util/mapper/UserMapper.java:73-101 | an address DTO sent to the entity and back is unchanged |
| UserMapper.ConvertRoleDtoToDao | src/main/java/com/ideas2it/onlinestore/util/mapper/UserMapper.java:109-113 | id and type are copied |
| UserMapper.ConvertRoleDaoToDto | src/main/java/com/ideas2it/onlinestore/util/mapper/UserMapper.java:121-125 | id and type are copied |
| UserMapper.RoleRoundTrip | src/main/java/com/ideas2it/onlinestore/util/mapper/UserMapper.java:109-125 | a role converted there and back is unchanged, in both directions |
| UserMapper.RoleListRoundTrip | src/main/java/com/ideas2it/onlinestore/util/mapper/UserMapper.java:109-125 | a role list converted element-wise there and back is unchanged |
| UserMapper.AddressListRoundTrip | src/main/java/com/ideas2it/onlinestore/util/mapper/UserMapper.java:73-101 | an address list converted element-wise there and back is unchanged |
| UserMapper.ConvertWishlistDao | src/main/java/com/ideas2it/onlinestore/util/mapper/UserMapper.java:134-148 | id and name are copied, and there is one product DTO per wishlist product in order; an empty list when the products are null |
| UserMapper.ConvertWishlistDto | src/main/java/com/ideas2it/onlinestore/util/mapper/UserMapper.java:156-160 | only id and name are copied; the products stay null |
| UserMapper.ConvertUserDto | src/main/java/com/ideas2it/onlinestore/util/mapper/UserMapper.java:170-189 | the loops build exactly the as-written result `UserFromDto`, whose content the lemmas below state |
| UserMapper.ConvertUserDao | src/main/java/com/ideas2it/onlinestore/util/mapper/UserMapper.java:199-218 | the loops build exactly the as-written result `UserDtoFromUser`, whose content the lemmas below state |
| UserMapper.UserFromDtoKeepsOnlyRoles | src/main/java/com/ideas2it/onlinestore/util/mapper/UserMapper.java:170-189 | with any role present, every scalar field and the addresses are lost; the roles convert back to the input's |
| UserMapper.UserFromDtoKeepsOnlyAddresses | src/main/java/com/ideas2it/onlinestore/util/mapper/UserMapper.java:170-189 | with no roles but addresses, every scalar field is lost and the user is not deleted; only the addresses remain and convert back to the input's |
| UserMapper.UserDtoFromUserKeepsOnlyAddresses | src/main/java/com/ideas2it/onlinestore/util/mapper/UserMapper.java:199-218 | with no roles but addresses, no profile field and no role reaches the DTO; the addresses arrive one for one with their eight fields |
| UserMapper.UserDtoFromUserKeepsOnlyRoles | src/main/java/com/ideas2it/onlinestore/util/mapper/UserMapper.java:199-218 | with any role present, no profile field and no address reaches the DTO; the roles convert back to the user's |
| UserMapper.UserRoundTripKeepsOnlyRoles | src/main/java/com/ideas2it/onlinestore/util/mapper/UserMapper.java:170-218 | a DTO with roles sent through both composite converters holds the same roles and nothing else |
| ProductService.Persisted | src/main/java/com/ideas2it/onlinestore/model/Product.java:41-48 | the stored row has no quantity and no dates, and differs from the input only there |
| ProductService.AddedProduct | src/main/java/com/ideas2it/onlinestore/service/impl/ProductServiceImpl.java:72-86 | the product handed on carries the caller's quantity, both dates, name and description, whatever the store returned |
| ProductService.AddProductSaveEffect | src/main/java/com/ideas2it/onlinestore/service/impl/ProductServiceImpl.java:72-80 | with a product of the same name and description stored, the table is unchanged and that row is returned; otherwise, for a null or unknown id, exactly the input's columns are appended under a new id |
| ProductService.AvailableProductsExact | src/main/java/com/ideas2it/onlinestore/service/impl/ProductServiceImpl.java:115-127 | the product listing holds exactly the stored rows that are not deleted, and rows added to the store add their listing at the end |
| ProductService.AvailableBrandsExact | src/main/java/com/ideas2it/onlinestore/service/impl/ProductServiceImpl.java:255-270 | the brand listing holds exactly the stored brands that are not deleted, and is empty exactly when every brand is deleted |
| ProductService.ProductServiceImpl.AddProduct | src/main/java/com/ideas2it/onlinestore/service/impl/ProductServiceImpl.java:66-89 | invalid input and no write unless manufacture is strictly before expiry; otherwise the table after the add-or-re-save, one stock request, and the stock outcome |
| ProductService.ProductServiceImpl.SaveKeepsColumns | src/main/java/com/ideas2it/onlinestore/model/Product.java:41-48 | saving a row without transient values keeps every stored row without them |
| ProductService.ProductServiceImpl.CreateStockForProduct | src/main/java/com/ideas2it/onlinestore/service/impl/ProductServiceImpl.java:95-109 | null fails with product-creation-failed and no stock call; otherwise one stock call, then the product unchanged or stock-creation-failed |
| ProductService.ProductServiceImpl.GetAll | src/main/java/com/ideas2it/onlinestore/service/impl/ProductServiceImpl.java:115-127 | the loop returns the non-deleted products in store order, as `AvailableProductsExact` characterises them |
| ProductService.ProductServiceImpl.GetById | src/main/java/com/ideas2it/onlinestore/service/impl/ProductServiceImpl.java:151-159 | found exactly when a non-deleted row has the id, otherwise product-not-found; the value is that row as a DTO |
| ProductService.ProductServiceImpl.UpdateProduct | src/main/java/com/ideas2it/onlinestore/service/impl/ProductServiceImpl.java:133-145 | fails as `GetById` does with no write; otherwise only the row with the id is replaced by the input's columns, which are returned |
| ProductService.ProductServiceImpl.IsBrandUnique | src/main/java/com/ideas2it/onlinestore/service/impl/ProductServiceImpl.java:302-304 | true exactly when no stored brand, deleted or not, has the name |
| ProductService.ProductServiceImpl.GetBrand | src/main/java/com/ideas2it/onlinestore/service/impl/ProductServiceImpl.java:310-318 | found exactly when a non-deleted brand has the id, otherwise brand-not-found; the value is that brand as a DTO |
| ProductService.ProductServiceImpl.GetAllBrands | src/main/java/com/ideas2it/onlinestore/service/impl/ProductServiceImpl.java:255-270 | the loop returns the non-deleted brands in store order, as `AvailableBrandsExact` characterises them |
| ProductService.ProductServiceImpl.AddBrand | src/main/java/com/ideas2it/onlinestore/service/impl/ProductServiceImpl.java:236-249 | duplicate-brand-name with no write when any stored brand has the name; otherwise exactly one brand is appended (for a null or unknown id) and reads back by its id |
| ProductService.ProductServiceImpl.SaveKeepsNames | src/main/java/com/ideas2it/onlinestore/model/Brand.java:34-35 | saving a brand whose name no stored brand has keeps brand names unique |
| ProductService.ProductServiceImpl.UpdateBrand | src/main/java/com/ideas2it/onlinestore/service/impl/ProductServiceImpl.java:276-296 | with no live brand the input is returned unwritten; else a null id fails in `findById`; else brand-not-found for an absent or deleted target; else duplicate-brand-name for any stored name, the target's own included; else only the target row is replaced |
| UserService.StoredEmailExists | src/main/java/com/ideas2it/onlinestore/service/impl/UserServiceImpl.java:174-183 | for a non-null email, true exactly when some stored user, deleted or not, has it; a null email throws unless the store is empty |
| UserService.StoredMobileNumberExists | src/main/java/com/ideas2it/onlinestore/service/impl/UserServiceImpl.java:193-202 | with no null stored number, true exactly when some stored user has the number; a throw implies a stored null; false implies no stored null and no match |
| UserService.SignupClash | src/main/java/com/ideas2it/onlinestore/service/impl/UserServiceImpl.java:68-70 | a stored match of a non-null email refuses the sign-up; a sign-up let through matches no stored email or mobile number |
| UserService.SignupStoresOnlyRoles | src/main/java/com/ideas2it/onlinestore/service/impl/UserServiceImpl.java:71-75 | the row a sign-up saves is an empty user with the converted roles: email, names, mobile number and the encoded password are dropped |
| UserService.SecondSignupFails | src/main/java/com/ideas2it/onlinestore/service/impl/UserServiceImpl.java:193-202 | after one sign-up, a second sign-up with a non-null email throws on the stored null mobile number |
| UserService.EmailTakenByOther | src/main/java/com/ideas2it/onlinestore/service/impl/UserServiceImpl.java:212-220 | true exactly when the first stored user with the email has another id; one's own email passes |
| UserService.MobileTakenByOther | src/main/java/com/ideas2it/onlinestore/service/impl/UserServiceImpl.java:230-238 | true exactly when the first stored user with the mobile number has another id; one's own number passes |
| UserService.UpdatedRow | src/main/java/com/ideas2it/onlinestore/service/impl/UserServiceImpl.java:117-123 | the input's profile fields under the current user's id, the encoded password, and the current user's roles and addresses |
| UserService.UserServiceImpl.IsEmailIdExists | src/main/java/com/ideas2it/onlinestore/service/impl/UserServiceImpl.java:174-183 | the early-return loop computes `StoredEmailExists` |
| UserService.UserServiceImpl.IsMobileNumberExists | src/main/java/com/ideas2it/onlinestore/service/impl/UserServiceImpl.java:193-202 | the early-return loop computes `StoredMobileNumberExists` |
| UserService.UserServiceImpl.CheckSignup | src/main/java/com/ideas2it/onlinestore/service/impl/UserServiceImpl.java:68 | the two scans in the source's short-circuit order compute `SignupClash` |
| UserService.UserServiceImpl.SaveSignup | src/main/java/com/ideas2it/onlinestore/service/impl/UserServiceImpl.java:72-74 | the roles-only user is appended under the next generated id |
| UserService.UserServiceImpl.CreateUser | src/main/java/com/ideas2it/onlinestore/service/impl/UserServiceImpl.java:66-92 | a clash, or a null password or null role list after the scans pass, refuses the sign-up with no write; otherwise the roles-only row is appended, a non-positive id fails after the write, and a positive one returns the roles-only profile with one "nullWishlist" and one cart for a customer |
| UserService.UserServiceImpl.SetUpCustomer | src/main/java/com/ideas2it/onlinestore/service/impl/UserServiceImpl.java:78-87 | exactly one wishlist named first name + "Wishlist" and one cart when some role is CUSTOMER ignoring case; none otherwise |
| UserService.UserServiceImpl.GetUserById | src/main/java/com/ideas2it/onlinestore/service/impl/UserServiceImpl.java:98-107 | found exactly when a non-deleted user has the id, otherwise user-not-found; the value is that user as `convertUserDAO` maps it |
| UserService.UserServiceImpl.UpdateUser | src/main/java/com/ideas2it/onlinestore/service/impl/UserServiceImpl.java:113-130 | no signed-in user is not-found; an email, then a mobile number, held first by another id is refused with no write; a signed-in user without a password fails in the encoder with no write; otherwise only the current user's row is replaced by `UpdatedRow` |
| UserService.UserServiceImpl.DeleteUser | src/main/java/com/ideas2it/onlinestore/service/impl/UserServiceImpl.java:136-146 | no signed-in user fails with no write; another id is not-found with no write; the own id only sets that row's deleted flag, after which `GetUserById` finds nothing |
| UserService.UserServiceImpl.GetAllUser | src/main/java/com/ideas2it/onlinestore/service/impl/UserServiceImpl.java:152-164 | one DTO per stored user, deleted ones included, in store order, with its profile fields and no password |
| UserService.UserServiceImpl.LoadUserByUsername | src/main/java/com/ideas2it/onlinestore/service/impl/UserServiceImpl.java:244-252 | not-found exactly when no stored user has the email; otherwise a stored user with it, deleted or not |
| AddressService.OwnedAddress | src/main/java/com/ideas2it/onlinestore/service/impl/AddressServiceImpl.java:51-52 | the converted address, not deleted, owned by the signed-in user, or by nobody when no one is signed in |
| AddressService.AddressServiceImpl.AddAddress | src/main/java/com/ideas2it/onlinestore/service/impl/AddressServiceImpl.java:49-60 | the owned address is saved, whoever is signed in; a non-positive id fails after the write; otherwise it reads back as given, under its stored id, and the call fails after the write when no one is signed in |
| AddressService.AddressServiceImpl.DeleteAddress | src/main/java/com/ideas2it/onlinestore/service/impl/AddressServiceImpl.java:66-79 | no signed-in user fails with no write; not-found with no write when the user's list has no such id; otherwise only the first such address is flagged, in the list and in the table, and no longer reads back |
| AddressService.AddressServiceImpl.GetAddressById | src/main/java/com/ideas2it/onlinestore/service/impl/AddressServiceImpl.java:85-94 | found exactly when a non-deleted address has the id, otherwise address-not-found; the value is that address as a DTO |

## Left out

- getByCategory, getBySubCategory and getByBrand (ProductServiceImpl.java:165-230): they rest on repository queries and a category service whose code is not part of this model.
- The controllers, login and JWT handling: HTTP routing that delegates to the services.
- BCrypt encoding: salted at random, so its output is the parameter `hashedPassword`.
- Logging and `System.out` output: no effect on state or results.
- Concurrency: the model is one request at a time, so the race between a uniqueness check and the write after it is not modelled.
- Bean Validation annotations on the DTOs: applied by the framework, with patterns that are not part of this model.
- The stock, wishlist and cart services are not part of this model. The stock outcome is the parameter `stockAdded`. Wishlist and cart calls are recorded, but their effects and failures are not modelled.
- BrandMapper is not part of this model. It is taken to copy id and name behind a null guard, and its functions carry no contract.
- Tables.FindFirst: a derived query that matches several rows makes Spring Data throw IncorrectResultSizeDataAccessException. The model returns the first match in store order. This is reachable: updateProduct can give two products the same name and description, and addProduct then finds both.
- ProductService.ProductServiceImpl.UpdateProduct requires a non-null id. Its first step is `findById` of the id, which throws IllegalArgumentException on null. Its one caller sets the id from the request path (ProductController.java:166). UpdateBrand instead models a null id: it returns the input when no brand is live, and fails in `findById` otherwise.
- The null checks after `save` in updateProduct, addBrand and updateBrand (ProductServiceImpl.java:139-141, 241-243, 286-288) cannot fire here: `save` always returns a row, and the mappers return null only for null input.
- UserService.UserServiceImpl.UpdateUser: validByEmailId and validByPhoneNumber compare boxed `Long` ids with `==`, which is reference identity in Java. The model compares values.
- UserService.UserServiceImpl.DeleteUser, like UserService.UserServiceImpl.UpdateUser: the signed-in user, when there is one, is taken to be a stored row, as loaded by the authentication filter. The in-place change to that object is not modelled; the saved row is.
- UserService.UserServiceImpl.CreateUser: its precondition excludes an empty role list. On that input the source saves a user whose role list is null and then throws NullPointerException in `convertUserDAO`. Such a row would break the invariant that every stored user has a role list, which the other user operations rely on. A null role list is modelled: it fails after the scans with no write.
- UserService.UserServiceImpl.CreateUser: a role whose type is null makes `equalsIgnoreCase` throw (UserServiceImpl.java:79). The model's role type is a string that cannot be null.
- UserMapper.ConvertUserDto and UserMapper.ConvertUserDao require a non-null role list. The source throws on a null one after building the result's addresses, and returns nothing.
- UserService.UserServiceImpl.CreateUser and UserService.UserServiceImpl.UpdateUser: the source writes the encoded password and the id into the caller's DTO (UserServiceImpl.java:71, 117, 120). The model does not return the changed DTO.
- ProductMapper.ConvertProductDtoToProduct and ProductMapper.ConvertProductToProductDto: CategoryMapper (ProductMapper.java:38-39, 60-61) is not part of this model. It is taken to copy category and sub-category unchanged, and ProductMapper.ProductRoundTrip and ProductMapper.ProductEntityRoundTrip rest on that.
- UserService.StoredMobileNumberExists: when stored numbers are null, the contract does not say whether the scan meets a match or a null first. It says only that a throw means some stored number is null.
- ProductService.ProductServiceImpl.AddProduct: quantity and both dates must be non-null. The source unboxes them and throws otherwise.
- AddressService.AddressServiceImpl.DeleteAddress: the signed-in user's address list must be non-null and hold ids, as a loaded entity's list does.
- Dates are day counts compared with strict `<`. Times within a day are not modelled.
- The price is a `Double` kept as an uninterpreted 64-bit pattern.
- Common.UpperAscii and Common.EqualsIgnoreCase: `equalsIgnoreCase` is modelled for ASCII letters only. Java also folds other letters: 'ſ' (U+017F) upper-cases to 'S', so "CUſTOMER" is a customer role in the source but not in the model.
