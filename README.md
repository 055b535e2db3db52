# GrocerEase backend core, modelled in Dafny

This project models the core of the GrocerEase grocery-store backend, an
Express application with Mongoose models. It covers:

- **Registration** (`registerUser`). It requires name, email and password to
  be present, looks the email up, hashes the password, saves a new user and
  answers 201, 400, 409 or 500.
  - The user collection is a class (`UserModel.UserCollection`) whose `users`
    sequence the `Save` method updates.
  - `RegisterUser` is a method that modifies that collection.
- **The five schemas**: user, product, address, cart item and order. Each has
  a datatype, its defaults, the `trim` setters its fields declare, and a
  `Valid` predicate. `Valid` is what the schema's validators (`required`,
  `min`, `minlength`, `enum`, custom `validate`) accept when the document is
  saved. The unique indexes on the user's `email` and the order's `orderId`
  are invariants over a sequence of documents.
- **The `auth` middleware.** It takes the token from the `accessToken` cookie
  or from the authorization header. It answers 401 when there is no token and
  otherwise calls `next()`.

The JavaScript string behaviour these rules rely on is in `JsStrings`:

- truthiness of an optional string;
- `String.prototype.trim`, with the ECMAScript WhiteSpace and LineTerminator
  characters;
- `split(' ')` and `join(' ')`.

Files:

| file | module |
|---|---|
| wrappers.dfy | `Wrappers` (`Option`) |
| documents.dfy | `Documents` (object ids, timestamps, validation errors) |
| http.dfy | `Http` (status and JSON body of a response) |
| js_strings.dfy | `JsStrings` |
| user_model.dfy | `UserModel` (schema, validators, `UserCollection` class) |
| user_controller.dfy | `UserController` (`RegisterUser`) |
| product_model.dfy | `ProductModel` |
| address_model.dfy | `AddressModel` |
| cart_product_model.dfy | `CartProductModel` |
| order_model.dfy | `OrderModel` |
| auth_middleware.dfy | `AuthMiddleware` |

How the registration model handles what it cannot see:

- **Hashing.** `bcryptjs.hash` is a function parameter `hash: string -> string`.
- **Thrown errors.** The exceptions the awaited steps may throw are a
  `Failures` record. It holds one optional message each for `findOne`, the
  hash and the database write of `save`. With those, every branch of the
  handler's `try`/`catch` is an input the contracts speak about.
- **Casting the filter.** `findOne({ email })` casts its filter through the
  schema's `trim` setter. The duplicate lookup therefore compares the trimmed
  request email with the stored, already trimmed, emails.

## Model

| member | source | states |
|---|---|---|
| JsStrings.Trim | backend/models/userModel.js:8 | the `trim` setter's result has no whitespace at either end |
| JsStrings.TrimIsMiddle | backend/models/userModel.js:8 | trimming keeps a contiguous middle of the value and removes only a whitespace prefix and a whitespace suffix |
| JsStrings.TrimTrimmed | backend/models/userModel.js:8 | a value with no whitespace at its ends is kept unchanged by the setter |
| JsStrings.TrimIdempotent | backend/models/userModel.js:8 | applying the setter twice gives the same value as once |
| JsStrings.TrimEmptyIff | backend/models/userModel.js:5-9 | the trimmed value is empty exactly when the input is whitespace only, so such a value fails `required` |
| JsStrings.TrimOpt | backend/models/userModel.js:66-70 | the setter keeps a `null` field `null` and replaces a present value by its `trim()`, which has no whitespace at either end |
| JsStrings.TrimOptTruthy | backend/models/userModel.js:5-15 | a trimmed field is truthy exactly when it was present with a non-whitespace character |
| JsStrings.Truthy | backend/controllers/userController.js:8 | JavaScript truthiness of an optional string: `undefined`, `null` and `""` are falsy, every other string is truthy |
| JsStrings.FirstSpace | backend/middleware/auth.js:6 | the index where `split(' ')` cuts: no space before it, a space at it unless it is the end |
| JsStrings.Split | backend/middleware/auth.js:6 | `split(' ')` always yields at least one piece |
| JsStrings.SplitHead | backend/middleware/auth.js:6 | the first piece runs up to the first space |
| JsStrings.SplitNoSpace | backend/middleware/auth.js:6 | no piece of `split(' ')` contains a space |
| JsStrings.JoinSplit | backend/middleware/auth.js:6 | `join(' ')` of the pieces gives back the header, so nothing is lost by splitting |
| JsStrings.SplitJoin | backend/middleware/auth.js:6 | splitting a join of space-free pieces gives back exactly those pieces |
| Http.ServerError | backend/controllers/userController.js:39-45 | status 500 with `error: true, success: false`; the message is the error's own when it is non-empty, else `Internal Server Error` |
| UserModel.New | backend/models/userModel.js:5-79 | name and email are trimmed, the password is kept as given, and every other field holds its schema default (empty avatar and refresh token, `null` mobile, dates and OTP fields, no email verification, status `Active`, role `User`, empty lists) |
| UserModel.Defaults | backend/models/userModel.js:21-79 | no name, email or password; empty avatar and refresh token, `null` mobile, last login date and OTP fields, email not verified, status `Active`, role `User`, empty address, cart and order lists |
| UserModel.Valid | backend/models/userModel.js:5-79 | accepts exactly a document with a non-empty name and email, a password of at least 6 characters, a status among `Active`, `Inactive`, `Suspended` and a role among `Admin`, `User` |
| UserModel.NewValid | backend/models/userModel.js:5-20 | a new user validates exactly when name and email hold a non-whitespace character and the password has at least 6 characters |
| UserModel.DefaultsInvalid | backend/models/userModel.js:5-20 | a document without name, email and password is refused, while the default status and role are enum members |
| UserModel.ValidationErrors | backend/models/userModel.js:5-79 | the list of failed validators is empty exactly when the document is valid |
| UserModel.ValidationMessage | backend/models/userModel.js:5-20 | the thrown validation message is never empty |
| UserModel.FindOne | backend/controllers/userController.js:15 | finds a user exactly when one with that email is stored, and the one found is stored with that email |
| UserModel.AppendKeepsUniqueEmails | backend/models/userModel.js:13 | adding a user whose email is not taken keeps emails unique |
| UserModel.UserCollection.constructor | backend/models/userModel.js:84 | an empty collection satisfies the invariant |
| UserModel.UserCollection.Save | backend/models/userModel.js:5-20 | stores the document exactly when it validates, its email is not taken and the write succeeds. Each failure leaves the collection unchanged and reports the validation message, the duplicate-key message or the write error. The collection stays valid, trimmed and email-unique |
| UserController.Candidate | backend/controllers/userController.js:24-30 | the built user has the trimmed request name and email, holds `hash(password)` rather than the plaintext, and every other field at its schema default. It is valid exactly when name and email are not whitespace only and the hash, not the password, has at least 6 characters |
| UserController.MissingField | backend/controllers/userController.js:8 | `!name \|\| !email \|\| !password`: some field of the body is absent, `null` or empty |
| UserController.RegisterUser | backend/controllers/userController.js:4-46 | a missing field gives 400, a taken email 409 and each thrown failure 500, all with the collection unchanged. 201 happens exactly when nothing fails, and then exactly the candidate user is appended and the body echoes the request's name and email, without the password. The unique-email invariant is kept |
| UserController.RegisterTwice | backend/controllers/userController.js:15-38 | registering the same request twice on an empty collection answers 201 then 409 and stores one user |
| ProductModel.New | backend/models/productModel.js:5-64 | the name is the `trim()` of the given name, every other field holds its default, and the product is valid exactly when the name is not whitespace only |
| ProductModel.Defaults | backend/models/productModel.js:10-64 | no name, no images, categories or sub-categories, `null` unit and description, stock, price and discount 0, empty `more_details`, published |
| ProductModel.Valid | backend/models/productModel.js:5-51 | accepts exactly a product with a non-empty name, stock, price and discount not negative, and a discount not above the price |
| ProductModel.DefaultsInvalid | backend/models/productModel.js:5-9 | a product without a name is refused |
| ProductModel.ValidDiscountedPrice | backend/models/productModel.js:31-51 | in a valid product the discounted price is between 0 and the price, and a free product has no discount |
| ProductModel.DiscountOnFreeProductInvalid | backend/models/productModel.js:45-50 | a positive discount on a product priced 0 is refused |
| ProductModel.PricingValid | backend/models/productModel.js:31-51 | a named product validates exactly when stock, price and discount are not negative and the discount does not exceed the price |
| AddressModel.Cast | backend/models/addressModel.js:5-44 | each of the four text fields becomes the `trim()` of its value (`null` stays `null`) and is truthy exactly when it held a non-whitespace character; pincode and mobile are not touched |
| AddressModel.ContainsDigitRun | backend/models/addressModel.js:25 | `/\d{k}/.test(s)`: a match of k digits is tried at the start of the value, then at each later position |
| AddressModel.Valid | backend/models/addressModel.js:5-44 | accepts exactly an address whose six fields are present and non-empty, whose pincode passes `/\d{6}/` and whose mobile passes `/\d{10}/` |
| AddressModel.ContainsDigitRunIff | backend/models/addressModel.js:25 | the left-to-right regex search succeeds exactly when some position starts a run of k digits |
| AddressModel.DigitRunMonotone | backend/models/addressModel.js:25 | a value containing a run of k digits also contains a run of every shorter length |
| AddressModel.MobileImpliesPincode | backend/models/addressModel.js:20-44 | every value the mobile validator accepts passes the pincode validator |
| AddressModel.PrefixRunCount | backend/models/addressModel.js:25 | a run of k digits at the start means at least k digits |
| AddressModel.RunNeedsDigits | backend/models/addressModel.js:25 | a value the search accepts holds at least k digits |
| AddressModel.FewDigitsInvalidPincode | backend/models/addressModel.js:23-28 | a value with fewer than 6 digits is not a valid pincode |
| AddressModel.SixDigitsValidPincode | backend/models/addressModel.js:23-28 | six digits and nothing else are a valid pincode |
| AddressModel.UnanchoredPincode | backend/models/addressModel.js:23-28 | any text before or after a six-digit run is accepted, e.g. `1234567` or `ab123456` |
| AddressModel.SplitGroupsInvalidPincode | backend/models/addressModel.js:23-28 | two groups of three digits split by a non-digit are refused |
| AddressModel.RunValidatorIff | backend/models/addressModel.js:20-44 | a value passes `required` and a digit-run validator exactly when it holds a run of k digits |
| AddressModel.CastValid | backend/models/addressModel.js:5-44 | an address validates exactly when the four text fields hold a non-whitespace character, the pincode holds 6 consecutive digits and the mobile 10 |
| CartProductModel.New | backend/models/cartProductModel.js:5-17 | a new cart item has quantity 1 and the given references, and is valid |
| CartProductModel.Valid | backend/models/cartProductModel.js:9-13 | accepts exactly a quantity of at least 1 |
| CartProductModel.NonPositiveQuantityInvalid | backend/models/cartProductModel.js:9-13 | a quantity of 0 or less is refused |
| CartProductModel.ReferencesIrrelevant | backend/models/cartProductModel.js:5-17 | validity depends only on quantity being at least 1, never on the optional references |
| OrderModel.New | backend/models/orderModel.js:9-48 | the order id is kept as given (no trim) and every other field holds its default; the order is valid exactly when the id is non-empty |
| OrderModel.Defaults | backend/models/orderModel.js:5-48 | no user, order id, product or delivery address; product details with no name and no images; `null` payment id, payment status and invoice receipt; both amounts 0 |
| OrderModel.Valid | backend/models/orderModel.js:9-43 | accepts exactly an order with a non-empty order id and both amounts not negative |
| OrderModel.DefaultsInvalid | backend/models/orderModel.js:9-11 | an order without an id is refused |
| OrderModel.AmountsIndependent | backend/models/orderModel.js:34-43 | any two non-negative amounts are accepted, a total below the subtotal included; a negative one is refused |
| OrderModel.AppendKeepsUniqueOrderIds | backend/models/orderModel.js:12 | adding an order whose id is not taken keeps order ids unique |
| OrderModel.AppendTakenBreaksUnique | backend/models/orderModel.js:12 | adding an order whose id is taken breaks uniqueness, which is what the unique index refuses |
| AuthMiddleware.SecondPiece | backend/middleware/auth.js:6 | `split(' ')[1]` exists exactly when the header has a space, and is the text between the first and the next space |
| AuthMiddleware.SelectToken | backend/middleware/auth.js:4-6 | a truthy cookie is the token. Otherwise a truthy token is the space-free piece that starts right after the header's first space and ends at the next space or at the end of the header |
| AuthMiddleware.HeaderToken | backend/middleware/auth.js:6 | without a truthy cookie, a header holding a space yields exactly element 1 of `split(' ')` |
| AuthMiddleware.ExtraPiecesIgnored | backend/middleware/auth.js:6 | a `<scheme> <token> <more>` header, e.g. `Bearer abc def`, yields `abc`: pieces after the second are ignored |
| AuthMiddleware.TokenPresence | backend/middleware/auth.js:4-8 | a token is found exactly when the cookie is truthy or the header has a non-space character right after its first space |
| AuthMiddleware.Auth | backend/middleware/auth.js:8-16 | `next()` exactly when a token is found in the cookie or the header; otherwise 401 `Authorization token is missing` |
| AuthMiddleware.CookieWins | backend/middleware/auth.js:5 | a non-empty cookie is the token whatever the header holds |
| AuthMiddleware.EmptyCookieFallsThrough | backend/middleware/auth.js:5-6 | an empty cookie behaves exactly like no cookie |
| AuthMiddleware.SchemeAndToken | backend/middleware/auth.js:6 | a `<scheme> <token>` header, e.g. `Bearer abc`, yields the token and lets the request through |
| AuthMiddleware.NoSpaceRejected | backend/middleware/auth.js:6-14 | a header without a space and no cookie gives 401 |
| AuthMiddleware.TrailingSpaceRejected | backend/middleware/auth.js:6-14 | a header ending in a bare space, e.g. `Bearer `, yields the empty token and 401 |
| AuthMiddleware.TokenNotVerified | backend/middleware/auth.js:16 | any two requests carrying a token are let through alike: the token is not verified |
| AuthMiddleware.AuthAsWritten | backend/middleware/auth.js:6 | as written, `next()` exactly when the cookie is truthy: the header is never consulted |
| AuthMiddleware.HeaderIgnoredAsWritten | backend/middleware/auth.js:6 | a request with only a `<scheme> <token>` header gets 401 as written, and is let through by `Auth` |

## Left out

- Password hashing: bcrypt's algorithm, its cost factor 12 and its random salt are not modelled. The hash is an arbitrary function parameter, so two registrations of one password are assumed to store the same hash.
- Concurrency: concurrent requests can race between `findOne` and `save`. The model is sequential, so the unique index's duplicate-key branch in `Save` cannot be reached from `RegisterUser`.
- Values Mongoose generates: `_id`, `createdAt` and `updatedAt` (`timestamps: true`) are not modelled.
- Request bodies are strings only. A number or an object in `name`, `email` or `password` (cast by Mongoose, or rejected by bcrypt) is not modelled.
- String length is counted in characters. JavaScript counts UTF-16 code units, which differ only outside the Basic Multilingual Plane.
- Numbers (`stock`, `price`, `discount`, `quantity`, the order amounts, `mobile`) are integers. Fractions, `NaN` and floating-point rounding are not modelled; the validators only compare.
- Trim setters not exercised: those on the product's `unit` and `description` and the order's `invoice_receipt` are not applied. No modelled constructor sets those fields, and their defaults are `null`.
- `more_details` is an arbitrary object in the schema. Here it is a map from keys to strings.
- Category and sub-category models are not part of this model.
- `auth`'s `catch` branch (500 with the error's message) is not modelled. Nothing in the modelled header and cookie strings can throw; the `console.error` logging is left out with it.
- Left out as I/O or glue with nothing to prove:
  - server start-up, the database connection and route registration;
  - e-mail sending, image upload, refresh-token generation and the e-mail templates.
  - The route file imports login, logout and OTP handlers that the controller does not define. Those handlers are not modelled.
- Queries other than `findOne` are not modelled, nor updates that would bypass the validators.
- UserModel.ValidationMessage: states only that the message is non-empty. The text is built from the failed validators in schema order, but the exact wording and order of Mongoose's `ValidationError` message are not claimed.
- UserModel.UserCollection.Save: the duplicate-key message follows MongoDB's `E11000` format. The contract only says that it is the reported error on that branch through `err.Some?`, not what the text is.

## Findings

| source | as written | input that shows it | evidently intended | confidence | as-written member | corrected member |
|---|---|---|---|---|---|---|
| backend/middleware/auth.js:6 | reads `req.header.authorization`. In Express `req.header` is a method, so the property is `undefined` and the header never supplies a token | no `accessToken` cookie and header `Authorization: Bearer abc`: the answer is 401 | read the header (`req.headers.authorization`) and take the piece after the first space as the token | high, not executed | AuthMiddleware.AuthAsWritten, AuthMiddleware.HeaderIgnoredAsWritten | AuthMiddleware.Auth |
