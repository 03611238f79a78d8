# A verified model of the e-commerce API's handlers

This project models the request handlers of a small Express/Sequelize
e-commerce backend in Dafny. It covers:

- sign-in and sign-up, with bcrypt password hashes and one-hour JWT bearer tokens;
- the admin gate that protects the back-office routes;
- the user, product, wishlist and order handlers over their tables.

Each handler decides on an HTTP status and a JSON body from its request and
the tables. It may then insert, update or delete one row.

How the model is laid out:

- `Store.Db` is a class whose fields are the five tables and the
  auto-increment counters. Each table is a sequence of rows in insertion
  order.
- `findOne` is the first matching row, `findAll` the matching rows in order,
  and `findByPk` the row with that key (`Tables`).
- Handlers that write (sign-up, create/update/delete user, create/update/delete
  product, add to wishlist) are methods with `modifies` frames naming exactly
  the fields they may change. Each one states the whole new state and the
  response.
- Handlers that only read (sign-in, the admin decision, every GET) are
  functions.
- The admin middleware is a method. It writes only the request's `user` slot,
  and its result equals the pure decision `AdminGate.Gate`.
- bcrypt is modelled by its format. A hash is the 29-character salt followed
  by a checksum. The key-derivation function is a parameter, so every property
  holds for any derivation.
- A JWT is the user id, issue time and expiry time, followed by a keyed
  signature over them. The keyed hash and the secret are a parameter `Jwt.Key`.
- The clock is a parameter `now`, in seconds.
- The upload service behind `uploadImage` is a parameter. It returns a URL, or
  `None` when the upload throws.
- A body attribute the client left out is `None`.
- A path parameter is text. `Text.KeyOf` turns it into a key only when it is a
  non-empty run of decimal digits.
- `isNaN` on a path parameter is `JsNumber.IsNaN`: the text is not a
  StringNumericLiteral of section 7.1.4.1 of ECMA-262 (after trimming white
  space, empty, a signed decimal with optional fraction and exponent,
  `Infinity`, or a `0x`/`0o`/`0b` integer).
- Every exception that a handler's catch turns into a 500 answers
  `Response(500, InternalError)`. The admin gate's catch answers 401
  (`InvalidToken`) instead.

## Model

| member | source | states |
|---|---|---|
| Text.Split | src/middlewares/isAdminMiddleware.js:14 | `split(" ")` on one character: at least one field, no field holds the separator, and joining the fields with it gives back the text |
| Text.SplitOfJoin | src/middlewares/isAdminMiddleware.js:14 | splitting fields that were joined with a separator they do not contain gives back exactly those fields |
| Text.KeyOf | src/controllers/user.controller.js:38 | the primary key a path id names exists exactly when the id is a non-empty digit string, and it is the number those digits denote |
| Text.ParseDecOfDec | src/controllers/product.controller.js:124 | reading back the decimal text of an id gives the id |
| Text.DecOfParseDec | src/controllers/product.controller.js:124 | a digit string without a superfluous leading zero is the decimal text of the number it denotes |
| Tables.FirstWhere | src/controllers/auth.controller.js:16 | the index `findOne` takes: the first row the condition accepts, none before it, or the table length when none does |
| Tables.FindOne | src/controllers/auth.controller.js:16 | `findOne` finds a row exactly when some row satisfies the condition, and that row is in the table and satisfies it |
| Tables.Where | src/controllers/order.controller.js:79-81 | `findAll({ where })` returns each row the condition accepts exactly as often as the table holds it, and no other row |
| Tables.RemoveAt | src/controllers/user.controller.js:136 | `destroy` leaves every row before the removed one in place and shifts every row after it by one |
| Tables.RemoveKeepsKeys | src/models/User.js:59-61 | removing a row keeps the keys distinct and below the counter, and the removed key is gone |
| Tables.RemoveKeepsOthers | src/controllers/user.controller.js:136 | `destroy` of one row keeps every other row in the table |
| Tables.ReplaceKeepsKeys | src/models/Product.js:7-9 | replacing a row by one with the same key keeps the keys distinct and below the counter |
| Tables.AppendFresh | src/models/Wishlist.js:35-37 | a row keyed by the auto-increment counter keeps the keys distinct and below the bumped counter |
| Tables.FirstIsOnly | src/middlewares/isAdminMiddleware.js:21 | when keys are distinct, `findByPk` finds the one row holding that key |
| Tables.FirstWhereAppend | src/controllers/user.controller.js:75-77 | after an insert, `findOne` finds the old first match if there was one, otherwise the new row when it matches |
| Tables.FirstWhereAgrees | src/controllers/user.controller.js:38-40 | two tables on whose rows a condition agrees give the same `findOne` index |
| Bcrypt.Hash | src/controllers/auth.controller.js:68-69 | the hash has a hash's shape and starts with the salt it was made with |
| Bcrypt.Compare | src/controllers/auth.controller.js:25 | `bcrypt.compare` re-hashes the password with the salt read from the stored text: it matches exactly when the stored text is the hash of that password under some salt, so text that is not hash-shaped never matches |
| Bcrypt.CompareHash | src/controllers/auth.controller.js:25 | `compare` accepts a password against its own hash, whatever the salt |
| Bcrypt.PlaintextNeverMatches | src/controllers/auth.controller.js:25 | `compare` rejects every password against stored text that is not a bcrypt hash |
| Jwt.Sign | src/controllers/auth.controller.js:7 | a signed token contains no space, so it survives being sent as `Bearer <token>` |
| Jwt.Verify | src/middlewares/isAdminMiddleware.js:18 | verification succeeds only for a token that is exactly the signature of the returned claims and whose expiry is still ahead |
| Jwt.VerifySigned | src/middlewares/isAdminMiddleware.js:18 | a token signed with the key verifies, giving back its claims, exactly until its expiry |
| AuthController.GenerateAuthToken | src/controllers/auth.controller.js:6-8 | the token carries only the user id and its issue and expiry times, and contains no space |
| AuthController.TokenLifetime | src/controllers/auth.controller.js:6-8 | a sign-in token verifies, naming its user, for exactly 3600 seconds after issue and never afterwards |
| AuthController.Signin | src/controllers/auth.controller.js:11-44 | 200 exactly when the email's account exists and the password matches its hash, with a token for that account; an unknown email or wrong password gives the one 401 answer; an absent email, or an absent password for a known email, gives 500; nothing is written |
| AuthController.FailuresLookAlike | src/controllers/auth.controller.js:16-31 | an unknown email and a wrong password for a known email get the identical response |
| AuthController.Signup | src/controllers/auth.controller.js:46-94 | a taken email gives 400 and writes nothing; a missing required attribute gives 500 and writes nothing; otherwise exactly one row is appended, holding the profile, the salted hash and no admin flag, with 201 |
| AuthController.SignupThenSignin | src/controllers/auth.controller.js:25-76 | signing in with the pair just registered succeeds, with a token for the new row's id |
| AdminGate.BearerToken | src/middlewares/isAdminMiddleware.js:14 | the second space-separated field of a `Bearer ` header is the text after the scheme up to the next space |
| AdminGate.Presented | src/middlewares/isAdminMiddleware.js:9-14 | a token is presented exactly when the header exists and starts with `Bearer `, and it is the header's second space-separated field |
| AdminGate.Gate | src/middlewares/isAdminMiddleware.js:4-43 | the full decision table: 401 "Token non fourni" exactly for a missing or non-Bearer header; 401 "Token invalide" exactly when verification fails; 401 "Utilisateur non trouvé" exactly when the token's user is missing; 403 exactly when that user's admin flag is not true; otherwise pass as the token's user, who exists and is an admin |
| AdminGate.IsAdminMiddleware | src/middlewares/isAdminMiddleware.js:4-43 | the middleware takes the gate's decision, writes no table, and sets `req.user` to the token's user id exactly when it passes the request on |
| AdminGate.SigninTokenAtGate | src/middlewares/isAdminMiddleware.js:9-38 | a token from a successful sign-in, presented within its hour, passes an admin as that user and gets 403 for anyone else; afterwards it is an invalid token |
| UserController.ById | src/controllers/user.controller.js:38 | `findByPk` returns a row of the table whose id the parameter names, or nothing when no row has that id |
| UserController.GetUsers | src/controllers/user.controller.js:6-31 | 404 exactly on an empty table; otherwise every user, in order, each without its password |
| UserController.GetUser | src/controllers/user.controller.js:35-58 | 404 exactly when no user has the id; otherwise that user without its password |
| UserController.ReadsHidePasswords | src/controllers/user.controller.js:9-40 | the answers of both reads are the same for two tables that differ only in passwords |
| UserController.CreateUser | src/controllers/user.controller.js:61-88 | as written: a taken email gives 400 and writes nothing; an incomplete body gives 500 and writes nothing; otherwise the body becomes one new row, password as given, and the returned id is the row that email now finds |
| UserController.CreatedUserCannotSignIn | src/controllers/user.controller.js:75 | a user created this way with a password that is not hash-shaped can never sign in with that password |
| UserController.CreateUserHashed | src/controllers/user.controller.js:61-88 | the same handler storing the salted hash of the password, as sign-up does |
| UserController.HashedCreatedUserCanSignIn | src/controllers/auth.controller.js:25 | a user created with the hashed password signs in with the password it was given |
| UserController.Merge | src/controllers/user.controller.js:106 | `user.update(body)` keeps the row's id |
| UserController.MergeIdempotent | src/controllers/user.controller.js:106 | sending the same update twice leaves the row as sending it once did |
| UserController.MergeNothing | src/controllers/user.controller.js:106 | an update carrying no attribute leaves the row unchanged |
| UserController.UpdateUser | src/controllers/user.controller.js:91-120 | 404 exactly when no user has the id, writing nothing; otherwise only that row changes, taking the body's attributes, and the answer is its id |
| UserController.DeleteUser | src/controllers/user.controller.js:123-149 | 404 exactly when no user has the id, writing nothing; otherwise 204, that row is gone, no row has the id any more, and every other row stays in order |
| ProductController.ById | src/controllers/product.controller.js:43 | `findByPk` returns a product whose id the parameter names, or nothing when none has it |
| ProductController.GetProducts | src/controllers/product.controller.js:6-30 | 404 exactly on an empty table; otherwise every product, in order |
| ProductController.GetProduct | src/controllers/product.controller.js:33-61 | 400 exactly for an id that JavaScript's `isNaN` rejects, before any lookup; 404 exactly when no product has a numeric id; otherwise 200 with that product |
| ProductController.NumericNonDigitIdNotFound | src/controllers/product.controller.js:35-50 | an id that `isNaN` accepts but that is not a digit string gets past the 400 check and answers 404 |
| ProductController.SignedIdNotFound | src/controllers/product.controller.js:35-50 | a signed id such as "-5" gets past the 400 check and answers 404 |
| ProductController.FractionalIdNotFound | src/controllers/product.controller.js:35-50 | a fractional id such as "1.5" gets past the 400 check and answers 404 |
| ProductController.PaddedIdNotFound | src/controllers/product.controller.js:35-50 | an id with leading white space such as " 7" gets past the 400 check and answers 404 |
| JsNumber.IsNaN | src/controllers/product.controller.js:35 | `isNaN` on text: after trimming ECMA-262 white space the text is not empty, not a decimal literal and not a `0x`/`0o`/`0b` integer; so a blank text is a number, and a number starts with a digit, a point, a sign or the `I` of `Infinity` |
| JsNumber.NumberStart | src/controllers/product.controller.js:35 | every numeric literal starts with a digit, a point, a sign or the `I` of `Infinity` |
| JsNumber.TrimStart | src/controllers/product.controller.js:35 | `isNaN` ignores leading white space: what is removed is white space, and what is kept does not start with it |
| JsNumber.TrimEnd | src/controllers/product.controller.js:35 | `isNaN` ignores trailing white space: what is removed is white space, and what is kept does not end with it |
| JsNumber.DigitsAreNumbers | src/controllers/product.controller.js:35 | `isNaN` is false on every digit string, the empty one included |
| JsNumber.SignedDigitsAreNumbers | src/controllers/product.controller.js:35 | `isNaN` is false on a sign followed by digits |
| JsNumber.FractionsAreNumbers | src/controllers/product.controller.js:35 | `isNaN` is false on digits with a decimal point |
| JsNumber.ExponentsAreNumbers | src/controllers/product.controller.js:35 | `isNaN` is false on digits with an exponent |
| JsNumber.HexIsNumber | src/controllers/product.controller.js:35 | `isNaN` is false on `0x` and hexadecimal digits |
| JsNumber.PaddedNumbers | src/controllers/product.controller.js:35 | white space in front of a number leaves it a number |
| JsNumber.LetterFirstIsNaN | src/controllers/product.controller.js:35 | `isNaN` is true on a text that starts with a letter other than the `I` of `Infinity` |
| ProductController.PostProduct | src/controllers/product.controller.js:63-133 | 400 exactly when a required field is falsy (a price of 0 included), with nothing uploaded or written; then the thumbnail and packshot are uploaded in that order; a failed upload gives 500 and writes nothing; otherwise one row is appended whose images are the two URLs, with 201 |
| ProductController.WithUploads | src/controllers/product.controller.js:148-165 | the uploads `putProduct` makes: each truthy base64 field is uploaded, thumbnail first, and its URL replaces that image; nothing else in the body changes; the first failed upload stops the sequence, so a failed thumbnail means the packshot is never requested; the requests made are exactly the thumbnail's, if truthy, then the packshot's, if truthy and not stopped |
| ProductController.Apply | src/controllers/product.controller.js:186 | `existingProduct.update(body)` keeps the row's id |
| ProductController.ApplyIdempotent | src/controllers/product.controller.js:186 | applying the same body twice leaves the row as applying it once did |
| ProductController.ApplyNothing | src/controllers/product.controller.js:186 | a body carrying no column leaves the row unchanged |
| ProductController.PutProduct | src/controllers/product.controller.js:135-201 | the uploads come first, so a failed one gives 500 whatever the fields; then 400 for an empty id or a falsy name or price; then 404 for an unknown id; otherwise only that row changes, taking the body with its uploaded images; only 200 writes |
| ProductController.DeleteProduct | src/controllers/product.controller.js:203-240 | 400 exactly for an empty id; 404 exactly for an unknown one; otherwise that product is gone, no row has the id any more, every other row stays in order, and the message names the id |
| WishlistController.AppendNewPair | src/controllers/wishlist.controller.js:28-43 | inserting an item whose pair is absent keeps the pairs unique |
| WishlistController.AddWishlist | src/controllers/wishlist.controller.js:3-57 | the checks run in order (falsy id 400, unknown client or product 404, pair present 400), each answering before any later check or write; otherwise exactly one item with that pair is appended, with 201; the pairs stay unique |
| OrderController.GetOrders | src/controllers/order.controller.js:6-32 | 404 exactly on an empty table; otherwise every order as stored |
| OrderController.SummariesWhere | src/controllers/order.controller.js:50-53 | one summary per matching order, in table order, each holding only the eight listed columns |
| OrderController.GetOrderOfUser | src/controllers/order.controller.js:35-63 | 404 exactly when no user has the id; otherwise 200 with the summaries of the orders whose `user_id` is that id |
| OrderController.SummariesOfUser | src/controllers/order.controller.js:50-53 | a summary is listed exactly when some order of that user has it |
| OrderController.SummariesIgnorePayment | src/controllers/order.controller.js:52 | two order tables that differ only in their Stripe columns give the same summaries |
| OrderController.OrderListHidesPayment | src/controllers/order.controller.js:50-53 | a user's order list never depends on the Stripe payment columns |
| OrderController.GetOrderDetail | src/controllers/order.controller.js:66-91 | 404 exactly when no order has the id; otherwise each detail line of that order, exactly as often as stored, and no other line |

## Left out

- Sequelize, the database and `async`/`await` are not modelled. Handlers run one at a time on in-memory tables, so the check-then-insert races in sign-up, `createUser` and `addWishlist` are not captured.
- Database and driver failures are not modelled. The only 500s are those from an absent attribute or a failed upload. The 500 for an absent email relies on Sequelize 6, which throws on an `undefined` value in a `where` condition. The text of every 500 body is the single `InternalError`.
- bcrypt's cost function and Blowfish, and jsonwebtoken's base64url JSON encoding and HMAC, are not modelled. The derivation and the keyed hash are parameters. The token text is a dot-separated stand-in with the same round-trip behaviour.
- `bcrypt.genSalt(10)` draws randomness, so the salt is a parameter of the sign-up method.
- `Date.now` is not modelled; the clock is a parameter.
- `uploadImage` (src/controllers/product.controller.js:243-263) is a network call. It is the parameter `Upload`, which either returns a URL or fails.
- ProductController.GetProduct: an id that `isNaN` accepts but that is not a digit string, such as " 7", "+7", "-5", "1.5", "1e3" or "0x1A", reaches the lookup and answers 404 here. The database may instead read " 7" and "+7" as 7 and find that row, or reject "1.5" and "1e3" with an error (500).
- Text.KeyOf: only a non-empty digit string names a key. The database reads ids such as " 12" and "+12" as 12, so the source finds row 12 where the model answers "no such row". Ids the database cannot read as an integer, such as "abc" or "1.5", make it raise an error (500) where the model answers "no such row".
- `isNaN` on non-string values and the exact numeric value `Number()` yields are not modelled. `JsNumber` decides only whether a text is numeric.
- UserController.CreateUser: an `id` attribute in the create body is not modelled. Sequelize would insert the row under that key and answer with it, or answer 500 when that key is taken. The model always takes the next counter value and answers with it.
- UserController.CreateUserHashed: an `id` attribute in the create body is not modelled, as for `UserController.CreateUser`. Sequelize would insert the row under that key, or answer 500 when that key is taken.
- A JSON `null` is treated like an absent attribute. Body attributes of an unexpected JSON type, such as an id sent as a string, are not modelled.
- An `id` attribute inside an update body is not modelled.
- The wishlist's and the other tables' timestamp columns are not modelled.
- `Orders.user_id` is TEXT in the schema (src/models/Order.js:66-72) and is compared as a number here. The string and integer spellings of an id therefore coincide in this model.
- OrderDetail's DECIMAL `unit_price` is kept as its text, since no arithmetic is done on it.
- The 204 answer's body, which Express drops, is the marker `Acknowledged`.
- `console.log` output is not modelled.
- Routes, src/app.js and the swagger comments are not part of this model, since they are wiring and documentation. So is the `authController.session` that a route names but the controller does not define.
- src/middlewares/verifyIsAdmin.js is not part of this model: it is not wired to any route.
- src/middlewares/multer.js is not part of this model: it configures a library this model cannot see.
- scripts/update_products.py is not part of this model.

## Findings

| source | as written | input that shows it | evidently intended | confidence | as-written member | corrected member |
|---|---|---|---|---|---|---|
| src/controllers/user.controller.js:75 | `createUser` inserts the request body as the row, so the password is stored as plain text | POST /api/users with a new email and password "secret", then POST /api/auth/signin with the same pair: `bcrypt.compare` finds no salt in "secret" and sign-in answers 401 | store the bcrypt hash of the password, as sign-up does, so the account can sign in | medium, not executed | UserController.CreateUser, UserController.CreatedUserCannotSignIn | UserController.CreateUserHashed, UserController.HashedCreatedUserCanSignIn |
