/**
 * The user handlers: two reads that leave the password attribute out, and
 * create, update and delete, each changing the user table in place.
 * A path id names a row when it is a run of decimal digits.
 */
module UserController {
  import opened Common
  import opened Text
  import opened Tables
  import opened Records
  import opened Store
  import Bcrypt
  import Jwt
  import AuthController

  const NotFound := Response(404, Failure("User not found"))

  /** A request body for create or update; an absent attribute is `None`. */
  datatype UserBody = UserBody(
    firstname: Option<string>,
    lastname: Option<string>,
    email: Option<string>,
    password: Option<string>,
    address: Option<string>,
    zipcode: Option<int>,
    city: Option<string>,
    phone: Option<string>,
    admin: Option<bool>)

  /** `User.findByPk(param)`. */
  function ById(users: seq<User>, param: string): (u: Option<User>)
    ensures u.Some? ==> u.value in users && KeyOf(param) == Some(u.value.id)
    ensures u.None? ==> forall v :: v in users ==> KeyOf(param) != Some(v.id)
  {
    match KeyOf(param)
    case None => None
    case Some(k) => FindOne(users, UserWithId(k))
  }

  /** Two tables that differ at most in their passwords. */
  ghost predicate SameButPasswords(a: seq<User>, b: seq<User>) {
    |a| == |b| && forall i :: 0 <= i < |a| ==> a[i].(password := b[i].password) == b[i]
  }

  /** GET /api/users: 404 on an empty table, else every row in table order, password left out. */
  function GetUsers(users: seq<User>): (r: Response)
    ensures r.status == 404 <==> users == []
    ensures r.status == 404 ==> r.body == Failure("No Users found")
    ensures r.status != 404 ==>
      && r.status == 200 && r.body.UserList? && |r.body.users| == |users|
      && forall i :: 0 <= i < |users| ==> r.body.users[i] == Public(users[i])
  {
    if |users| == 0 then Response(404, Failure("No Users found"))
    else Response(200, UserList(seq(|users|, i requires 0 <= i < |users| => Public(users[i]))))
  }

  /** GET /api/users/:id: 404 when no row has the id, else that row without its password. */
  function GetUser(users: seq<User>, id: string): (r: Response)
    ensures r.status == 404 <==> forall v :: v in users ==> KeyOf(id) != Some(v.id)
    ensures r.status == 404 ==> r == NotFound
    ensures r.status != 404 ==>
      && r.status == 200 && r.body.OneUser?
      && exists u :: u in users && KeyOf(id) == Some(u.id) && r.body.user == Public(u)
  {
    match ById(users, id)
    case None => NotFound
    case Some(user) => Response(200, OneUser(Public(user)))
  }

  /** No read handler's answer depends on any password. */
  lemma {:induction false} ReadsHidePasswords(a: seq<User>, b: seq<User>, id: string)
    requires SameButPasswords(a, b)
    ensures GetUsers(a) == GetUsers(b)
    ensures GetUser(a, id) == GetUser(b, id)
  {
    if KeyOf(id).Some? {
      FirstWhereAgrees(a, b, UserWithId(KeyOf(id).value));
    }
    if a != [] {
      assert GetUsers(a).body.users == GetUsers(b).body.users;
    }
  }

  /** Whether the body fills every attribute the table declares NOT NULL. */
  predicate Complete(body: UserBody) {
    body.firstname.Some? && body.lastname.Some? && body.email.Some? && body.password.Some?
  }

  /** The row `User.create(body)` inserts, with `password` holding whatever text it is given. */
  function Created(id: nat, body: UserBody, password: string): User
    requires Complete(body)
  {
    User(id, body.firstname.value, body.lastname.value, body.email.value, password,
         body.address, body.zipcode, body.city, body.phone, body.admin)
  }

  /**
   * POST /api/users, as written: the body becomes the row, its password kept
   * as given. A taken email gives 400; an absent email makes the lookup throw,
   * and an absent NOT NULL attribute makes the insert throw (500); both write
   * nothing. On success the answer is the id of the row found by that email.
   */
  method CreateUser(db: Db, body: UserBody) returns (r: Response)
    requires db.Valid()
    modifies db`users, db`nextUserId
    ensures db.Valid()
    ensures r.status in {201, 400, 500}
    ensures r.status == 400 <==> body.email.Some? && AuthController.Account(old(db.users), body.email.value).Some?
    ensures r.status == 400 ==> r.body == Failure("User already exists with this email")
    ensures r.status == 201 <==> Complete(body) && AuthController.Account(old(db.users), body.email.value).None?
    ensures r.status == 201 ==>
      && db.users == old(db.users) + [Created(old(db.nextUserId), body, body.password.value)]
      && db.nextUserId == old(db.nextUserId) + 1
      && r.body == WithId(old(db.nextUserId))
      && AuthController.Account(db.users, body.email.value) == Some(db.users[|db.users| - 1])
    ensures r.status != 201 ==> db.users == old(db.users) && db.nextUserId == old(db.nextUserId)
  {
    if body.email.None? {
      return Response(500, InternalError);
    }
    var existing := AuthController.Account(db.users, body.email.value);
    if existing.Some? {
      return Response(400, Failure("User already exists with this email"));
    }
    if !Complete(body) {
      return Response(500, InternalError);
    }
    var row := Created(db.nextUserId, body, body.password.value);
    AppendFresh(db.users, UserKey, db.nextUserId, row);
    FirstWhereAppend(db.users, UserWithEmail(body.email.value), row);
    db.users := db.users + [row];
    db.nextUserId := db.nextUserId + 1;
    var newUser := AuthController.Account(db.users, body.email.value);
    return Response(201, WithId(newUser.value.id));
  }

  /** A user created as written, whose password does not look like a bcrypt hash, can never sign in with it. */
  lemma CreatedUserCannotSignIn(users: seq<User>, id: nat, body: UserBody,
                                kdf: Bcrypt.Kdf, key: Jwt.Key, now: nat)
    requires Complete(body) && AuthController.Account(users, body.email.value).None?
    requires !Bcrypt.LooksHashed(body.password.value)
    ensures AuthController.Signin(users + [Created(id, body, body.password.value)],
                                  AuthController.Credentials(body.email, body.password), kdf, key, now)
         == AuthController.InvalidCredentials
  {
    var row := Created(id, body, body.password.value);
    FirstWhereAppend(users, UserWithEmail(body.email.value), row);
    assert AuthController.Account(users + [row], body.email.value) == Some(row);
    Bcrypt.PlaintextNeverMatches(kdf, body.password.value, row.password);
  }

  /** POST /api/users as sign-up stores passwords: the same handler, with the password hashed under a fresh salt. */
  method CreateUserHashed(db: Db, body: UserBody, salt: Bcrypt.Salt, kdf: Bcrypt.Kdf) returns (r: Response)
    requires db.Valid()
    modifies db`users, db`nextUserId
    ensures db.Valid()
    ensures r.status in {201, 400, 500}
    ensures r.status == 400 <==> body.email.Some? && AuthController.Account(old(db.users), body.email.value).Some?
    ensures r.status == 400 ==> r.body == Failure("User already exists with this email")
    ensures r.status == 201 <==> Complete(body) && AuthController.Account(old(db.users), body.email.value).None?
    ensures r.status == 201 ==>
      && db.users == old(db.users) + [Created(old(db.nextUserId), body, Bcrypt.Hash(kdf, body.password.value, salt))]
      && db.nextUserId == old(db.nextUserId) + 1
      && r.body == WithId(old(db.nextUserId))
    ensures r.status != 201 ==> db.users == old(db.users) && db.nextUserId == old(db.nextUserId)
  {
    if body.email.None? {
      return Response(500, InternalError);
    }
    var existing := AuthController.Account(db.users, body.email.value);
    if existing.Some? {
      return Response(400, Failure("User already exists with this email"));
    }
    if !Complete(body) {
      return Response(500, InternalError);
    }
    var row := Created(db.nextUserId, body, Bcrypt.Hash(kdf, body.password.value, salt));
    AppendFresh(db.users, UserKey, db.nextUserId, row);
    FirstWhereAppend(db.users, UserWithEmail(body.email.value), row);
    db.users := db.users + [row];
    db.nextUserId := db.nextUserId + 1;
    var newUser := AuthController.Account(db.users, body.email.value);
    return Response(201, WithId(newUser.value.id));
  }

  /** A user created with a hashed password signs in with the password it was given. */
  lemma HashedCreatedUserCanSignIn(users: seq<User>, id: nat, body: UserBody, salt: Bcrypt.Salt,
                                   kdf: Bcrypt.Kdf, key: Jwt.Key, now: nat)
    requires Complete(body) && AuthController.Account(users, body.email.value).None?
    ensures AuthController.Signin(users + [Created(id, body, Bcrypt.Hash(kdf, body.password.value, salt))],
                                  AuthController.Credentials(body.email, body.password), kdf, key, now)
         == Response(200, Token(AuthController.GenerateAuthToken(id, key, now)))
  {
    var row := Created(id, body, Bcrypt.Hash(kdf, body.password.value, salt));
    FirstWhereAppend(users, UserWithEmail(body.email.value), row);
    assert AuthController.Account(users + [row], body.email.value) == Some(row);
    Bcrypt.CompareHash(kdf, body.password.value, salt);
  }

  /** `user.update(body)`: every attribute the body carries replaces the stored one, the password included, as given. */
  function Merge(u: User, body: UserBody): (v: User)
    ensures v.id == u.id
  {
    User(u.id,
         body.firstname.GetOr(u.firstname), body.lastname.GetOr(u.lastname),
         body.email.GetOr(u.email), body.password.GetOr(u.password),
         if body.address.Some? then body.address else u.address,
         if body.zipcode.Some? then body.zipcode else u.zipcode,
         if body.city.Some? then body.city else u.city,
         if body.phone.Some? then body.phone else u.phone,
         if body.admin.Some? then body.admin else u.admin)
  }

  /** Sending the same update twice leaves the row as sending it once did. */
  lemma MergeIdempotent(u: User, body: UserBody)
    ensures Merge(Merge(u, body), body) == Merge(u, body)
  {
  }

  /** An update carrying no attribute leaves the row as it was. */
  lemma MergeNothing(u: User)
    ensures Merge(u, UserBody(None, None, None, None, None, None, None, None, None)) == u
  {
  }

  /** PUT /api/users/:id: 404 when no row has the id; else that row, and only it, takes the body's attributes. */
  method UpdateUser(db: Db, id: string, body: UserBody) returns (r: Response)
    requires db.Valid()
    modifies db`users
    ensures db.Valid()
    ensures r.status in {200, 404}
    ensures r.status == 404 <==> ById(old(db.users), id).None?
    ensures r.status == 404 ==> r == NotFound && db.users == old(db.users)
    ensures r.status == 200 ==>
      var i := FirstWhere(old(db.users), UserWithId(KeyOf(id).value));
      && i < |old(db.users)|
      && db.users == old(db.users)[i := Merge(old(db.users)[i], body)]
      && r.body == WithId(old(db.users)[i].id)
  {
    var user := ById(db.users, id);
    if user.None? {
      return NotFound;
    }
    var i := FirstWhere(db.users, UserWithId(KeyOf(id).value));
    var row := Merge(db.users[i], body);
    ReplaceKeepsKeys(db.users, UserKey, db.nextUserId, i, row);
    db.users := db.users[i := row];
    return Response(200, WithId(row.id));
  }

  /** DELETE /api/users/:id: 404 when no row has the id; else that row goes and every other stays, in order. */
  method DeleteUser(db: Db, id: string) returns (r: Response)
    requires db.Valid()
    modifies db`users
    ensures db.Valid()
    ensures r.status in {204, 404}
    ensures r.status == 404 <==> ById(old(db.users), id).None?
    ensures r.status == 404 ==> r == NotFound && db.users == old(db.users)
    ensures r.status == 204 ==>
      && r.body == Acknowledged
      && db.users == RemoveAt(old(db.users), FirstWhere(old(db.users), UserWithId(KeyOf(id).value)))
      && ById(db.users, id).None?
      && forall u :: u in old(db.users) && Some(u.id) != KeyOf(id) ==> u in db.users
  {
    var user := ById(db.users, id);
    if user.None? {
      return NotFound;
    }
    var k := KeyOf(id).value;
    var i := FirstWhere(db.users, UserWithId(k));
    ghost var before := db.users;
    RemoveKeepsKeys(db.users, UserKey, db.nextUserId, i);
    db.users := RemoveAt(db.users, i);
    RemoveKeepsOthers(before, i);
    assert forall v :: v in db.users ==> v.id != k;
    return Response(204, Acknowledged);
  }
}
