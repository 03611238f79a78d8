/**
 * Sign-in and sign-up. Sign-in is a decision over the user table that writes
 * nothing; sign-up checks the email, hashes the password and inserts one row.
 * The salt `genSalt(10)` draws and the clock are parameters.
 */
module AuthController {
  import opened Common
  import opened Tables
  import opened Records
  import opened Store
  import Bcrypt
  import Jwt

  /** `expiresIn: "1h"`, in seconds. */
  const ExpiresIn: nat := 3600

  /** The one answer to a failed sign-in, whichever half of the pair was wrong. */
  const InvalidCredentials := Response(401, Failure("Invalid email or password."))

  /** The sign-in request body; an absent field is `None`. */
  datatype Credentials = Credentials(email: Option<string>, password: Option<string>)

  /** The sign-up request body; an absent field is `None`. */
  datatype Registration = Registration(
    firstname: Option<string>,
    lastname: Option<string>,
    email: Option<string>,
    password: Option<string>,
    address: Option<string>,
    zipcode: Option<int>,
    city: Option<string>,
    phone: Option<string>)

  /** `generateAuthToken(userId)`: a token whose only claim besides its times is the user id, valid for one hour from `now`. */
  function GenerateAuthToken(userId: nat, key: Jwt.Key, now: nat): (token: string)
    ensures ' ' !in token
  {
    Jwt.Sign(Jwt.Claims(userId, now, now + ExpiresIn), key)
  }

  /** A sign-in token verifies, naming the user it was issued to, for exactly one hour after issue. */
  lemma TokenLifetime(userId: nat, key: Jwt.Key, iat: nat, now: nat)
    ensures Jwt.Verify(GenerateAuthToken(userId, key, iat), key, now) ==
      if now < iat + ExpiresIn then Some(Jwt.Claims(userId, iat, iat + ExpiresIn)) else None
  {
    Jwt.VerifySigned(Jwt.Claims(userId, iat, iat + ExpiresIn), key, now);
  }

  /** `User.findOne({ where: { email } })`. */
  function Account(users: seq<User>, email: string): Option<User> {
    FindOne(users, UserWithEmail(email))
  }

  /**
   * POST /api/auth/signin. An absent email makes the lookup throw and an
   * absent password makes `bcrypt.compare` throw (500); an unknown email and a
   * wrong password both give `InvalidCredentials`; otherwise 200 with a token
   * for the matching user.
   */
  function Signin(users: seq<User>, body: Credentials, kdf: Bcrypt.Kdf, key: Jwt.Key, now: nat): (r: Response)
    ensures r.status == 200 || r == InvalidCredentials || r == Response(500, InternalError)
    ensures r.status == 200 <==>
      && body.email.Some? && body.password.Some?
      && Account(users, body.email.value).Some?
      && Bcrypt.Compare(kdf, body.password.value, Account(users, body.email.value).value.password)
    ensures r.status == 200 ==>
      r.body == Token(GenerateAuthToken(Account(users, body.email.value).value.id, key, now))
    ensures r.status == 500 <==>
      body.email.None? || (Account(users, body.email.value).Some? && body.password.None?)
  {
    if body.email.None? then Response(500, InternalError)
    else
      match Account(users, body.email.value)
      case None => InvalidCredentials
      case Some(user) =>
        if body.password.None? then Response(500, InternalError)
        else if !Bcrypt.Compare(kdf, body.password.value, user.password) then InvalidCredentials
        else Response(200, Token(GenerateAuthToken(user.id, key, now)))
  }

  /** An unknown email and a wrong password for a known one get the very same response. */
  lemma FailuresLookAlike(users: seq<User>, unknown: string, known: string, wrong: string,
                          kdf: Bcrypt.Kdf, key: Jwt.Key, now: nat)
    requires Account(users, unknown).None?
    requires Account(users, known).Some?
    requires !Bcrypt.Compare(kdf, wrong, Account(users, known).value.password)
    ensures Signin(users, Credentials(Some(unknown), Some(wrong)), kdf, key, now)
         == Signin(users, Credentials(Some(known), Some(wrong)), kdf, key, now)
         == InvalidCredentials
  {
  }

  /** The row sign-up inserts: the profile, the given hash as password, `admin` left null. */
  function NewAccount(id: nat, body: Registration, hash: string): User
    requires body.firstname.Some? && body.lastname.Some? && body.email.Some?
  {
    User(id, body.firstname.value, body.lastname.value, body.email.value, hash,
         body.address, body.zipcode, body.city, body.phone, None)
  }

  /**
   * POST /api/auth/signup. A taken email gives 400 and writes nothing; an
   * absent email, password, first or last name makes the lookup, the hash or
   * the insert throw (500) and writes nothing; otherwise one row is added,
   * holding the salted hash of the password, and the answer is 201.
   */
  method Signup(db: Db, body: Registration, salt: Bcrypt.Salt, kdf: Bcrypt.Kdf) returns (r: Response)
    requires db.Valid()
    modifies db`users, db`nextUserId
    ensures db.Valid()
    ensures r.status == 400 <==> body.email.Some? && Account(old(db.users), body.email.value).Some?
    ensures r.status == 400 ==> r.body == Failure("User already exists.")
    ensures r.status == 201 <==>
      && body.email.Some? && Account(old(db.users), body.email.value).None?
      && body.password.Some? && body.firstname.Some? && body.lastname.Some?
    ensures r.status == 201 ==>
      && r.body == Done("User successfully registered")
      && db.users == old(db.users) + [NewAccount(old(db.nextUserId), body, Bcrypt.Hash(kdf, body.password.value, salt))]
      && db.nextUserId == old(db.nextUserId) + 1
    ensures r.status != 201 ==> db.users == old(db.users) && db.nextUserId == old(db.nextUserId)
    ensures r.status in {201, 400, 500}
    ensures r.status == 500 ==> r.body == InternalError
  {
    if body.email.None? {
      return Response(500, InternalError);
    }
    var existing := Account(db.users, body.email.value);
    if existing.Some? {
      return Response(400, Failure("User already exists."));
    }
    if body.password.None? {
      return Response(500, InternalError);
    }
    var hashed := Bcrypt.Hash(kdf, body.password.value, salt);
    if body.firstname.None? || body.lastname.None? {
      return Response(500, InternalError);
    }
    var row := NewAccount(db.nextUserId, body, hashed);
    AppendFresh(db.users, UserKey, db.nextUserId, row);
    db.users := db.users + [row];
    db.nextUserId := db.nextUserId + 1;
    return Response(201, Done("User successfully registered"));
  }

  /** Signing in with the pair just registered succeeds, with a token for the new row. */
  lemma SignupThenSignin(users: seq<User>, id: nat, body: Registration, salt: Bcrypt.Salt,
                         kdf: Bcrypt.Kdf, key: Jwt.Key, now: nat)
    requires body.email.Some? && body.password.Some? && body.firstname.Some? && body.lastname.Some?
    requires Account(users, body.email.value).None?
    ensures Signin(users + [NewAccount(id, body, Bcrypt.Hash(kdf, body.password.value, salt))],
                   Credentials(body.email, body.password), kdf, key, now)
         == Response(200, Token(GenerateAuthToken(id, key, now)))
  {
    var row := NewAccount(id, body, Bcrypt.Hash(kdf, body.password.value, salt));
    FirstWhereAppend(users, UserWithEmail(body.email.value), row);
    assert Account(users + [row], body.email.value) == Some(row);
    Bcrypt.CompareHash(kdf, body.password.value, salt);
  }
}
