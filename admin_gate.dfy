/**
 * The admin gate placed in front of protected routes. It reads the
 * Authorization header as text: the header must start with "Bearer ", and the
 * token is its second space-separated field. The token must verify, name an
 * existing user, and that user's `admin` flag must be true; then the user id
 * is stored on the request and control passes on. The gate writes no table.
 */
module AdminGate {
  import opened Common
  import opened Text
  import opened Tables
  import opened Records
  import opened Store
  import Jwt
  import Bcrypt
  import AuthController

  const Scheme: string := "Bearer "

  const MissingToken := Response(401, Notice("Token non fourni"))
  const InvalidToken := Response(401, Notice("Token invalide"))
  const UnknownUser := Response(401, Notice("Utilisateur non trouvé"))
  const NotAdmin := Response(403, Notice("Accès interdit - Vous devez être administrateur"))

  /** What the gate does with a request: pass it on as the given user, or answer it. */
  datatype Outcome = Next(user: nat) | Reject(response: Response)

  /** `authHeader.split(" ")[1]` for a header that starts with "Bearer ": the text after the scheme, up to the next space. */
  function BearerToken(header: string): (token: string)
    requires StartsWith(header, Scheme)
    ensures |Split(header, ' ')| >= 2 && token == Split(header, ' ')[1]
    ensures token == Split(header[|Scheme|..], ' ')[0]
  {
    assert header == "Bearer" + [' '] + header[|Scheme|..];
    SplitJoined("Bearer", ' ', header[|Scheme|..]);
    Split(header, ' ')[1]
  }

  /** The token a request presents: none when the header is absent or not of the Bearer scheme. */
  function Presented(header: Option<string>): (t: Option<string>)
    ensures t.Some? <==> header.Some? && StartsWith(header.value, Scheme)
    ensures t.Some? ==> |Split(header.value, ' ')| >= 2 && t.value == Split(header.value, ' ')[1]
  {
    if header.Some? && StartsWith(header.value, Scheme) then Some(BearerToken(header.value)) else None
  }

  /** `isAdminMiddleware`: the decision the gate takes on the table, the header and the clock. */
  function Gate(users: seq<User>, header: Option<string>, key: Jwt.Key, now: nat): (o: Outcome)
    ensures o.Reject? ==> o.response in {MissingToken, InvalidToken, UnknownUser, NotAdmin}
    ensures o == Reject(MissingToken) <==> Presented(header).None?
    ensures o == Reject(InvalidToken) <==>
      Presented(header).Some? && Jwt.Verify(Presented(header).value, key, now).None?
    ensures o == Reject(UnknownUser) <==>
      && Presented(header).Some? && Jwt.Verify(Presented(header).value, key, now).Some?
      && FindOne(users, UserWithId(Jwt.Verify(Presented(header).value, key, now).value.userId)).None?
    ensures o == Reject(NotAdmin) <==>
      && Presented(header).Some? && Jwt.Verify(Presented(header).value, key, now).Some?
      && FindOne(users, UserWithId(Jwt.Verify(Presented(header).value, key, now).value.userId)).Some?
      && FindOne(users, UserWithId(Jwt.Verify(Presented(header).value, key, now).value.userId)).value.admin != Some(true)
    ensures o.Next? ==>
      && Presented(header).Some? && Jwt.Verify(Presented(header).value, key, now).Some?
      && Jwt.Verify(Presented(header).value, key, now).value.userId == o.user
      && FindOne(users, UserWithId(o.user)).Some?
      && FindOne(users, UserWithId(o.user)).value.admin == Some(true)
  {
    match Presented(header)
    case None => Reject(MissingToken)
    case Some(token) =>
      match Jwt.Verify(token, key, now)
      case None => Reject(InvalidToken)
      case Some(decoded) =>
        match FindOne(users, UserWithId(decoded.userId))
        case None => Reject(UnknownUser)
        case Some(user) =>
          if user.admin != Some(true) then Reject(NotAdmin) else Next(decoded.userId)
  }

  /** The request as the gate sees it: the Authorization header, and the `user` slot it fills. */
  class Request {
    const authorization: Option<string>
    var user: Option<nat>

    constructor (authorization: Option<string>)
      ensures this.authorization == authorization && user == None
    {
      this.authorization := authorization;
      user := None;
    }
  }

  /** The middleware: it takes the gate's decision and, exactly when it passes the request on, sets `req.user`. */
  method IsAdminMiddleware(req: Request, db: Db, key: Jwt.Key, now: nat) returns (o: Outcome)
    modifies req`user
    ensures o == Gate(db.users, req.authorization, key, now)
    ensures o.Next? ==> req.user == Some(o.user)
    ensures o.Reject? ==> req.user == old(req.user)
  {
    var header := req.authorization;
    if header.None? || !StartsWith(header.value, Scheme) {
      return Reject(MissingToken);
    }
    var token := BearerToken(header.value);
    var decoded := Jwt.Verify(token, key, now);
    if decoded.None? {
      return Reject(InvalidToken);
    }
    var user := FindOne(db.users, UserWithId(decoded.value.userId));
    if user.None? {
      return Reject(UnknownUser);
    }
    if user.value.admin != Some(true) {
      return Reject(NotAdmin);
    }
    req.user := Some(decoded.value.userId);
    return Next(decoded.value.userId);
  }

  /**
   * A token from a successful sign-in, presented as "Bearer <token>" within the
   * hour, lets an admin through as that user and turns anyone else away with
   * 403; from the hour on it is an invalid token.
   */
  lemma SigninTokenAtGate(users: seq<User>, body: AuthController.Credentials,
                          kdf: Bcrypt.Kdf, key: Jwt.Key, issued: nat, now: nat)
    requires DistinctKeys(users, UserKey)
    requires AuthController.Signin(users, body, kdf, key, issued).status == 200
    ensures var user := AuthController.Account(users, body.email.value).value;
      var header := Some(Scheme + AuthController.Signin(users, body, kdf, key, issued).body.token);
      Gate(users, header, key, now) ==
        if issued + AuthController.ExpiresIn <= now then Reject(InvalidToken)
        else if user.admin == Some(true) then Next(user.id)
        else Reject(NotAdmin)
  {
    var user := AuthController.Account(users, body.email.value).value;
    var token := AuthController.GenerateAuthToken(user.id, key, issued);
    var header := Scheme + token;
    assert header[|Scheme|..] == token;
    SplitAbsent(token, ' ');
    assert Presented(Some(header)) == Some(token);
    AuthController.TokenLifetime(user.id, key, issued, now);
    var j := FirstWhere(users, UserWithEmail(body.email.value));
    FirstIsOnly(users, UserKey, UserWithId(user.id), user.id, j);
  }
}
