/**
 * The bearer tokens the service signs and checks. A token carries the user id
 * and its issue and expiry times, and ends with a signature over them, keyed
 * by the server's secret. Fields are dot-separated decimal numbers; the keyed
 * hash that computes the signature is a parameter of the key.
 */
module Jwt {
  import opened Common
  import opened Text

  /** The claims of a token: the user id, and issue and expiry times in seconds since the epoch. */
  datatype Claims = Claims(userId: nat, iat: nat, exp: nat)

  /** `JWT_SECRET` and the keyed hash that signs with it. */
  datatype Key = Key(secret: string, mac: (string, string) -> nat)

  /** A number written the one way a JSON encoder writes it: no leading zero. */
  predicate Canonical(s: string) {
    IsDecimal(s) && (s[0] == '0' ==> |s| == 1)
  }

  function Payload(c: Claims): string {
    Join([Dec(c.userId), Dec(c.iat), Dec(c.exp)], '.')
  }

  /** `jwt.sign(claims, secret)`: the payload fields followed by the signature over them. */
  function Sign(c: Claims, key: Key): (token: string)
    ensures ' ' !in token
  {
    var fields := [Dec(c.userId), Dec(c.iat), Dec(c.exp), Dec(key.mac(key.secret, Payload(c)))];
    NoSpaceInJoin(fields);
    Join(fields, '.')
  }

  /**
   * `jwt.verify(token, secret)` at time `now`: the claims, when the token is
   * well formed, its signature is the one the key gives its payload, and it has
   * not expired (it expires at the instant `now` reaches `exp`); otherwise the
   * verification throws, modelled as `None`.
   */
  function Verify(token: string, key: Key, now: nat): (r: Option<Claims>)
    ensures r.Some? ==> token == Sign(r.value, key) && now < r.value.exp
  {
    var f := Split(token, '.');
    if |f| == 4 && Canonical(f[0]) && Canonical(f[1]) && Canonical(f[2])
       && f[3] == Dec(key.mac(key.secret, Join(f[..3], '.')))
    then
      var c := Claims(ParseDec(f[0]), ParseDec(f[1]), ParseDec(f[2]));
      if now < c.exp then
        DecOfParseDec(f[0]);
        DecOfParseDec(f[1]);
        DecOfParseDec(f[2]);
        assert Payload(c) == Join(f[..3], '.') by {
          assert [Dec(c.userId), Dec(c.iat), Dec(c.exp)] == f[..3];
        }
        assert [Dec(c.userId), Dec(c.iat), Dec(c.exp), f[3]] == f;
        Some(c)
      else None
    else None
  }

  /** A signed token verifies, with its own claims, exactly until its expiry. */
  lemma VerifySigned(c: Claims, key: Key, now: nat)
    ensures Verify(Sign(c, key), key, now) == if now < c.exp then Some(c) else None
  {
    var fields := [Dec(c.userId), Dec(c.iat), Dec(c.exp), Dec(key.mac(key.secret, Payload(c)))];
    NoSeparatorInDecimals(fields);
    SplitOfJoin(fields, '.');
    assert fields[..3] == [Dec(c.userId), Dec(c.iat), Dec(c.exp)];
    ParseDecOfDec(c.userId);
    ParseDecOfDec(c.iat);
    ParseDecOfDec(c.exp);
    CanonicalDec(c.userId);
    CanonicalDec(c.iat);
    CanonicalDec(c.exp);
  }

  lemma CanonicalDec(n: nat)
    ensures Canonical(Dec(n))
  {
    if n >= 10 {
      CanonicalDec(n / 10);
      var s := Dec(n);
      assert s[0] == Dec(n / 10)[0];
      assert Dec(n / 10)[0] != '0' by { DecNoLeadingZero(n / 10); }
    }
  }

  lemma {:induction false} DecNoLeadingZero(n: nat)
    requires n > 0
    ensures Dec(n)[0] != '0'
  {
    if n >= 10 {
      DecNoLeadingZero(n / 10);
    }
  }

  lemma NoSeparatorInDecimals(fields: seq<string>)
    requires forall k :: 0 <= k < |fields| ==> IsDecimal(fields[k])
    ensures forall k :: 0 <= k < |fields| ==> '.' !in fields[k] && ' ' !in fields[k]
  {
    forall k, i | 0 <= k < |fields| && 0 <= i < |fields[k]|
      ensures fields[k][i] != '.' && fields[k][i] != ' '
    {
      assert IsDigit(fields[k][i]);
    }
  }

  lemma {:induction false} NoSpaceInJoin(fields: seq<string>)
    requires |fields| >= 1
    requires forall k :: 0 <= k < |fields| ==> IsDecimal(fields[k])
    ensures ' ' !in Join(fields, '.')
  {
    NoSeparatorInDecimals(fields);
    if |fields| > 1 {
      NoSpaceInJoin(fields[1..]);
    }
  }
}
