/**
 * Password hashing as bcrypt does it. A stored hash is the 29-character salt
 * ("$2b$10$" followed by 22 characters of bcrypt's base-64 alphabet) followed
 * by a checksum; comparing a password re-hashes it with the salt read back
 * from the stored text. The key derivation that computes the checksum is a
 * parameter: nothing here depends on which function it is.
 */
module Bcrypt {
  import opened Text

  /** The version and cost `genSalt(10)` writes ahead of the salt characters. */
  const Prefix: string := "$2b$10$"

  /** Length of the salt text: the seven-character prefix and 22 salt characters. */
  const SaltLength: nat := 29

  /** The checksum bcrypt derives from a salt and a password. */
  type Kdf = (string, string) -> string

  predicate IsSaltChar(c: char) {
    c == '.' || c == '/' || 'A' <= c <= 'Z' || 'a' <= c <= 'z' || '0' <= c <= '9'
  }

  /** "$2", a minor version, "$", two cost digits, "$", then 22 salt characters. */
  predicate IsSalt(s: string) {
    && |s| == SaltLength
    && s[0] == '$' && s[1] == '2' && s[2] in "abxy" && s[3] == '$'
    && IsDigit(s[4]) && IsDigit(s[5]) && s[6] == '$'
    && forall i :: 7 <= i < SaltLength ==> IsSaltChar(s[i])
  }

  /** A salt as `genSalt(10)` returns it. */
  type Salt = s: string | IsSalt(s) && StartsWith(s, Prefix)
    witness "$2b$10$......................"

  /** Whether `h` has the shape of a bcrypt hash: it starts with a salt. */
  predicate LooksHashed(h: string) {
    |h| >= SaltLength && IsSalt(h[..SaltLength])
  }

  /** `bcrypt.hash(password, salt)`: the salt followed by the derived checksum. */
  function Hash(kdf: Kdf, password: string, salt: string): (h: string)
    requires IsSalt(salt)
    ensures LooksHashed(h) && h[..SaltLength] == salt
  {
    salt + kdf(salt, password)
  }

  /** `bcrypt.compare(password, h)`: re-hash `password` with the salt stored in `h`; text that is not a hash never matches. */
  function Compare(kdf: Kdf, password: string, h: string): (matches: bool)
    ensures matches <==> exists salt :: IsSalt(salt) && h == Hash(kdf, password, salt)
  {
    LooksHashed(h) && h == Hash(kdf, password, h[..SaltLength])
  }

  /** A password matches its own hash, whatever the salt. */
  lemma CompareHash(kdf: Kdf, password: string, salt: string)
    requires IsSalt(salt)
    ensures Compare(kdf, password, Hash(kdf, password, salt))
  {
  }

  /** A password kept as plain text matches nothing, itself included, unless it has a hash's shape. */
  lemma PlaintextNeverMatches(kdf: Kdf, password: string, stored: string)
    requires !LooksHashed(stored)
    ensures !Compare(kdf, password, stored)
  {
  }
}
