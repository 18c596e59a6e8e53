/**
 * The libraries the authentication core calls but does not implement:
 * bcrypt (password hashing), SHA-256 with hex digest, and JSON Web Token
 * sign/verify. Each is a function value inside `Library`, supplied once at
 * start-up together with the process-wide signing secret and token lifetime;
 * `Sound` states what the core relies on them to do.
 */
module Foreign {
  import opened Wrappers
  import Hex

  /** The identity claims a session token carries: `{ id, email, role }`. */
  datatype Claims = Claims(id: int, email: string, role: string)

  /** bcrypt's salt: random bytes the library draws for every hash. */
  type Salt = seq<Hex.Byte>

  datatype Library = Library(
    // bcrypt hashing of a password at a cost factor, with the salt it draws made explicit
    bcryptHash: (string, nat, Salt) -> string,
    // bcrypt's check of a password against a stored hash
    bcryptCompare: (string, string) -> bool,
    // SHA-256 digest of a text, written as lower-case hex
    sha256Hex: string -> string,
    // the signing secret the process is configured with
    jwtSecret: string,
    // the configured session lifetime, in milliseconds
    jwtTtl: int,
    // signing a claims payload under a key, issued at time `iat`
    jwtSign: (Claims, string, int) -> string,
    // checking a token under a key at time `now`; None where the library throws
    jwtVerify: (string, string, int) -> Option<Claims>)

  /** bcrypt reads at most this many bytes of a password; the rest is ignored. */
  const BcryptMaxBytes: nat := 72

  /** Length in bytes of the UTF-8 encoding of `s`, the form bcrypt hashes. */
  function Utf8Length(s: string): (n: nat)
    ensures |s| <= n <= 4 * |s|
  {
    if s == [] then 0
    else
      var c := s[0] as int;
      var width := if c < 0x80 then 1 else if c < 0x800 then 2 else if c < 0x10000 then 3 else 4;
      width + Utf8Length(s[1..])
  }

  /**
   * A stored bcrypt hash accepts the password it was made from, and it is
   * never the plaintext. Among NUL-free passwords whose UTF-8 form fits in
   * `BcryptMaxBytes` it accepts no other; this idealises collision
   * resistance. Outside that range bcrypt does confuse passwords. Longer
   * passwords are cut at 72 bytes. A NUL terminator is appended and the key
   * bytes repeat cyclically, so "ab" and "ab" NUL "ab" hash alike.
   */
  ghost predicate BcryptSound(lib: Library) {
    && (forall p, rounds, salt :: lib.bcryptCompare(p, lib.bcryptHash(p, rounds, salt)))
    && (forall p, rounds, salt :: lib.bcryptHash(p, rounds, salt) != p)
    && (forall p, q, rounds, salt ::
          (Utf8Length(p) <= BcryptMaxBytes && Utf8Length(q) <= BcryptMaxBytes
           && '\0' !in p && '\0' !in q
           && lib.bcryptCompare(p, lib.bcryptHash(q, rounds, salt))) ==> p == q)
  }

  /** A SHA-256 hex digest is 64 lower-case hex digits (being a function, it is deterministic). */
  ghost predicate Sha256Sound(lib: Library) {
    forall text :: |lib.sha256Hex(text)| == 64 && Hex.IsHexString(lib.sha256Hex(text))
  }

  /**
   * A token verifies under the key it was signed with, to the claims it was
   * signed with, exactly while it is unexpired. A signed token is compact
   * text (base64url parts joined by dots): never empty and never containing
   * a space. The last clause is an assumption about the deployment rather
   * than the library: nothing but the server's own signer ever signs with
   * the configured secret, so any token that verifies under that secret is
   * one the signer issued, still unexpired. This stands in for
   * unforgeability of the secret.
   */
  ghost predicate JwtSound(lib: Library) {
    && lib.jwtTtl > 0
    && (forall c, key, iat :: lib.jwtSign(c, key, iat) != "" && ' ' !in lib.jwtSign(c, key, iat))
    && (forall c, key, iat, now :: now < iat + lib.jwtTtl ==>
          lib.jwtVerify(lib.jwtSign(c, key, iat), key, now) == Some(c))
    && (forall c, key, iat, now :: iat + lib.jwtTtl <= now ==>
          lib.jwtVerify(lib.jwtSign(c, key, iat), key, now) == None)
    && (forall token, now :: lib.jwtVerify(token, lib.jwtSecret, now).Some? ==>
          exists iat :: now < iat + lib.jwtTtl &&
            token == lib.jwtSign(lib.jwtVerify(token, lib.jwtSecret, now).value, lib.jwtSecret, iat))
  }

  ghost predicate Sound(lib: Library) {
    BcryptSound(lib) && Sha256Sound(lib) && JwtSound(lib)
  }
}
