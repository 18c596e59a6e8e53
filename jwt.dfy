/**
 * Token helpers of the backend: session tokens (`generateToken`,
 * `verifyToken`) and the password-reset ticket (`generateResetToken`).
 */
module Jwt {
  import opened Wrappers
  import opened Hex
  import opened Foreign

  /** Ten minutes, in milliseconds: how long a reset ticket stays usable. */
  const ResetWindowMs: int := 10 * 60 * 1000

  /** Number of random bytes behind a raw reset token. */
  const ResetTokenBytes: nat := 20

  /** Signs `claims` with the configured secret and lifetime, issued at `now`. */
  function GenerateToken(lib: Library, claims: Claims, now: int): (token: string)
    ensures JwtSound(lib) ==> token != "" && ' ' !in token
  {
    lib.jwtSign(claims, lib.jwtSecret, now)
  }

  /** Checks a bearer token against the configured secret at `now`; None where the library throws. */
  function VerifyToken(lib: Library, token: string, now: int): (claims: Option<Claims>)
    ensures JwtSound(lib) && claims.Some? ==>
      exists iat :: now < iat + lib.jwtTtl && token == lib.jwtSign(claims.value, lib.jwtSecret, iat)
  {
    lib.jwtVerify(token, lib.jwtSecret, now)
  }

  /** A session token verifies to its own claims until it expires, and not afterwards. */
  lemma VerifyGeneratedToken(lib: Library, claims: Claims, iat: int, now: int)
    requires Sound(lib)
    ensures VerifyToken(lib, GenerateToken(lib, claims, iat), now)
         == if now < iat + lib.jwtTtl then Some(claims) else None
  {
  }

  /** A string the signer never produced under the configured secret does not verify. */
  lemma ForgedTokenRejected(lib: Library, token: string, now: int)
    requires Sound(lib)
    requires forall c, iat :: token != GenerateToken(lib, c, iat)
    ensures VerifyToken(lib, token, now) == None
  {
    var v := VerifyToken(lib, token, now);
    if v.Some? {
      var iat :| now < iat + lib.jwtTtl && token == lib.jwtSign(v.value, lib.jwtSecret, iat);
      var signed := GenerateToken(lib, v.value, iat);
      assert false;
    }
  }

  /** The digest stored for a raw reset token; reset-password recomputes the same one. */
  function HashForLookup(lib: Library, raw: string): (digest: string)
    ensures Sha256Sound(lib) ==> |digest| == 64 && IsHexString(digest)
  {
    lib.sha256Hex(raw)
  }

  /** What generateResetToken returns: the raw token to email, its stored hash and its expiry. */
  datatype ResetTicket = ResetTicket(raw: string, hashed: string, expire: int)

  /** generateResetToken, with its 20 random bytes and the current time passed in. */
  function GenerateResetToken(lib: Library, random: seq<Byte>, now: int): (t: ResetTicket)
    requires |random| == ResetTokenBytes
    ensures |t.raw| == 40 && IsHexString(t.raw)
    ensures Decode(t.raw) == Some(random)
    ensures t.hashed == HashForLookup(lib, t.raw)
    ensures t.expire - now == 600000
  {
    DecodeEncode(random);
    var raw := Encode(random);
    ResetTicket(raw, HashForLookup(lib, raw), now + ResetWindowMs)
  }

  /** What is stored is a SHA-256 digest, never the raw token. */
  lemma StoredHashIsDigest(lib: Library, random: seq<Byte>, now: int)
    requires Sound(lib) && |random| == ResetTokenBytes
    ensures var t := GenerateResetToken(lib, random, now);
      |t.hashed| == 64 && IsHexString(t.hashed) && t.hashed != t.raw
  {
  }
}
