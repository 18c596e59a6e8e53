/**
 * The `protect` middleware in front of get-me: take the bearer token from
 * the Authorization header, verify it, and attach the active account whose
 * id the token names.
 */
module Middleware {
  import opened Wrappers
  import opened Foreign
  import opened Jwt
  import opened Bearer
  import opened Accounts
  import opened Server

  const MsgNotAuthorized := "Not authorized to access this route"
  const MsgUserNotFound := "User not found"

  /** Either the request goes on with `req.user` set, or it is answered here. */
  datatype Gate = Admit(user: UserSummary) | Reject(reply: Reply)

  /**
   * protect. A missing or malformed header and a token that fails
   * verification get the same 401; a verified token whose id has no active
   * row gets a 401 with its own message. The attached user is the table's
   * row, not the token's claims. Nothing is written.
   */
  method Protect(server: AuthServer, authorization: Option<string>, now: int) returns (g: Gate)
    requires server.Valid()
    ensures ExtractToken(authorization).None? ==> g == Reject(Failure(401, MsgNotAuthorized))
    ensures ExtractToken(authorization).Some?
         && VerifyToken(server.lib, ExtractToken(authorization).value, now).None?
        ==> g == Reject(Failure(401, MsgNotAuthorized))
    ensures forall claims ::
      (ExtractToken(authorization).Some?
       && VerifyToken(server.lib, ExtractToken(authorization).value, now) == Some(claims))
      ==> g == if ActiveWithId(server.users, claims.id)
                 then Admit(Summary(server.users[claims.id]))
                 else Reject(Failure(401, MsgUserNotFound))
    ensures g.Admit? ==>
      && ActiveWithId(server.users, g.user.id)
      && g.user == Summary(server.users[g.user.id])
      && exists claims: Claims, iat: int :: claims.id == g.user.id && now < iat + server.lib.jwtTtl
           && ExtractToken(authorization) == Some(GenerateToken(server.lib, claims, iat))
  {
    var token := ExtractToken(authorization);
    if token.None? {
      g := Reject(Failure(401, MsgNotAuthorized));
      return;
    }
    var decoded := VerifyToken(server.lib, token.value, now);
    if decoded.None? {
      g := Reject(Failure(401, MsgNotAuthorized));
      return;
    }
    var id := decoded.value.id;
    if !ActiveWithId(server.users, id) {
      g := Reject(Failure(401, MsgUserNotFound));
      return;
    }
    g := Admit(Summary(server.users[id]));
    ghost var iat :| now < iat + server.lib.jwtTtl
      && token.value == server.lib.jwtSign(decoded.value, server.lib.jwtSecret, iat);
    assert token == Some(GenerateToken(server.lib, decoded.value, iat));
  }
}
