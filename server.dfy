/**
 * The authentication controller: register, login, forgot-password,
 * reset-password and get-me, run one at a time against the `users` table.
 * `AuthServer` holds the table, the next SERIAL id, the log of emails the
 * handlers hand to the mail transport, and the foreign libraries.
 */
module Server {
  import opened Wrappers
  import opened Hex
  import opened Foreign
  import opened Jwt
  import opened Accounts

  /** bcrypt cost factor used for every password hash. */
  const SaltRounds: nat := 12

  const MsgUserExists := "User already exists with this email"
  const MsgRegistered := "User registered successfully"
  const MsgInvalidCredentials := "Invalid credentials"
  const MsgLoginOk := "Login successful"
  const MsgNoUser := "No user found with this email address"
  const MsgResetMailFailed := "Error sending password reset email"
  const MsgResetMailSent := "Password reset email sent"
  const MsgInvalidReset := "Invalid or expired password reset token"
  const MsgResetOk := "Password reset successful"

  /** An HTTP status with the JSON body `{ success, message?, data: { user?, token? } }`. */
  datatype Reply = Reply(status: nat, success: bool, message: Option<string>,
                         user: Option<UserSummary>, token: Option<string>)

  function Failure(status: nat, message: string): Reply {
    Reply(status, false, Some(message), None, None)
  }

  function Acknowledge(message: string): Reply {
    Reply(200, true, Some(message), None, None)
  }

  /** The claims a session token carries for an account. */
  function ClaimsOf(a: Account): Claims {
    Claims(a.id, a.email, a.role)
  }

  /** A successful register or login: the account summary and a fresh session token for it. */
  function SessionReply(lib: Library, status: nat, message: string, a: Account, now: int): Reply {
    Reply(status, true, Some(message), Some(Summary(a)), Some(GenerateToken(lib, ClaimsOf(a), now)))
  }

  /** getMe: answers with the user the `protect` middleware attached, unchanged. */
  function GetMe(user: UserSummary): (r: Reply)
    ensures r.status == 200 && r.success && r.user == Some(user)
    ensures r.message.None? && r.token.None?
  {
    Reply(200, true, None, Some(user), None)
  }

  /** The fields of the register request body. */
  datatype RegisterRequest = RegisterRequest(
    name: string, email: string, password: string, role: string,
    phone: Option<string>, specialization: Option<string>)

  datatype MailBody = Welcome(name: string) | ResetLink(token: string)

  /** One email handed to the transport, and whether the transport reported delivery. */
  datatype Mail = Mail(to: string, body: MailBody, delivered: bool)

  class AuthServer {
    const lib: Library
    var users: Table
    var nextId: int
    var mailLog: seq<Mail>

    ghost predicate Valid()
      reads this
    {
      TableInvariant(users, nextId) && Sound(lib)
    }

    constructor (lib: Library)
      requires Sound(lib)
      ensures Valid() && this.lib == lib
      ensures users == map[] && nextId == 1 && mailLog == []
    {
      this.lib := lib;
      users := map[];
      nextId := 1;
      mailLog := [];
    }

    /**
     * register: refuse an email any row already has (active or not);
     * otherwise insert the account with a bcrypt hash of the password,
     * attempt the welcome email, and answer 201 whatever the email did.
     */
    method Register(req: RegisterRequest, salt: Salt, now: int, welcomeDelivered: bool) returns (r: Reply)
      requires Valid()
      modifies this
      ensures Valid()
      ensures old(WithEmail(users, req.email)) != {} ==>
        && r == Failure(400, MsgUserExists)
        && users == old(users) && nextId == old(nextId) && mailLog == old(mailLog)
      ensures old(WithEmail(users, req.email)) == {} ==>
        var a := NewAccount(old(nextId), req.name, req.email, lib.bcryptHash(req.password, SaltRounds, salt),
                            req.role, req.phone, req.specialization, now);
        && users == old(users)[old(nextId) := a]
        && nextId == old(nextId) + 1
        && r == SessionReply(lib, 201, MsgRegistered, a, now)
        && mailLog == old(mailLog) + [Mail(req.email, Welcome(req.name), welcomeDelivered)]
      ensures old(WithEmail(users, req.email)) == {} ==>
        var stored := users[old(nextId)].password;
        lib.bcryptCompare(req.password, stored) && stored != req.password
    {
      if WithEmail(users, req.email) != {} {
        r := Failure(400, MsgUserExists);
        return;
      }
      var hashed := lib.bcryptHash(req.password, SaltRounds, salt);
      var a := NewAccount(nextId, req.name, req.email, hashed, req.role, req.phone, req.specialization, now);
      InsertKeepsInvariant(users, nextId, a);
      users := users[nextId := a];
      nextId := nextId + 1;
      var token := GenerateToken(lib, ClaimsOf(a), now);
      mailLog := mailLog + [Mail(req.email, Welcome(req.name), welcomeDelivered)];
      r := Reply(201, true, Some(MsgRegistered), Some(Summary(a)), Some(token));
    }

    /**
     * login: find the active row with the email and check the password;
     * an unknown or inactive email and a wrong password get the same 401.
     */
    method Login(email: string, password: string, now: int) returns (r: Reply)
      requires Valid()
      ensures ActiveWithEmail(users, email) == {} ==> r == Failure(401, MsgInvalidCredentials)
      ensures forall id :: id in ActiveWithEmail(users, email) ==>
        r == if lib.bcryptCompare(password, users[id].password)
             then SessionReply(lib, 200, MsgLoginOk, users[id], now)
             else Failure(401, MsgInvalidCredentials)
    {
      var found := ActiveWithEmail(users, email);
      if !exists k :: k in found {
        r := Failure(401, MsgInvalidCredentials);
        return;
      }
      var id :| id in found;
      forall other | other in found ensures other == id {
        EmailLookupUnique(users, email, id, other);
      }
      var user := users[id];
      if !lib.bcryptCompare(password, user.password) {
        r := Failure(401, MsgInvalidCredentials);
        return;
      }
      r := SessionReply(lib, 200, MsgLoginOk, user, now);
    }

    /**
     * forgotPassword: for the active row with the email, store the hash and
     * expiry of a fresh reset token (replacing any earlier one), then email
     * the raw token. A failed email answers 500 but the stored fields stay.
     */
    method ForgotPassword(email: string, random: seq<Byte>, now: int, delivered: bool) returns (r: Reply)
      requires Valid() && |random| == ResetTokenBytes
      modifies this
      ensures Valid() && nextId == old(nextId)
      ensures old(ActiveWithEmail(users, email)) == {} ==>
        r == Failure(404, MsgNoUser) && users == old(users) && mailLog == old(mailLog)
      ensures forall id :: id in old(ActiveWithEmail(users, email)) ==>
        var t := GenerateResetToken(lib, random, now);
        && users == SetResetFields(old(users), id, t.hashed, t.expire)
        && mailLog == old(mailLog) + [Mail(email, ResetLink(t.raw), delivered)]
        && r == if delivered then Acknowledge(MsgResetMailSent) else Failure(500, MsgResetMailFailed)
    {
      var found := ActiveWithEmail(users, email);
      if !exists k :: k in found {
        r := Failure(404, MsgNoUser);
        return;
      }
      var id :| id in found;
      forall other | other in found ensures other == id {
        EmailLookupUnique(users, email, id, other);
      }
      var t := GenerateResetToken(lib, random, now);
      SetResetKeepsInvariant(users, nextId, id, t.hashed, t.expire);
      users := SetResetFields(users, id, t.hashed, t.expire);
      mailLog := mailLog + [Mail(email, ResetLink(t.raw), delivered)];
      if !delivered {
        r := Failure(500, MsgResetMailFailed);
        return;
      }
      r := Acknowledge(MsgResetMailSent);
    }

    /**
     * resetPassword: hash the supplied token and look for an active row
     * holding that hash with an expiry strictly after `now`; replace its
     * password and clear both reset fields. Every miss is the same 400.
     */
    method ResetPassword(token: string, password: string, salt: Salt, now: int) returns (r: Reply)
      requires Valid()
      modifies this
      ensures Valid() && nextId == old(nextId) && mailLog == old(mailLog)
      ensures old(ResetMatches(users, HashForLookup(lib, token), now)) == {} ==>
        r == Failure(400, MsgInvalidReset) && users == old(users)
      ensures old(ResetMatches(users, HashForLookup(lib, token), now)) != {} ==>
        && r == Acknowledge(MsgResetOk)
        && exists id :: id in old(ResetMatches(users, HashForLookup(lib, token), now))
             && users == ConsumeReset(old(users), id, lib.bcryptHash(password, SaltRounds, salt))
    {
      var hashed := HashForLookup(lib, token);
      var found := ResetMatches(users, hashed, now);
      if !exists k :: k in found {
        r := Failure(400, MsgInvalidReset);
        return;
      }
      var id :| id in found;
      var newHash := lib.bcryptHash(password, SaltRounds, salt);
      ConsumeResetKeepsInvariant(users, nextId, id, newHash);
      users := ConsumeReset(users, id, newHash);
      r := Acknowledge(MsgResetOk);
    }
  }
}
