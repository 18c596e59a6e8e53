/**
 * The account lifecycle end to end, driven through the handlers' contracts
 * alone: register, log in, use the session, ask for a reset, reset with the
 * emailed token, then check that only the new password works and that the
 * reset token cannot be used twice.
 */
module Scenario {
  import opened Wrappers
  import opened Hex
  import opened Foreign
  import opened Jwt
  import opened Bearer
  import opened Accounts
  import opened Server
  import opened Middleware

  const Alice := RegisterRequest("Alice", "alice@x.com", "Str0ng!Pass", "client", None, None)
  const AliceSummary := UserSummary(1, "Alice", "alice@x.com", "client")

  function AliceRow(lib: Library, salt: Salt, t0: int): Account {
    NewAccount(1, Alice.name, Alice.email, lib.bcryptHash(Alice.password, SaltRounds, salt),
               Alice.role, None, None, t0)
  }

  /** Both passwords are short and NUL-free, so the new hash refuses the old password. */
  lemma OldPasswordRejected(lib: Library, newSalt: Salt)
    requires BcryptSound(lib)
    ensures !lib.bcryptCompare(Alice.password, lib.bcryptHash(NewPassword, SaltRounds, newSalt))
  {
    PasswordsFitBcrypt();
    assert Alice.password != NewPassword by {
      assert |Alice.password| != |NewPassword|;
    }
    DistinctPasswordsRejected(lib, Alice.password, NewPassword, SaltRounds, newSalt);
  }

  /** Both scenario passwords are short printable ASCII. */
  lemma PasswordsFitBcrypt()
    ensures Utf8Length(Alice.password) <= BcryptMaxBytes && '\0' !in Alice.password
    ensures Utf8Length(NewPassword) <= BcryptMaxBytes && '\0' !in NewPassword
  {
    assert Alice.password == "Str0ng!Pass";
    LiteralFitsBcrypt("Str0ng!Pass");
    LiteralFitsBcrypt(NewPassword);
  }

  /** Each literal separately, so the solver unfolds one string at a time. */
  lemma LiteralFitsBcrypt(s: string)
    requires s == "Str0ng!Pass" || s == "NewPass1!"
    ensures Utf8Length(s) <= BcryptMaxBytes && '\0' !in s
  {
    if s == "Str0ng!Pass" {
      FitsBcrypt("Str0ng!Pass");
    } else {
      FitsBcrypt("NewPass1!");
    }
  }

  /** Two different short, NUL-free passwords are told apart by bcrypt. */
  lemma DistinctPasswordsRejected(lib: Library, p: string, q: string, rounds: nat, salt: Salt)
    requires BcryptSound(lib) && p != q
    requires Utf8Length(p) <= BcryptMaxBytes && '\0' !in p
    requires Utf8Length(q) <= BcryptMaxBytes && '\0' !in q
    ensures !lib.bcryptCompare(p, lib.bcryptHash(q, rounds, salt))
  {
  }

  /** A short password of printable ASCII lies where bcrypt tells passwords apart. */
  lemma FitsBcrypt(s: string)
    requires |s| <= BcryptMaxBytes / 4
    requires forall i :: 0 <= i < |s| ==> ' ' <= s[i] <= '~'
    ensures Utf8Length(s) <= BcryptMaxBytes && '\0' !in s
  {
  }

  /** Register Alice on an empty server, log her in, and use the session on get-me behind protect. */
  method SignUp(lib: Library, salt: Salt, t0: int)
    returns (server: AuthServer, registered: Reply, loggedIn: Reply, me: Gate, profile: Reply)
    requires Sound(lib)
    ensures fresh(server) && server.Valid() && server.lib == lib
    ensures server.users == map[1 := AliceRow(lib, salt, t0)]
    ensures registered.status == 201 && registered.success && registered.user == Some(AliceSummary)
    ensures loggedIn.status == 200 && loggedIn.token.Some?
    ensures VerifyToken(lib, loggedIn.token.value, t0 + 1) == Some(Claims(1, "alice@x.com", "client"))
    ensures me == Admit(AliceSummary)
    ensures profile.status == 200 && profile.success && profile.user == Some(AliceSummary)
  {
    server := new AuthServer(lib);
    registered := server.Register(Alice, salt, t0, true);
    assert server.users.Keys == {1};

    loggedIn := server.Login(Alice.email, Alice.password, t0 + 1);
    assert 1 in ActiveWithEmail(server.users, Alice.email);

    var session := loggedIn.token.value;
    ExtractTokenOfBearerHeader(session);
    me := Protect(server, Some(Scheme + " " + session), t0 + 1);
    profile := GetMe(me.user);
  }

  const NewPassword := "NewPass1!"

  /** The ticket forgot-password issues for Alice at `t0 + 2`. */
  function AliceTicket(lib: Library, random: seq<Byte>, t0: int): ResetTicket
    requires |random| == ResetTokenBytes
  {
    GenerateResetToken(lib, random, t0 + 2)
  }

  /** The table once Alice has reset her password to `NewPassword` with that ticket. */
  function AfterResetTable(lib: Library, salt: Salt, newSalt: Salt, random: seq<Byte>, t0: int): Table
    requires |random| == ResetTokenBytes
  {
    var ticket := AliceTicket(lib, random, t0);
    ConsumeReset(SetResetFields(map[1 := AliceRow(lib, salt, t0)], 1, ticket.hashed, ticket.expire),
                 1, lib.bcryptHash(NewPassword, SaltRounds, newSalt))
  }

  /** Alice forgets her password and resets it with the emailed token. */
  method Recover(server: AuthServer, salt: Salt, newSalt: Salt, random: seq<Byte>, t0: int)
    returns (requested: Reply, reset: Reply, raw: string)
    requires server.Valid() && |random| == ResetTokenBytes
    requires server.users == map[1 := AliceRow(server.lib, salt, t0)]
    modifies server
    ensures server.Valid()
    ensures server.users == AfterResetTable(server.lib, salt, newSalt, random, t0)
    ensures raw == AliceTicket(server.lib, random, t0).raw
    ensures requested == Acknowledge(MsgResetMailSent)
    ensures reset == Acknowledge(MsgResetOk)
  {
    var lib := server.lib;
    var row := server.users[1];
    assert 1 in ActiveWithEmail(server.users, Alice.email);
    requested := server.ForgotPassword(Alice.email, random, t0 + 2, true);
    var ticket := AliceTicket(lib, random, t0);
    raw := server.mailLog[|server.mailLog| - 1].body.token;
    assert raw == ticket.raw;
    var pending := server.users;
    assert pending == SetResetFields(map[1 := row], 1, ticket.hashed, ticket.expire);
    assert pending.Keys == {1};
    assert ResetMatches(pending, HashForLookup(lib, raw), t0 + 3) == {1} by {
      IssuedTokenMatches(map[1 := row], 1, ticket.hashed, ticket.expire, t0 + 3);
    }
    reset := server.ResetPassword(raw, NewPassword, newSalt, t0 + 3);
  }

  /** After the reset only the new password logs in, and the spent token is refused. */
  method AfterReset(server: AuthServer, salt: Salt, newSalt: Salt, random: seq<Byte>, t0: int)
    returns (oldLogin: Reply, newLogin: Reply, replay: Reply)
    requires server.Valid() && |random| == ResetTokenBytes
    requires server.users == AfterResetTable(server.lib, salt, newSalt, random, t0)
    modifies server
    ensures oldLogin == Failure(401, MsgInvalidCredentials)
    ensures newLogin.status == 200 && newLogin.success
    ensures replay == Failure(400, MsgInvalidReset)
  {
    var lib := server.lib;
    var newHash := lib.bcryptHash(NewPassword, SaltRounds, newSalt);
    assert server.users.Keys == {1} && server.users[1].password == newHash;
    assert 1 in ActiveWithEmail(server.users, Alice.email);

    oldLogin := server.Login(Alice.email, Alice.password, t0 + 4);
    OldPasswordRejected(lib, newSalt);
    newLogin := server.Login(Alice.email, NewPassword, t0 + 5);

    var raw := AliceTicket(lib, random, t0).raw;
    assert ResetMatches(server.users, HashForLookup(lib, raw), t0 + 6) == {} by {
      assert server.users[1].resetToken.None?;
    }
    replay := server.ResetPassword(raw, "Other1!", newSalt, t0 + 6);
  }

  /**
   * Register, log in, use the session, request a reset, reset with the
   * emailed token; afterwards only the new password logs in and the token
   * is refused a second time.
   */
  method Lifecycle(lib: Library, salt: Salt, newSalt: Salt, random: seq<Byte>, t0: int)
    returns (registered: Reply, loggedIn: Reply, me: Gate, profile: Reply, requested: Reply,
             reset: Reply, oldLogin: Reply, newLogin: Reply, replay: Reply)
    requires Sound(lib) && |random| == ResetTokenBytes
    ensures registered.status == 201 && registered.success && registered.user == Some(AliceSummary)
    ensures loggedIn.status == 200 && loggedIn.token.Some?
    ensures VerifyToken(lib, loggedIn.token.value, t0 + 1) == Some(Claims(1, "alice@x.com", "client"))
    ensures me == Admit(AliceSummary)
    ensures profile.status == 200 && profile.success && profile.user == Some(AliceSummary)
    ensures requested == Acknowledge(MsgResetMailSent)
    ensures reset == Acknowledge(MsgResetOk)
    ensures oldLogin == Failure(401, MsgInvalidCredentials)
    ensures newLogin.status == 200 && newLogin.success
    ensures replay == Failure(400, MsgInvalidReset)
  {
    var server;
    server, registered, loggedIn, me, profile := SignUp(lib, salt, t0);
    var raw;
    requested, reset, raw := Recover(server, salt, newSalt, random, t0);
    oldLogin, newLogin, replay := AfterReset(server, salt, newSalt, random, t0);
  }
}
