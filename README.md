# Authentication core of the dietician platform backend

This project models the account and session core of the platform's Express backend in Dafny.

- **Registration** inserts a `users` row with a bcrypt hash of the password. It answers with the public summary and a signed session token (a JSON Web Token).
- **Login** finds the active row for an email and checks the password with bcrypt. It issues a new session token.
- **Forgot-password** draws 20 random bytes and hex-encodes them into the raw reset token. It stores the token's SHA-256 hex digest with an expiry ten minutes ahead, then emails the raw token.
- **Reset-password** hashes the token it is given and looks for an active row holding that digest with an expiry still in the future. It replaces that row's password and clears both reset columns.
- **The `protect` middleware** takes the token from an `Authorization: Bearer …` header and verifies it. It attaches the active row the token's id names. **Get-me** echoes that row.

Modules:

- `Wrappers`: `Option`.
- `Hex`: `Buffer.toString('hex')` and its inverse, with both round trips proved.
- `Foreign`: bcrypt, SHA-256 and the JWT library, which the code calls but does not implement. Each is a function value inside a `Library`. The ghost predicate `Sound` states what the core relies on each library to do.
- `Jwt`: `generateToken`, `verifyToken` and `generateResetToken`.
- `Bearer`: the header parsing in `protect`, using a model of JavaScript's `split(' ')`.
- `Accounts`: the `users` table as a map from the SERIAL id to the row, with the queries and updates the handlers run and the table invariant they keep.
- `Server`: the controller as the class `AuthServer`.
  - Its fields are the table, the next SERIAL value, the log of emails handed to the transport, and the libraries.
  - Each handler is a method that updates those fields.
- `Middleware`: `protect`.
- `Scenario`: register, log in, call get-me, forget the password, reset it, and replay the token, all proved through the handlers' contracts.

These values are parameters:

- the clock (`now`, in milliseconds);
- the random bytes behind a reset token;
- the salt bcrypt draws;
- whether the mail transport delivered a message.

## Model

| member | source | states |
|---|---|---|
| Hex.Encode | backend/src/utils/jwt.js:11 | hex text of n bytes has exactly 2n characters, all lower-case hex digits |
| Hex.DecodeEncode | backend/src/utils/jwt.js:11 | decoding the hex of any byte string gives back those bytes |
| Hex.EncodeDecode | backend/src/utils/jwt.js:11 | any text that decodes is exactly the hex of what it decodes to |
| Hex.DecodeAccepts | backend/src/utils/jwt.js:11 | text decodes exactly when it has even length and only lower-case hex digits |
| Jwt.GenerateResetToken | backend/src/utils/jwt.js:10-16 | the raw token is 40 hex characters that decode back to the 20 random bytes; the stored value is the SHA-256 hex of the raw token; the expiry is now + 600000 ms |
| Jwt.StoredHashIsDigest | backend/src/utils/jwt.js:11-12 | what forgot-password stores is a 64-character hex digest and never the raw token |
| Jwt.GenerateToken | backend/src/utils/jwt.js:4-8 | a session token signed with the configured secret is never empty and contains no space, so it fits in a "Bearer " header |
| Jwt.VerifyToken | backend/src/utils/jwt.js:18-20 | whatever verifies is a token the library signed under the configured secret for exactly those claims, at an issue time whose lifetime has not run out |
| Jwt.HashForLookup | backend/src/controllers/authController.js:158 | the digest reset-password looks up is 64 lower-case hex digits; forgot-password stores this same function of the raw token (Jwt.GenerateResetToken) |
| Jwt.VerifyGeneratedToken | backend/src/utils/jwt.js:4-8 | a session token verifies to exactly the claims it was signed with while unexpired, and fails from its expiry on |
| Jwt.ForgedTokenRejected | backend/src/utils/jwt.js:18-20 | a string that was never signed under the configured secret never verifies |
| Bearer.Split | backend/src/middleware/auth.js:8 | split always yields at least one field and no field contains the separator |
| Bearer.JoinSplit | backend/src/middleware/auth.js:8 | joining the fields of a split with the separator gives back the original text |
| Bearer.SplitJoin | backend/src/middleware/auth.js:8 | splitting separator-free fields that were joined gives back the same fields |
| Bearer.ExtractToken | backend/src/middleware/auth.js:7-11 | no header gives no token; a token is only taken from a header that starts with "Bearer", and it is non-empty and free of spaces |
| Bearer.ExtractTokenIsSecondField | backend/src/middleware/auth.js:7-11 | the token is extracted if and only if the header starts with "Bearer" and its second space-separated field is that non-empty token |
| Bearer.ExtractTokenOfBearerHeader | backend/src/middleware/auth.js:7-9 | the header "Bearer " + token yields that token for every non-empty, space-free token |
| Bearer.ExtractTokenWithoutSpaceAfterScheme | backend/src/middleware/auth.js:7-8 | "Bearerx y" is accepted with token "y", because only a "Bearer" prefix is checked |
| Bearer.ExtractTokenIgnoresLaterFields | backend/src/middleware/auth.js:8 | "Bearer a b" yields "a": fields after the second are ignored |
| Bearer.ExtractTokenBareScheme | backend/src/middleware/auth.js:8-11 | "Bearer" with no second field yields no token |
| Bearer.ExtractTokenDoubleSpace | backend/src/middleware/auth.js:8-11 | "Bearer  x" has an empty second field and yields no token |
| Bearer.ExtractTokenLowerCaseScheme | backend/src/middleware/auth.js:7 | "bearer x" yields no token: the scheme is matched case-sensitively |
| Accounts.NewAccount | backend/src/controllers/authController.js:23-30 | the inserted row carries the given id, name, email, hash, role, phone and specialization; it is active and unverified, with no reset pending, no verification token and both timestamps at the insert time, as the column defaults in backend/src/utils/database.js say |
| Accounts.WithEmail | backend/src/controllers/authController.js:11-13 | the duplicate check finds exactly the rows whose email is the given one, active or not |
| Accounts.ActiveWithEmail | backend/src/controllers/authController.js:63-66 | the login and forgot-password lookup is the email lookup cut down to exactly its active rows |
| Accounts.ActiveWithId | backend/src/middleware/auth.js:21-24 | the middleware's lookup by id succeeds exactly when the row exists and the email lookup of its own email finds it active |
| Accounts.ResetUsable | backend/src/controllers/authController.js:160-165 | a row that accepts a reset digest holds that digest, is active, has both reset columns set, and has an expiry strictly after now |
| Accounts.ResetMatches | backend/src/controllers/authController.js:160-168 | the reset lookup finds only existing active rows that hold the given digest |
| Accounts.ResetMatchesShrinkOverTime | backend/src/controllers/authController.js:163 | as time passes the reset lookup only loses rows, and each row stops matching from its own expiry on |
| Accounts.SetResetFields | backend/src/controllers/authController.js:124-129 | only the target row changes, and only its two reset columns, to the given hash and expiry |
| Accounts.ConsumeReset | backend/src/controllers/authController.js:179-184 | only the target row changes: its password becomes the new hash and both reset columns are cleared |
| Accounts.EmailLookupUnique | backend/src/utils/database.js:17 | under the UNIQUE email constraint, an email lookup finds at most one row |
| Accounts.InsertKeepsInvariant | backend/src/controllers/authController.js:11-30 | inserting under the next SERIAL id, after the duplicate check passed, keeps ids, reset pairing and email uniqueness |
| Accounts.SetResetKeepsInvariant | backend/src/controllers/authController.js:124-129 | storing a reset hash and expiry keeps the table invariant |
| Accounts.ConsumeResetKeepsInvariant | backend/src/controllers/authController.js:179-184 | consuming a reset keeps the table invariant |
| Accounts.IssuedTokenMatches | backend/src/controllers/authController.js:160-166 | after forgot-password stores a hash, the reset lookup finds that row if and only if the row is active and now is strictly before the expiry |
| Accounts.ReissueRevokesEarlierToken | backend/src/controllers/authController.js:124-129 | storing a new reset hash makes any earlier token of that row stop matching |
| Accounts.ConsumedTokenStopsMatching | backend/src/controllers/authController.js:179-184 | a successful reset removes exactly that row from every reset lookup, so the token cannot be used twice |
| Server.GetMe | backend/src/controllers/authController.js:199-206 | 200, success, and the user the middleware attached, with no message and no token |
| Server.AuthServer.constructor | backend/src/utils/database.js:14-29 | starts with an empty table, SERIAL at 1, no mail, and the invariant holding |
| Server.AuthServer.Register | backend/src/controllers/authController.js:7-49 | an email any row already has gets 400 and changes nothing; otherwise the row is inserted under the next id, the welcome mail is logged, and the answer is 201 with the summary and a token for the row's claims whatever the mail did; the stored hash accepts the password and is not the password |
| Server.AuthServer.Login | backend/src/controllers/authController.js:59-97 | no active row with the email gives 401; for the active row, a password bcrypt accepts gives 200 with the summary and a token, and any other password gives the same 401; nothing changes |
| Server.AuthServer.ForgotPassword | backend/src/controllers/authController.js:107-143 | no active row with the email gives 404 and changes nothing; otherwise that row alone gets the hash and expiry of the fresh ticket, the raw token is mailed, and the answer is 200, or 500 if the mail failed while the stored fields stay |
| Server.AuthServer.ResetPassword | backend/src/controllers/authController.js:153-189 | a token with no active, unexpired row holding its digest gives 400 and changes nothing; otherwise one such row gets the new password hash with its reset columns cleared and the answer is 200 |
| Middleware.Protect | backend/src/middleware/auth.js:4-32 | a missing or malformed header, or a token that fails to verify, gives 401 "Not authorized"; a verified id with no active row gives 401 "User not found"; otherwise the active row's summary is attached, and its id is that of claims the server signed that are still unexpired |
| Scenario.Lifecycle | backend/src/controllers/authController.js:7-197 | register gives 201; login gives a token that verifies to the row's claims; protect admits that session and get-me answers 200 with the row's summary; forgot-password gives 200; reset gives 200; afterwards the old password gets 401, the new one gets 200, and replaying the reset token gets 400 |

## Left out

- Database and library exceptions are not modelled. That covers every `catch` branch answering 500 in the controller, and `protect`'s `catch` answering 401 when the store query throws. The model's store never fails.
- A `verifyToken` failure is modelled as `None`, which `protect` turns into the same 401 its `catch` gives.
- Concurrency is not modelled: each handler runs alone, so the gap between a SELECT and its UPDATE is not modelled. A SELECT without ORDER BY picks any matching row (`:|`). The table invariant makes every lookup except the reset-token lookup return at most one row.
- Server.AuthServer.ResetPassword: when several active rows hold the same unexpired digest, the contract only says that one of them is updated, not which one. The source leaves this to row order.
- Foreign.BcryptSound: the contract promises that a hash accepts no other password only when both passwords are free of NUL characters and fit in 72 bytes as UTF-8. Within that range, injectivity stands in for bcrypt's collision resistance. The model says nothing about passwords outside the range, where bcrypt confuses some of them:
  - bcrypt reads only the first 72 bytes of the UTF-8 form, so longer passwords sharing those bytes are accepted interchangeably;
  - bcrypt appends a NUL terminator and repeats the key bytes cyclically, so a password containing NUL can hash like a shorter one ("ab" NUL "ab" like "ab").
- The internals of bcrypt, SHA-256 and the JWT library are not modelled. What the core assumes of them is the `Foreign.Sound` contract; the Foreign.BcryptSound and Foreign.JwtSound lines name where that is an idealisation.
  - This includes the JWT payload encoding.
  - `expiresIn` is taken as a millisecond lifetime, where the library counts whole seconds.
  - The format of the `JWT_EXPIRE` string is not modelled.
- Foreign.JwtSound: its last clause stands in for unforgeability. It assumes that no code other than `generateToken` ever signs with the configured `JWT_SECRET`, so every token that verifies is one the server issued and has not expired. The library itself accepts any token carrying a valid HMAC under the secret. That includes a token without `exp`, which never expires. The admission promise of Middleware.Protect, Jwt.VerifyToken and Jwt.ForgedTokenRejected rests on this assumption.
- `Date` and SQL `TIMESTAMP` values are plain millisecond integers, so time zones and precision are not modelled.
- The email transport is not modelled. The model records the recipient, the kind of mail and its token, plus a delivery flag supplied by the caller. The reset URL and HTML templates are not modelled.
- The request validation middleware, the rate limiter, routing and the frontend are not part of this model. Inputs reach the handlers as the validators leave them.
  - `role` is stored as the string the request carries. The controller passes it through to the INSERT unchecked, so no role enumeration is enforced here.
  - An absent role is not modelled: the INSERT would write NULL explicitly, and the column default would not apply.
- `updated_at` is set at insert and never touched afterwards, because none of the UPDATE statements set it. The model keeps that.
- Expired reset tokens are never cleared. Expiry is only checked when a reset is attempted, and an expired token just stops matching. The model follows this behaviour of the code, not a design in which expired tokens are removed.
- Forgot-password stores the new reset fields before it tries to send the email. A failed email therefore answers 500 while the token stays usable. The model keeps this order.
