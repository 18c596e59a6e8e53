/**
 * The `users` table and the queries and updates the authentication handlers
 * run against it. A row is an `Account`; the table maps the SERIAL primary
 * key to its row.
 */
module Accounts {
  import opened Wrappers

  /** One row of `users`, column for column. Timestamps are milliseconds. */
  datatype Account = Account(
    id: int,
    name: string,
    email: string,
    password: string,                       // bcrypt hash, never the plaintext
    role: string,
    phone: Option<string>,
    specialization: Option<string>,
    emailVerified: bool,
    isActive: bool,
    resetToken: Option<string>,             // SHA-256 hex of the outstanding raw reset token
    resetExpire: Option<int>,
    emailVerificationToken: Option<string>,
    createdAt: int,
    updatedAt: int)

  /** The public view of an account that responses carry: `{ id, name, email, role }`. */
  datatype UserSummary = UserSummary(id: int, name: string, email: string, role: string)

  function Summary(a: Account): UserSummary {
    UserSummary(a.id, a.name, a.email, a.role)
  }

  type Table = map<int, Account>

  /** No reset pending (both reset columns NULL) or one pending (both set). */
  predicate ResetPaired(a: Account) {
    a.resetToken.Some? == a.resetExpire.Some?
  }

  /** The UNIQUE constraint on `email`, over active and inactive rows alike. */
  ghost predicate UniqueEmails(t: Table) {
    forall i, j :: i in t && j in t && t[i].email == t[j].email ==> i == j
  }

  ghost predicate TableInvariant(t: Table, nextId: int) {
    && 1 <= nextId
    && (forall id :: id in t ==> 1 <= id < nextId && t[id].id == id && ResetPaired(t[id]))
    && UniqueEmails(t)
  }

  /** The columns no handler ever changes once the row is inserted. */
  predicate SameIdentity(a: Account, b: Account) {
    && a.id == b.id && a.name == b.name && a.email == b.email && a.role == b.role
    && a.phone == b.phone && a.specialization == b.specialization
    && a.emailVerified == b.emailVerified && a.isActive == b.isActive
    && a.emailVerificationToken == b.emailVerificationToken
    && a.createdAt == b.createdAt && a.updatedAt == b.updatedAt
  }

  // ---- queries ----

  /** The rows whose email is `email`, active or not: the duplicate check of registration. */
  function WithEmail(t: Table, email: string): (ids: set<int>)
    ensures ids <= t.Keys
    ensures forall id :: id in t ==> (id in ids <==> t[id].email == email)
  {
    set id | id in t && t[id].email == email
  }

  /** The active rows whose email is `email`: the lookup of login and forgot-password. */
  function ActiveWithEmail(t: Table, email: string): (ids: set<int>)
    ensures ids <= WithEmail(t, email)
    ensures forall id :: id in WithEmail(t, email) ==> (id in ids <==> t[id].isActive)
  {
    set id | id in t && t[id].email == email && t[id].isActive
  }

  /** The row with primary key `id` exists and is active: the lookup of `protect`. */
  predicate ActiveWithId(t: Table, id: int): (found: bool)
    ensures found <==> id in t && id in ActiveWithEmail(t, t[id].email)
  {
    id in t && t[id].isActive
  }

  /**
   * A row accepts a reset token digest at `now`: it holds that digest, its
   * expiry lies strictly after `now`, and it is active.
   */
  predicate ResetUsable(a: Account, hash: string, now: int): (usable: bool)
    ensures usable ==> ResetPaired(a) && a.isActive
    ensures usable ==> a.resetToken == Some(hash) && now < a.resetExpire.value
  {
    a.resetToken == Some(hash) && a.resetExpire.Some? && a.resetExpire.value > now && a.isActive
  }

  /** The rows that accept a reset token digest at `now`: the lookup of reset-password. */
  function ResetMatches(t: Table, hash: string, now: int): (ids: set<int>)
    ensures ids <= t.Keys
    ensures forall id :: id in ids ==> id in ActiveWithEmail(t, t[id].email)
    ensures forall id :: id in ids ==> t[id].resetToken == Some(hash)
  {
    set id | id in t && ResetUsable(t[id], hash, now)
  }

  // ---- updates ----

  /**
   * The row registration inserts: the request's name, email, role, phone and
   * specialization with the password hash; every other column takes its
   * default (unverified, active, no reset pending, no verification token,
   * both timestamps at `now`).
   */
  function NewAccount(id: int, name: string, email: string, passwordHash: string, role: string,
                      phone: Option<string>, specialization: Option<string>, now: int): (a: Account)
    ensures a.id == id && a.email == email && a.password == passwordHash
    ensures a.name == name && a.role == role && a.phone == phone && a.specialization == specialization
    ensures a.emailVerificationToken.None? && a.createdAt == now && a.updatedAt == now
    ensures a.isActive && !a.emailVerified
    ensures a.resetToken.None? && a.resetExpire.None? && ResetPaired(a)
  {
    Account(id, name, email, passwordHash, role, phone, specialization,
            false, true, None, None, None, now, now)
  }

  /** Forgot-password's update: the row `id` gets a reset digest and expiry, replacing any earlier pair. */
  function SetResetFields(t: Table, id: int, hash: string, expire: int): (r: Table)
    requires id in t
    ensures r.Keys == t.Keys
    ensures forall k :: k in t && k != id ==> r[k] == t[k]
    ensures r[id].resetToken == Some(hash) && r[id].resetExpire == Some(expire)
    ensures r[id].password == t[id].password && SameIdentity(r[id], t[id])
  {
    t[id := t[id].(resetToken := Some(hash), resetExpire := Some(expire))]
  }

  /** Reset-password's update: the row `id` gets a new password hash and both reset columns are cleared. */
  function ConsumeReset(t: Table, id: int, passwordHash: string): (r: Table)
    requires id in t
    ensures r.Keys == t.Keys
    ensures forall k :: k in t && k != id ==> r[k] == t[k]
    ensures r[id].password == passwordHash
    ensures r[id].resetToken.None? && r[id].resetExpire.None?
    ensures SameIdentity(r[id], t[id])
  {
    t[id := t[id].(password := passwordHash, resetToken := None, resetExpire := None)]
  }

  // ---- properties ----

  /** With unique emails an email lookup finds at most one row. */
  lemma EmailLookupUnique(t: Table, email: string, i: int, j: int)
    requires UniqueEmails(t)
    requires i in WithEmail(t, email) && j in WithEmail(t, email)
    ensures i == j
  {
  }

  /** Inserting a row under the next id, for an email no row has, keeps the table invariant. */
  lemma InsertKeepsInvariant(t: Table, nextId: int, a: Account)
    requires TableInvariant(t, nextId)
    requires WithEmail(t, a.email) == {}
    requires a.id == nextId && ResetPaired(a)
    ensures TableInvariant(t[nextId := a], nextId + 1)
  {
    forall j | j in t ensures t[j].email != a.email {
      assert j !in WithEmail(t, a.email);
    }
  }

  lemma SetResetKeepsInvariant(t: Table, nextId: int, id: int, hash: string, expire: int)
    requires TableInvariant(t, nextId) && id in t
    ensures TableInvariant(SetResetFields(t, id, hash, expire), nextId)
  {
  }

  lemma ConsumeResetKeepsInvariant(t: Table, nextId: int, id: int, passwordHash: string)
    requires TableInvariant(t, nextId) && id in t
    ensures TableInvariant(ConsumeReset(t, id, passwordHash), nextId)
  {
  }

  /** A freshly issued reset hash finds its row exactly while the row is active and the expiry lies strictly after `now`. */
  lemma IssuedTokenMatches(t: Table, id: int, hash: string, expire: int, now: int)
    requires id in t
    ensures id in ResetMatches(SetResetFields(t, id, hash, expire), hash, now)
        <==> t[id].isActive && now < expire
  {
  }

  /** Issuing a new reset hash makes the row's earlier one useless. */
  lemma ReissueRevokesEarlierToken(t: Table, id: int, earlier: string, hash: string, expire: int, now: int)
    requires id in t && earlier != hash
    ensures id !in ResetMatches(SetResetFields(t, id, hash, expire), earlier, now)
  {
  }

  /**
   * Time only takes rows out of a reset lookup: what matches later matched
   * before, and a row stops matching from its expiry on.
   */
  lemma ResetMatchesShrinkOverTime(t: Table, hash: string, now: int, later: int)
    requires now <= later
    ensures ResetMatches(t, hash, later) <= ResetMatches(t, hash, now)
    ensures forall id :: id in ResetMatches(t, hash, now) ==>
      id !in ResetMatches(t, hash, t[id].resetExpire.value)
  {
    forall id | id in ResetMatches(t, hash, later) ensures id in ResetMatches(t, hash, now) {
      assert ResetUsable(t[id], hash, later);
    }
  }

  /** Consuming a reset on one row removes exactly that row from every reset lookup. */
  lemma ConsumedTokenStopsMatching(t: Table, id: int, passwordHash: string, hash: string, now: int)
    requires id in t
    ensures ResetMatches(ConsumeReset(t, id, passwordHash), hash, now) == ResetMatches(t, hash, now) - {id}
  {
    var r := ConsumeReset(t, id, passwordHash);
    forall k ensures k in ResetMatches(r, hash, now) <==> k in ResetMatches(t, hash, now) - {id} {
      if k in t && k != id {
        assert r[k] == t[k];
      }
    }
  }
}
