/** Rows of the user and session tables, and the single UPDATE / DELETE statements
    that the login code runs on them. Every statement is one atomic step. */
module Accounts {
  import opened Options

  type UserId = nat
  type SessionId = nat
  type DirectoryId = nat
  type Password = string
  type Time = int // microseconds

  /** A stored hash verifies exactly the password it was made from. `salt` keeps two
      hashes of one password apart; `cost` is the parameter set it was made with. */
  datatype PasswordHash = PasswordHash(password: Password, salt: nat, cost: nat)

  const CURRENT_COST: nat := 1

  datatype VerifyResult = VerifyResult(ok: bool, needsRehash: bool)

  function HashPassword(password: Password, salt: nat): PasswordHash {
    PasswordHash(password, salt, CURRENT_COST)
  }

  function VerifyPassword(hash: Option<PasswordHash>, password: Password): VerifyResult {
    match hash
    case None => VerifyResult(false, false)
    case Some(h) =>
      if h.password == password then VerifyResult(true, h.cost != CURRENT_COST) else VerifyResult(false, false)
  }

  datatype Realm = Local | Directory(directory: DirectoryId)

  datatype UserRow = UserRow(
    realm: Realm,
    passwordHash: Option<PasswordHash>,
    passwordChangedAt: Option<Time>,
    isActive: bool,
    failedLoginCount: nat,
    lockedUntil: Option<Time>)

  datatype SessionRow = SessionRow(
    userId: UserId,
    createdAt: Time,
    lastSeenAt: Time,
    expiresAt: Time,
    credentialMarker: Option<Time>)

  type Users = map<UserId, UserRow>
  type Sessions = map<SessionId, SessionRow>

  /** Which directories are enabled and allowed by the connection policy. */
  type Directories = map<DirectoryId, bool>

  datatype Policy = Policy(idleTimeout: Time, absoluteTimeout: Time, maxFailures: nat, lockout: Time)

  const TOUCH_INTERVAL: Time := 60_000_000

  /** Halving a time span rounds a half microsecond to the even neighbour. */
  function HalfToEven(span: Time): Time {
    var q := span / 2;
    if span % 2 == 0 || q % 2 == 0 then q else q + 1
  }

  function TouchInterval(policy: Policy): Time {
    var half := HalfToEven(policy.idleTimeout);
    if TOUCH_INTERVAL <= half then TOUCH_INTERVAL else half
  }

  /** The generation of a password is the time it was set. */
  function CredentialMarker(user: UserRow): Option<Time> {
    user.passwordChangedAt
  }

  predicate IsExpired(row: SessionRow, policy: Policy, now: Time) {
    row.expiresAt <= now || row.lastSeenAt + policy.idleTimeout <= now
  }

  // ---- statements: a WHERE condition on one row, and the new row

  function CountFailure(user: UserRow): UserRow {
    user.(failedLoginCount := user.failedLoginCount + 1)
  }

  predicate IsFull(user: UserRow, policy: Policy) {
    policy.maxFailures <= user.failedLoginCount
  }

  function Lock(user: UserRow, policy: Policy, now: Time): UserRow {
    user.(lockedUntil := Some(now + policy.lockout), failedLoginCount := 0)
  }

  predicate IsUnlocked(user: UserRow, now: Time) {
    user.lockedUntil.None? || user.lockedUntil.value <= now
  }

  function ClearFailures(user: UserRow): UserRow {
    user.(failedLoginCount := 0, lockedUntil := None)
  }

  function SetPassword(user: UserRow, hash: PasswordHash, changedAt: Time): UserRow {
    user.(passwordHash := Some(hash), passwordChangedAt := Some(changedAt), failedLoginCount := 0, lockedUntil := None)
  }

  predicate StillExpired(row: SessionRow, policy: Policy, now: Time) {
    row.expiresAt <= now || row.lastSeenAt <= now - policy.idleTimeout
  }

  function SessionsOf(sessions: Sessions, u: UserId, keep: Option<SessionId>): set<SessionId> {
    set s | s in sessions && sessions[s].userId == u && Some(s) != keep
  }

  function ExpiredSessions(sessions: Sessions, policy: Policy, now: Time): set<SessionId> {
    set s | s in sessions && StillExpired(sessions[s], policy, now)
  }
}
