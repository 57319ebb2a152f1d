/** One user's credential, second factor, recovery codes and sessions, and what
    each request leaves of them. */
module Mfa {
  import opened Options
  import opened Totp

  type SessionId = nat
  type CodeHash = string
  type Password = string

  datatype MfaRow = MfaRow(
    seed: Option<Seed>, confirmedAt: Option<nat>, lastUsedStep: Option<int>,
    failedCount: nat, lockoutCount: nat, lockedUntil: Option<nat>)

  datatype RecoveryCode = RecoveryCode(usedAt: Option<nat>, supersededAt: Option<nat>)

  datatype SessionRow = SessionRow(
    createdAt: nat, lastSeenAt: nat, revokedAt: Option<nat>, mfaVerifiedAt: Option<nat>)

  datatype Credential = Credential(password: Password, failedLoginCount: nat, lockedUntil: Option<nat>)

  /** The rows of one user; recovery codes are keyed by their hash, unique per
      user, and never deleted. Instants are in microseconds. */
  datatype User = User(
    credential: Credential, mfa: Option<MfaRow>,
    codes: map<CodeHash, RecoveryCode>, sessions: map<SessionId, SessionRow>, disabled: bool)

  /** Deployment settings; durations in seconds. */
  datatype Policy = Policy(
    generator: Generator,
    loginThreshold: nat, loginLockout: nat,
    mfaThreshold: nat, lockoutBase: nat, lockoutCap: nat,
    assuranceMaxAge: nat, idle: nat, absolute: nat)
  {
    /** The bounds the settings module enforces. */
    predicate Valid() {
      && loginThreshold >= 1 && mfaThreshold >= 1
      && 60 <= lockoutBase <= lockoutCap
      && 60 <= assuranceMaxAge <= absolute && 60 <= idle <= absolute
    }
  }

  const RECOVERY_CODE_COUNT := 10

  // ------------------------------------------------------------------ statements

  predicate LiveSession(r: SessionRow) {
    r.revokedAt.None?
  }

  predicate LiveCode(r: RecoveryCode) {
    r.usedAt.None? && r.supersededAt.None?
  }

  function LiveSessions(sessions: map<SessionId, SessionRow>): set<SessionId> {
    set i | i in sessions && LiveSession(sessions[i])
  }

  function LiveCodes(codes: map<CodeHash, RecoveryCode>): set<CodeHash> {
    set h | h in codes && LiveCode(codes[h])
  }

  predicate IsLive(sessions: map<SessionId, SessionRow>, id: SessionId) {
    id in sessions && LiveSession(sessions[id])
  }

  function RevokedSession(r: SessionRow, now: nat): SessionRow {
    if LiveSession(r) then r.(revokedAt := Some(now)) else r
  }

  /** Revoke one session; a no-op when it is gone or already revoked. */
  function RevokeOne(sessions: map<SessionId, SessionRow>, id: SessionId, now: nat): map<SessionId, SessionRow> {
    if id in sessions then sessions[id := RevokedSession(sessions[id], now)] else sessions
  }

  function RevokeOthers(sessions: map<SessionId, SessionRow>, keep: SessionId, now: nat): map<SessionId, SessionRow> {
    map i | i in sessions :: if i == keep then sessions[i] else RevokedSession(sessions[i], now)
  }

  function OpenSession(sessions: map<SessionId, SessionRow>, id: SessionId, assured: Option<nat>, now: nat)
    : map<SessionId, SessionRow>
  {
    sessions[id := SessionRow(now, now, None, assured)]
  }

  function Stamp(sessions: map<SessionId, SessionRow>, id: SessionId, now: nat): map<SessionId, SessionRow>
    requires id in sessions
  {
    sessions[id := sessions[id].(mfaVerifiedAt := Some(now))]
  }

  function Burned(codes: map<CodeHash, RecoveryCode>, now: nat): map<CodeHash, RecoveryCode> {
    map h | h in codes :: if LiveCode(codes[h]) then codes[h].(supersededAt := Some(now)) else codes[h]
  }

  function Inserted(codes: map<CodeHash, RecoveryCode>, hashes: seq<CodeHash>): map<CodeHash, RecoveryCode> {
    map h | h in codes.Keys + (set x | x in hashes) :: if h in codes then codes[h] else RecoveryCode(None, None)
  }

  /** The unique constraint admits the new set: all distinct, none seen before. */
  predicate Insertable(codes: map<CodeHash, RecoveryCode>, hashes: seq<CodeHash>) {
    && (forall i, j :: 0 <= i < j < |hashes| ==> hashes[i] != hashes[j])
    && (forall h :: h in hashes ==> h !in codes)
  }

  function Spent(codes: map<CodeHash, RecoveryCode>, h: CodeHash, now: nat): map<CodeHash, RecoveryCode>
    requires h in codes
  {
    codes[h := codes[h].(usedAt := Some(now))]
  }

  // --------------------------------------------------------------------- lockouts

  function Pow2(n: nat): nat {
    if n == 0 then 1 else 2 * Pow2(n - 1)
  }

  /** The duration of the k-th consecutive lockout, in seconds: doubling, capped. */
  function LockoutSeconds(p: Policy, k: nat): nat
    requires k >= 1
  {
    var doubled := p.lockoutBase * Pow2(k - 1);
    if doubled <= p.lockoutCap then doubled else p.lockoutCap
  }

  function AfterFailure(row: MfaRow, p: Policy, now: nat): MfaRow {
    var failed := row.failedCount + 1;
    if failed >= p.mfaThreshold then
      row.(failedCount := 0, lockoutCount := row.lockoutCount + 1,
           lockedUntil := Some(now + LockoutSeconds(p, row.lockoutCount + 1) * MICROS))
    else row.(failedCount := failed)
  }

  function Unlocked(row: MfaRow): MfaRow {
    row.(failedCount := 0, lockoutCount := 0, lockedUntil := None)
  }

  predicate LockedAt(until: Option<nat>, now: nat) {
    until.Some? && until.value > now
  }

  function RetryAfter(until: Option<nat>, now: nat): nat
    requires LockedAt(until, now)
  {
    (until.value - now) / MICROS + 1
  }

  // ---------------------------------------------------------------- the requests

  datatype AuthError =
    | InvalidCredentials | AccountLocked(retryAfter: nat) | WrongPassword
    | NotEnrolled | AlreadyEnrolled | MfaLocked(retryAfter: nat) | InvalidCode
    | SessionRevoked | CodeCollision | NoCode

  datatype Reply = Done | Opened(session: SessionId) | Refused(error: AuthError)

  /** What proved possession: a time step of the seed, or a recovery code. */
  datatype Means = ByStep(step: int) | ByRecovery(hash: CodeHash)

  /** A committed acceptance of a second-factor code, and the session it stamped. */
  datatype Acceptance = Acceptance(means: Means, stamped: Option<SessionId>, at: nat)

  /** The rows that stand when the request has ended, its answer, and the code it
      accepted if it committed one. */
  datatype Outcome = Outcome(user: User, reply: Reply, accepted: Option<Acceptance>)

  function Refuse(u: User, e: AuthError): Outcome {
    Outcome(u, Refused(e), None)
  }

  predicate Confirmed(u: User) {
    u.mfa.Some? && u.mfa.value.confirmedAt.Some?
  }

  /** The row a code can be checked against, if the user has a confirmed factor. */
  predicate HasFactor(u: User) {
    Confirmed(u) && u.mfa.value.seed.Some?
  }

  function Failed(u: User, p: Policy, now: nat): Outcome
    requires u.mfa.Some?
  {
    Refuse(u.(mfa := Some(AfterFailure(u.mfa.value, p, now))), InvalidCode)
  }

  function Login(u: User, p: Policy, password: Password, id: SessionId, now: nat): Outcome {
    var c := u.credential;
    if u.disabled then Refuse(u, InvalidCredentials)
    else if LockedAt(c.lockedUntil, now) then Refuse(u, AccountLocked(RetryAfter(c.lockedUntil, now)))
    else if c.password != password then
      var failed := c.failedLoginCount + 1;
      Refuse(u.(credential :=
          if failed >= p.loginThreshold then c.(failedLoginCount := 0, lockedUntil := Some(now + p.loginLockout * MICROS))
          else c.(failedLoginCount := failed)),
        InvalidCredentials)
    else
      Outcome(u.(credential := c.(failedLoginCount := 0, lockedUntil := None),
                 sessions := OpenSession(u.sessions, id, None, now)),
              Opened(id), None)
  }

  function Logout(u: User, session: SessionId, now: nat): Outcome {
    Outcome(u.(sessions := RevokeOne(u.sessions, session, now)), Done, None)
  }

  /** Every session out, one fresh unassured session in. */
  function Rotated(sessions: map<SessionId, SessionRow>, current: SessionId, id: SessionId, now: nat)
    : map<SessionId, SessionRow>
  {
    OpenSession(RevokeOne(RevokeOthers(sessions, current, now), current, now), id, None, now)
  }

  function ChangePassword(u: User, session: SessionId, current: Password, next: Password, id: SessionId, now: nat)
    : Outcome
  {
    if u.credential.password != current then Refuse(u, WrongPassword)
    else
      Outcome(u.(credential := u.credential.(password := next), sessions := Rotated(u.sessions, session, id, now)),
              Opened(id), None)
  }

  /** Start or restart an enrollment. A restart resets the failure counter but
      neither the escalation nor a standing lockout. */
  function Enroll(u: User, password: Password, seed: Seed): Outcome {
    if u.credential.password != password then Refuse(u, WrongPassword)
    else if Confirmed(u) then Refuse(u, AlreadyEnrolled)
    else
      var row := if u.mfa.None? then MfaRow(Some(seed), None, None, 0, 0, None)
                 else u.mfa.value.(seed := Some(seed), lastUsedStep := None, failedCount := 0);
      Outcome(u.(mfa := Some(row)), Done, None)
  }

  /** Activate the factor: the calling session becomes assured, every other one is
      revoked, and a fresh set of recovery codes replaces the old. */
  function Confirm(u: User, p: Policy, session: SessionId, code: Code, hashes: seq<CodeHash>, now: nat): Outcome {
    if u.mfa.None? || u.mfa.value.seed.None? then Refuse(u, NotEnrolled)
    else
      var row := u.mfa.value;
      if row.confirmedAt.Some? then Refuse(u, AlreadyEnrolled)
      else if LockedAt(row.lockedUntil, now) then Refuse(u, MfaLocked(RetryAfter(row.lockedUntil, now)))
      else match MatchingStep(p.generator, row.seed.value, code, StepAt(now))
        case None => Failed(u, p, now)
        case Some(step) =>
          if !IsLive(u.sessions, session) then Refuse(u, SessionRevoked)
          else if !Insertable(u.codes, hashes) then Refuse(u, CodeCollision)
          else
            var active := Unlocked(row).(confirmedAt := Some(now), lastUsedStep := Some(step));
            Outcome(u.(mfa := Some(active),
                       sessions := RevokeOthers(Stamp(u.sessions, session, now), session, now),
                       codes := Inserted(Burned(u.codes, now), hashes)),
                    Done, Some(Acceptance(ByStep(step), Some(session), now)))
  }

  datatype Presented = TotpCode(code: Code) | RecoveryText(hash: CodeHash) | Nothing

  datatype Spending = Wrong | Spends(user: User, means: Means)

  /** Check and consume one code against the confirmed factor. */
  function Spend(u: User, p: Policy, c: Presented, now: nat): Spending
    requires HasFactor(u) && c != Nothing
  {
    var row := u.mfa.value;
    match c
    case TotpCode(code) =>
      (match MatchingStep(p.generator, row.seed.value, code, StepAt(now))
       case None => Wrong
       case Some(step) =>
         if row.lastUsedStep.Some? && step <= row.lastUsedStep.value then Wrong
         else Spends(u.(mfa := Some(Unlocked(row).(lastUsedStep := Some(step)))), ByStep(step)))
    case RecoveryText(h) =>
      if h in u.codes && LiveCode(u.codes[h])
      then Spends(u.(mfa := Some(Unlocked(row)), codes := Spent(u.codes, h, now)), ByRecovery(h))
      else Wrong
  }

  /** Complete a pending login with a fresh assured session, or refresh the
      assurance of the calling one. */
  function Verify(u: User, p: Policy, session: SessionId, pending: bool, c: Presented, id: SessionId, now: nat): Outcome {
    if !HasFactor(u) then Refuse(u, NotEnrolled)
    else if LockedAt(u.mfa.value.lockedUntil, now) then Refuse(u, MfaLocked(RetryAfter(u.mfa.value.lockedUntil, now)))
    else if c == Nothing then Refuse(u, NoCode)
    else match Spend(u, p, c, now)
      case Wrong => Failed(u, p, now)
      case Spends(v, means) =>
        if pending then
          Outcome(v.(sessions := OpenSession(RevokeOne(v.sessions, session, now), id, Some(now), now)),
                  Opened(id), Some(Acceptance(means, Some(id), now)))
        else if !IsLive(v.sessions, session) then Refuse(u, SessionRevoked)
        else Outcome(v.(sessions := Stamp(v.sessions, session, now)), Done, Some(Acceptance(means, Some(session), now)))
  }

  /** Soft-revoke the factor behind a password and a code; sessions rotate. */
  function Disable(u: User, p: Policy, session: SessionId, password: Password, c: Presented, id: SessionId, now: nat)
    : Outcome
  {
    if !HasFactor(u) then Refuse(u, NotEnrolled)
    else if LockedAt(u.mfa.value.lockedUntil, now) then Refuse(u, MfaLocked(RetryAfter(u.mfa.value.lockedUntil, now)))
    else if u.credential.password != password then Refuse(u, WrongPassword)
    else if c == Nothing then Refuse(u, NoCode)
    else match Spend(u, p, c, now)
      case Wrong => Failed(u, p, now)
      case Spends(v, means) =>
        Outcome(v.(mfa := Some(v.mfa.value.(seed := None, confirmedAt := None, lastUsedStep := None)),
                   codes := Burned(v.codes, now), sessions := Rotated(v.sessions, session, id, now)),
                Opened(id), Some(Acceptance(means, None, now)))
  }

  function Regenerate(u: User, password: Password, hashes: seq<CodeHash>, now: nat): Outcome {
    if u.credential.password != password then Refuse(u, WrongPassword)
    else if !HasFactor(u) then Refuse(u, NotEnrolled)
    else if !Insertable(u.codes, hashes) then Refuse(u, CodeCollision)
    else Outcome(u.(codes := Inserted(Burned(u.codes, now), hashes)), Done, None)
  }

  // --------------------------------------------------------------- session policy

  datatype Resolution = Current(enrolled: bool, verifiedAt: Option<nat>) | Expired | AwaitsFactor

  /** Resolve a session cookie at `now`: revoked, idle and over-age sessions are
      refused, and so is one that still awaits its second factor. */
  function Resolve(u: User, p: Policy, id: SessionId, allowPending: bool, now: nat): Resolution {
    if id !in u.sessions || !LiveSession(u.sessions[id]) || u.disabled then Expired
    else
      var r := u.sessions[id];
      if now - r.createdAt >= p.absolute * MICROS || now - r.lastSeenAt >= p.idle * MICROS then Expired
      else if !allowPending && Confirmed(u) && r.mfaVerifiedAt.None? then AwaitsFactor
      else Current(Confirmed(u), r.mfaVerifiedAt)
  }

  /** The gate on operations that demand current assurance. */
  predicate Assured(u: User, p: Policy, id: SessionId, now: nat) {
    var r := Resolve(u, p, id, false, now);
    r.Current? && r.enrolled && r.verifiedAt.Some? && now - r.verifiedAt.value < p.assuranceMaxAge * MICROS
  }

  /** The touch that keeps an active session from idling out. */
  function Touched(u: User, id: SessionId, now: nat): User {
    if id in u.sessions then u.(sessions := u.sessions[id := u.sessions[id].(lastSeenAt := now)]) else u
  }
}
