/** The authentication service over one user's rows. Changes are pending until a
    commit; an escaping error rolls them back, and only the failure counters are
    committed before the error is raised. */
module MfaStore {
  import opened Options
  import opened Totp
  import opened Mfa

  class AuthService {
    var password: Password
    var failedLoginCount: nat
    var loginLockedUntil: Option<nat>

    var hasMfaRow: bool
    var seed: Option<Seed>
    var confirmedAt: Option<nat>
    var lastUsedStep: Option<int>
    var failedCount: nat
    var lockoutCount: nat
    var lockedUntil: Option<nat>

    var codes: map<CodeHash, RecoveryCode>
    var sessions: map<SessionId, SessionRow>
    const disabled: bool

    /** The rows as last committed. */
    var committed: User

    function Row(): Option<MfaRow>
      reads this
    {
      if hasMfaRow then Some(MfaRow(seed, confirmedAt, lastUsedStep, failedCount, lockoutCount, lockedUntil)) else None
    }

    /** The rows as this request sees them. */
    function Working(): User
      reads this
    {
      User(Credential(password, failedLoginCount, loginLockedUntil), Row(), codes, sessions, disabled)
    }

    /** Between requests nothing is pending. */
    predicate Settled()
      reads this
    {
      Working() == committed
    }

    constructor (u: User)
      ensures Settled() && committed == u
    {
      password, failedLoginCount, loginLockedUntil :=
        u.credential.password, u.credential.failedLoginCount, u.credential.lockedUntil;
      var row := if u.mfa.Some? then u.mfa.value else MfaRow(None, None, None, 0, 0, None);
      hasMfaRow, seed, confirmedAt, lastUsedStep := u.mfa.Some?, row.seed, row.confirmedAt, row.lastUsedStep;
      failedCount, lockoutCount, lockedUntil := row.failedCount, row.lockoutCount, row.lockedUntil;
      codes, sessions, disabled, committed := u.codes, u.sessions, u.disabled, u;
    }

    method Commit()
      modifies this`committed
      ensures Settled()
    {
      committed := Working();
    }

    /** Take back everything pending. */
    method Rollback()
      requires committed.disabled == disabled
      modifies this
      ensures Settled() && committed == old(committed)
    {
      var c := committed.credential;
      password, failedLoginCount, loginLockedUntil := c.password, c.failedLoginCount, c.lockedUntil;
      codes, sessions := committed.codes, committed.sessions;
      RestoreRow(committed.mfa);
    }

    method RestoreRow(mfa: Option<MfaRow>)
      modifies this`hasMfaRow, this`seed, this`confirmedAt, this`lastUsedStep, this`failedCount, this`lockoutCount,
               this`lockedUntil
      ensures Row() == mfa
    {
      hasMfaRow := mfa.Some?;
      if mfa.Some? {
        var row := mfa.value;
        seed, confirmedAt, lastUsedStep := row.seed, row.confirmedAt, row.lastUsedStep;
        failedCount, lockoutCount, lockedUntil := row.failedCount, row.lockoutCount, row.lockedUntil;
      }
    }

    // ---------------------------------------------------- conditional statements

    method RevokeSession(id: SessionId, now: nat)
      modifies this`sessions
      ensures sessions == RevokeOne(old(sessions), id, now)
    {
      if id in sessions && LiveSession(sessions[id]) {
        sessions := sessions[id := sessions[id].(revokedAt := Some(now))];
      } else if id in sessions {
        assert sessions[id := sessions[id]] == sessions;
      }
    }

    method RevokeOtherSessions(keep: SessionId, now: nat)
      modifies this`sessions
      ensures sessions == RevokeOthers(old(sessions), keep, now)
    {
      sessions := map i | i in sessions ::
        if i != keep && LiveSession(sessions[i]) then sessions[i].(revokedAt := Some(now)) else sessions[i];
    }

    method StampSessionAssurance(id: SessionId, now: nat) returns (stamped: bool)
      modifies this`sessions
      ensures stamped == IsLive(old(sessions), id)
      ensures sessions == if stamped then Stamp(old(sessions), id, now) else old(sessions)
    {
      stamped := id in sessions && LiveSession(sessions[id]);
      if stamped {
        sessions := sessions[id := sessions[id].(mfaVerifiedAt := Some(now))];
      }
    }

    method BurnRecoveryCodes(now: nat)
      modifies this`codes
      ensures codes == Burned(old(codes), now)
    {
      codes := map h | h in codes ::
        if LiveCode(codes[h]) then codes[h].(supersededAt := Some(now)) else codes[h];
    }

    /** One conditional update is the whole one-time guarantee. */
    method ConsumeRecoveryCode(h: CodeHash, now: nat) returns (spent: bool)
      modifies this`codes
      ensures spent == (h in old(codes) && LiveCode(old(codes)[h]))
      ensures codes == if spent then Spent(old(codes), h, now) else old(codes)
    {
      spent := h in codes && LiveCode(codes[h]);
      if spent {
        codes := codes[h := codes[h].(usedAt := Some(now))];
      }
    }

    /** Store a fresh set, one row at a time; the unique constraint refuses a hash
        this user ever had. */
    method InsertRecoveryCodes(hashes: seq<CodeHash>) returns (ok: bool)
      modifies this`codes
      ensures ok == Insertable(old(codes), hashes)
      ensures ok ==> codes == Inserted(old(codes), hashes)
    {
      ghost var before := codes;
      for i := 0 to |hashes|
        invariant Insertable(before, hashes[..i])
        invariant codes == Inserted(before, hashes[..i])
      {
        assert hashes[i] in codes <==> hashes[i] in before || hashes[i] in hashes[..i];
        if hashes[i] in codes {
          NotInsertable(before, hashes, i);
          return false;
        }
        assert hashes[..i + 1] == hashes[..i] + [hashes[i]];
        codes := codes[hashes[i] := RecoveryCode(None, None)];
      }
      assert hashes[..|hashes|] == hashes;
      ok := true;
    }

    // ------------------------------------------------------------------- counters

    /** Count one wrong code, lock at the threshold, and persist at once. */
    method RecordMfaFailure(p: Policy, now: nat)
      requires Settled() && hasMfaRow
      modifies this`failedCount, this`lockoutCount, this`lockedUntil, this`committed
      ensures Settled() && committed == old(committed).(mfa := Some(AfterFailure(old(committed).mfa.value, p, now)))
    {
      failedCount := failedCount + 1;
      if failedCount >= p.mfaThreshold {
        lockoutCount := lockoutCount + 1;
        lockedUntil := Some(now + LockoutSeconds(p, lockoutCount) * MICROS);
        failedCount := 0;
      }
      Commit();
    }

    /** Verify and consume one code. A wrong one is counted and committed; a good
        one is pending until the caller commits. */
    method SpendCode(p: Policy, c: Presented, now: nat) returns (means: Option<Means>)
      requires Settled() && HasFactor(committed) && c != Nothing
      modifies this
      ensures match Spend(old(committed), p, c, now)
        case Wrong => means == None && Settled() && committed == Failed(old(committed), p, now).user
        case Spends(v, m) => means == Some(m) && Working() == v && committed == old(committed)
    {
      match c {
        case TotpCode(code) =>
          var step := FindMatchingStep(p.generator, seed.value, code, StepAt(now));
          if step.None? || (lastUsedStep.Some? && step.value <= lastUsedStep.value) {
            RecordMfaFailure(p, now);
            return None;
          }
          lastUsedStep := step;
          means := Some(ByStep(step.value));
        case RecoveryText(h) =>
          var spent := ConsumeRecoveryCode(h, now);
          if !spent {
            RecordMfaFailure(p, now);
            return None;
          }
          means := Some(ByRecovery(h));
      }
      failedCount, lockoutCount, lockedUntil := 0, 0, None;
    }

    /** Why no code can be checked now: no confirmed factor, or a standing lockout. */
    function FactorRefusal(now: nat): (r: Option<AuthError>)
      reads this
      ensures r == if !HasFactor(Working()) then Some(NotEnrolled)
                   else if LockedAt(lockedUntil, now) then Some(MfaLocked(RetryAfter(lockedUntil, now))) else None
    {
      if !hasMfaRow || confirmedAt.None? || seed.None? then Some(NotEnrolled)
      else if LockedAt(lockedUntil, now) then Some(MfaLocked(RetryAfter(lockedUntil, now)))
      else None
    }

    /** Plant a seed, in a fresh row or over an unconfirmed one. */
    method PlantSeed(newSeed: Seed)
      requires Row().Some? ==> confirmedAt.None?
      modifies this`hasMfaRow, this`seed, this`confirmedAt, this`lastUsedStep, this`failedCount, this`lockoutCount,
               this`lockedUntil
      ensures Row() == Some(if old(Row()).None? then MfaRow(Some(newSeed), None, None, 0, 0, None)
                            else old(Row()).value.(seed := Some(newSeed), lastUsedStep := None, failedCount := 0))
    {
      if !hasMfaRow {
        hasMfaRow, confirmedAt, lockoutCount, lockedUntil := true, None, 0, None;
      }
      seed, lastUsedStep, failedCount := Some(newSeed), None, 0;
    }

    method Activate(step: int, now: nat)
      requires hasMfaRow
      modifies this`confirmedAt, this`lastUsedStep, this`failedCount, this`lockoutCount, this`lockedUntil
      ensures Row() == Some(Unlocked(old(Row()).value).(confirmedAt := Some(now), lastUsedStep := Some(step)))
    {
      confirmedAt, lastUsedStep := Some(now), Some(step);
      failedCount, lockoutCount, lockedUntil := 0, 0, None;
    }

    method ClearFactor()
      requires hasMfaRow
      modifies this`seed, this`confirmedAt, this`lastUsedStep
      ensures Row() == Some(old(Row()).value.(seed := None, confirmedAt := None, lastUsedStep := None))
    {
      seed, confirmedAt, lastUsedStep := None, None, None;
    }

    /** Burn the standing set and store a fresh one. */
    method ReplaceRecoveryCodes(hashes: seq<CodeHash>, now: nat) returns (ok: bool)
      modifies this`codes
      ensures ok == Insertable(old(codes), hashes)
      ensures ok ==> codes == Inserted(Burned(old(codes), now), hashes)
    {
      BurnRecoveryCodes(now);
      BurningKeepsKeys(old(codes), now, hashes);
      ok := InsertRecoveryCodes(hashes);
    }

    /** Every session out and one fresh unassured session in. */
    method RotateSessions(current: SessionId, id: SessionId, now: nat)
      modifies this`sessions
      ensures sessions == Rotated(old(sessions), current, id, now)
    {
      RevokeOtherSessions(current, now);
      RevokeSession(current, now);
      sessions := sessions[id := SessionRow(now, now, None, None)];
    }

    // ------------------------------------------------------------------- requests

    method Login(p: Policy, submitted: Password, id: SessionId, now: nat) returns (reply: Reply)
      requires Settled()
      modifies this
      ensures Settled() && Outcome(committed, reply, None) == Mfa.Login(old(committed), p, submitted, id, now)
    {
      if disabled {
        return Refused(InvalidCredentials);
      }
      if LockedAt(loginLockedUntil, now) {
        return Refused(AccountLocked(RetryAfter(loginLockedUntil, now)));
      }
      if password != submitted {
        failedLoginCount := failedLoginCount + 1;
        if failedLoginCount >= p.loginThreshold {
          loginLockedUntil := Some(now + p.loginLockout * MICROS);
          failedLoginCount := 0;
        }
        Commit();
        return Refused(InvalidCredentials);
      }
      failedLoginCount, loginLockedUntil := 0, None;
      sessions := sessions[id := SessionRow(now, now, None, None)];
      Commit();
      reply := Opened(id);
    }

    method Logout(session: SessionId, now: nat)
      requires Settled()
      modifies this
      ensures Settled() && committed == Mfa.Logout(old(committed), session, now).user
    {
      RevokeSession(session, now);
      Commit();
    }

    method ChangePassword(session: SessionId, current: Password, next: Password, id: SessionId, now: nat)
        returns (reply: Reply)
      requires Settled()
      modifies this
      ensures Settled()
      ensures Outcome(committed, reply, None) == Mfa.ChangePassword(old(committed), session, current, next, id, now)
    {
      if password != current {
        return Refused(WrongPassword);
      }
      password := next;
      RotateSessions(session, id, now);
      Commit();
      reply := Opened(id);
    }

    method EnrollMfa(submitted: Password, newSeed: Seed) returns (reply: Reply)
      requires Settled()
      modifies this
      ensures Settled() && Outcome(committed, reply, None) == Enroll(old(committed), submitted, newSeed)
    {
      if password != submitted {
        return Refused(WrongPassword);
      }
      if hasMfaRow && confirmedAt.Some? {
        return Refused(AlreadyEnrolled);
      }
      PlantSeed(newSeed);
      Commit();
      reply := Done;
    }

    method ConfirmMfa(p: Policy, session: SessionId, code: Code, hashes: seq<CodeHash>, now: nat)
        returns (reply: Reply, accepted: Option<Acceptance>)
      requires Settled()
      modifies this
      ensures Settled() && Outcome(committed, reply, accepted) == Confirm(old(committed), p, session, code, hashes, now)
    {
      if !hasMfaRow || seed.None? {
        return Refused(NotEnrolled), None;
      }
      if confirmedAt.Some? {
        return Refused(AlreadyEnrolled), None;
      }
      if LockedAt(lockedUntil, now) {
        return Refused(MfaLocked(RetryAfter(lockedUntil, now))), None;
      }
      var step := FindMatchingStep(p.generator, seed.value, code, StepAt(now));
      if step.None? {
        RecordMfaFailure(p, now);
        return Refused(InvalidCode), None;
      }
      Activate(step.value, now);
      reply := AssureAndMint(session, hashes, now);
      if reply != Done {
        Rollback();
        return reply, None;
      }
      Commit();
      return Done, Some(Acceptance(ByStep(step.value), Some(session), now));
    }

    /** The rest of a confirmation: assure the caller, revoke the others, and mint
        the recovery codes; either may refuse. */
    method AssureAndMint(session: SessionId, hashes: seq<CodeHash>, now: nat) returns (reply: Reply)
      modifies this`sessions, this`codes
      ensures reply == if !IsLive(old(sessions), session) then Refused(SessionRevoked)
                       else if !Insertable(old(codes), hashes) then Refused(CodeCollision) else Done
      ensures reply.Done? ==>
        && sessions == RevokeOthers(Stamp(old(sessions), session, now), session, now)
        && codes == Inserted(Burned(old(codes), now), hashes)
    {
      var stamped := StampSessionAssurance(session, now);
      if !stamped {
        return Refused(SessionRevoked);
      }
      RevokeOtherSessions(session, now);
      var inserted := ReplaceRecoveryCodes(hashes, now);
      reply := if inserted then Done else Refused(CodeCollision);
    }

    method VerifyMfa(p: Policy, session: SessionId, pending: bool, c: Presented, id: SessionId, now: nat)
        returns (reply: Reply, accepted: Option<Acceptance>)
      requires Settled()
      modifies this
      ensures Settled() && Outcome(committed, reply, accepted) == Verify(old(committed), p, session, pending, c, id, now)
    {
      var refusal := FactorRefusal(now);
      if refusal.Some? {
        return Refused(refusal.value), None;
      }
      if c == Nothing {
        return Refused(NoCode), None;
      }
      var means := SpendCode(p, c, now);
      if means.None? {
        return Refused(InvalidCode), None;
      }
      if !pending {
        var stamped := StampSessionAssurance(session, now);
        if !stamped {
          Rollback();
          return Refused(SessionRevoked), None;
        }
        Commit();
        return Done, Some(Acceptance(means.value, Some(session), now));
      }
      RevokeSession(session, now);
      sessions := sessions[id := SessionRow(now, now, None, Some(now))];
      Commit();
      return Opened(id), Some(Acceptance(means.value, Some(id), now));
    }

    /** Drop the factor and its codes, and rotate. */
    method RemoveFactor(session: SessionId, id: SessionId, now: nat)
      requires hasMfaRow
      modifies this`seed, this`confirmedAt, this`lastUsedStep, this`codes, this`sessions
      ensures Row() == Some(old(Row()).value.(seed := None, confirmedAt := None, lastUsedStep := None))
      ensures codes == Burned(old(codes), now) && sessions == Rotated(old(sessions), session, id, now)
    {
      ClearFactor();
      BurnRecoveryCodes(now);
      RotateSessions(session, id, now);
    }

    method DisableMfa(p: Policy, session: SessionId, submitted: Password, c: Presented, id: SessionId, now: nat)
        returns (reply: Reply, accepted: Option<Acceptance>)
      requires Settled()
      modifies this
      ensures Settled() && Outcome(committed, reply, accepted) == Disable(old(committed), p, session, submitted, c, id, now)
    {
      var refusal := FactorRefusal(now);
      if refusal.Some? {
        return Refused(refusal.value), None;
      }
      if password != submitted {
        return Refused(WrongPassword), None;
      }
      if c == Nothing {
        return Refused(NoCode), None;
      }
      var means := SpendCode(p, c, now);
      if means.None? {
        return Refused(InvalidCode), None;
      }
      RemoveFactor(session, id, now);
      Commit();
      return Opened(id), Some(Acceptance(means.value, None, now));
    }

    method RegenerateRecoveryCodes(submitted: Password, hashes: seq<CodeHash>, now: nat) returns (reply: Reply)
      requires Settled()
      modifies this
      ensures Settled() && Outcome(committed, reply, None) == Regenerate(old(committed), submitted, hashes, now)
    {
      if password != submitted {
        return Refused(WrongPassword);
      }
      if !hasMfaRow || confirmedAt.None? || seed.None? {
        return Refused(NotEnrolled);
      }
      var inserted := ReplaceRecoveryCodes(hashes, now);
      if !inserted {
        Rollback();
        return Refused(CodeCollision);
      }
      Commit();
      reply := Done;
    }
  }

  /** Burning frees no hash: what could be inserted before can be after. */
  lemma BurningKeepsKeys(codes: map<CodeHash, RecoveryCode>, now: nat, hashes: seq<CodeHash>)
    ensures Insertable(Burned(codes, now), hashes) <==> Insertable(codes, hashes)
  {
    assert Burned(codes, now).Keys == codes.Keys;
  }

  lemma NotInsertable(codes: map<CodeHash, RecoveryCode>, hashes: seq<CodeHash>, i: nat)
    requires i < |hashes| && (hashes[i] in codes || hashes[i] in hashes[..i])
    ensures !Insertable(codes, hashes)
  {
    if hashes[i] in hashes[..i] {
      var j :| 0 <= j < i && hashes[..i][j] == hashes[i];
      assert hashes[j] == hashes[i];
    }
  }
}
