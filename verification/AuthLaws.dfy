/** What each authentication request answers and commits, exactly when. */
module AuthLaws {
  import opened Options
  import opened Totp
  import opened Mfa
  import MfaRuns

  // ------------------------------------------------------------------- passwords

  /** An instant before which something is locked. */
  predicate Standing(until: Option<nat>, now: nat) {
    until.Some? && now < until.value
  }

  /** The advertised delay outlasts the lock, by at most a second. */
  predicate Enough(retry: nat, until: nat, now: nat) {
    until <= now + retry * 1_000_000 <= until + 1_000_000
  }

  /** A login opens a session exactly for an enabled user with no standing lock and
      the right password; then it clears the counter and adds one live session
      without assurance. A wrong password counts, and at the threshold locks and
      starts over; a disabled user and a locked account change nothing. */
  lemma LoggingInMeans(u: User, p: Policy, password: Password, id: SessionId, now: nat)
    ensures var o, c := Login(u, p, password, id, now), u.credential;
      var open, right := !u.disabled && !Standing(c.lockedUntil, now), password == c.password;
      && (o.reply == Opened(id) <==> open && right)
      && (o.reply.Refused? && o.reply.error.AccountLocked? <==> !u.disabled && Standing(c.lockedUntil, now))
      && (o.reply.Refused? && o.reply.error.AccountLocked? ==> Enough(o.reply.error.retryAfter, c.lockedUntil.value, now))
      && (o.reply == Refused(InvalidCredentials) <==> u.disabled || (open && !right))
      && o.accepted == None
      && (if open && right then
            o.user == u.(credential := Credential(c.password, 0, None),
                         sessions := u.sessions[id := SessionRow(now, now, None, None)])
          else if open then
            o.user == u.(credential := if c.failedLoginCount + 1 >= p.loginThreshold
                                       then Credential(c.password, 0, Some(now + p.loginLockout * 1_000_000))
                                       else Credential(c.password, c.failedLoginCount + 1, c.lockedUntil))
          else o.user == u)
  {
  }

  /** Logging out revokes exactly the session, now, unless it already was. */
  lemma LoggingOutMeans(u: User, session: SessionId, now: nat)
    ensures var o := Logout(u, session, now);
      && o.user == u.(sessions := o.user.sessions) && o.user.sessions.Keys == u.sessions.Keys
      && LiveSessions(o.user.sessions) == LiveSessions(u.sessions) - {session}
      && (forall i :: i in u.sessions && !(i == session && u.sessions[i].revokedAt.None?) ==>
            o.user.sessions[i] == u.sessions[i])
      && (session in u.sessions && u.sessions[session].revokedAt.None? ==>
            o.user.sessions[session] == u.sessions[session].(revokedAt := Some(now)))
  {
  }

  /** Every session that was live is revoked now, every other row stands, and `id`
      is fresh and without assurance. */
  predicate AllRotated(before: map<SessionId, SessionRow>, after: map<SessionId, SessionRow>, id: SessionId, now: nat) {
    && after.Keys == before.Keys + {id} && after[id] == SessionRow(now, now, None, None)
    && forall i :: i in before ==>
         after[i] == if before[i].revokedAt.None? then before[i].(revokedAt := Some(now)) else before[i]
  }

  lemma RotatedMeans(sessions: map<SessionId, SessionRow>, current: SessionId, id: SessionId, now: nat)
    requires id !in sessions
    ensures AllRotated(sessions, Rotated(sessions, current, id, now), id, now)
  {
  }

  /** A password change succeeds exactly with the right password, stores the new one
      and rotates every session. */
  lemma ChangingMeans(u: User, session: SessionId, current: Password, next: Password, id: SessionId, now: nat)
    requires id !in u.sessions
    ensures var o := ChangePassword(u, session, current, next, id, now);
      if current != u.credential.password then o == Outcome(u, Refused(WrongPassword), None)
      else
        && o.reply == Opened(id) && o.accepted == None
        && o.user == u.(credential := u.credential.(password := next), sessions := o.user.sessions)
        && AllRotated(u.sessions, o.user.sessions, id, now)
  {
    RotatedMeans(u.sessions, session, id, now);
  }

  /** After a change, the new password logs in wherever the old one did, and the old
      one no longer does. */
  lemma TheNewPasswordCounts(
      u: User, p: Policy, session: SessionId, current: Password, next: Password, id: SessionId, other: SessionId, now: nat, later: nat)
    requires current == u.credential.password && next != current && !u.disabled
    requires !Standing(u.credential.lockedUntil, later)
    ensures var v := ChangePassword(u, session, current, next, id, now).user;
      && Login(v, p, next, other, later).reply == Opened(other)
      && Login(v, p, current, other, later).reply == Refused(InvalidCredentials)
  {
  }

  // ---------------------------------------------------------------- enrolling

  /** Enrolling succeeds exactly with the password and no confirmed factor. It plants
      the seed and clears the step and the failure counter; escalation and a
      standing lock survive a restart. */
  lemma EnrollingMeans(u: User, password: Password, seed: Seed)
    ensures var o := Enroll(u, password, seed);
      && (o.reply == Done <==> password == u.credential.password && !Confirmed(u))
      && (o.reply == Refused(WrongPassword) <==> password != u.credential.password)
      && (o.reply == Refused(AlreadyEnrolled) <==> password == u.credential.password && Confirmed(u))
      && o.accepted == None
      && (if o.reply != Done then o.user == u
          else
            o.user == u.(mfa := Some(MfaRow(Some(seed), None, None, 0,
              if u.mfa.Some? then u.mfa.value.lockoutCount else 0, if u.mfa.Some? then u.mfa.value.lockedUntil else None))))
  {
  }

  // ------------------------------------------------------------- codes and steps

  /** The earliest step within one of the clock's whose code this is. */
  predicate IsMatch(g: Generator, seed: Seed, code: Code, now: nat, step: int) {
    && StepAt(now) - 1 <= step <= StepAt(now) + 1 && g(seed, step) == code
    && forall k :: StepAt(now) - 1 <= k < step ==> g(seed, k) != code
  }

  predicate HasMatch(g: Generator, seed: Seed, code: Code, now: nat) {
    exists step :: StepAt(now) - 1 <= step <= StepAt(now) + 1 && g(seed, step) == code
  }

  /** The presented code is good: the step it matches is later than the last one
      used, or it is a recovery code neither used nor superseded. */
  predicate Good(u: User, p: Policy, c: Presented, now: nat) {
    && u.mfa.Some? && u.mfa.value.seed.Some? &&
    match c
    case TotpCode(code) =>
      exists step :: StepAt(now) - 1 <= step <= StepAt(now) + 1
        && IsMatch(p.generator, u.mfa.value.seed.value, code, now, step)
        && (u.mfa.value.lastUsedStep.Some? ==> u.mfa.value.lastUsedStep.value < step)
    case RecoveryText(h) => h in u.codes && u.codes[h].usedAt.None? && u.codes[h].supersededAt.None?
    case Nothing => false
  }

  /** What spending a good code leaves: the step or the code is used, the counters
      are cleared, and nothing else moved. */
  predicate Used(u: User, p: Policy, c: Presented, now: nat, v: User, means: Means) {
    && u.mfa.Some? && u.mfa.value.seed.Some? &&
    var row := u.mfa.value;
    match c
    case TotpCode(code) =>
      && means.ByStep? && IsMatch(p.generator, row.seed.value, code, now, means.step)
      && v == u.(mfa := Some(MfaRow(row.seed, row.confirmedAt, Some(means.step), 0, 0, None)))
    case RecoveryText(h) =>
      && means == ByRecovery(h) && h in u.codes
      && v == u.(mfa := Some(MfaRow(row.seed, row.confirmedAt, row.lastUsedStep, 0, 0, None)),
                 codes := u.codes[h := RecoveryCode(Some(now), u.codes[h].supersededAt)])
    case Nothing => false
  }

  lemma SpendingMeans(u: User, p: Policy, c: Presented, now: nat)
    requires HasFactor(u) && c != Nothing
    ensures Spend(u, p, c, now).Spends? <==> Good(u, p, c, now)
    ensures Spend(u, p, c, now).Spends? ==> Used(u, p, c, now, Spend(u, p, c, now).user, Spend(u, p, c, now).means)
  {
    if c.TotpCode? {
      var seed := u.mfa.value.seed.value;
      var r := MatchingStep(p.generator, seed, c.code, StepAt(now));
      if r.Some? {
        assert IsMatch(p.generator, seed, c.code, now, r.value);
      }
      forall step | IsMatch(p.generator, seed, c.code, now, step) ensures r == Some(step) {
        assert r.Some?;
      }
    }
  }

  /** A wrong code counts; at the threshold it is a lockout of the next duration. */
  predicate Counted(u: User, p: Policy, now: nat, v: User) {
    && u.mfa.Some? && var row := u.mfa.value;
    v == u.(mfa := Some(
      if row.failedCount + 1 >= p.mfaThreshold
      then row.(failedCount := 0, lockoutCount := row.lockoutCount + 1,
                lockedUntil := Some(now + LockoutSeconds(p, row.lockoutCount + 1) * 1_000_000))
      else row.(failedCount := row.failedCount + 1)))
  }

  /** The durations: the base first, then doubling, never above the cap. */
  lemma LockoutDurations(p: Policy, k: nat)
    requires p.Valid() && k >= 1
    ensures LockoutSeconds(p, 1) == p.lockoutBase
    ensures LockoutSeconds(p, k) <= p.lockoutCap
    ensures LockoutSeconds(p, k + 1)
         == (if 2 * LockoutSeconds(p, k) <= p.lockoutCap then 2 * LockoutSeconds(p, k) else p.lockoutCap)
  {
    Doubles(p.lockoutBase, Pow2(k - 1));
  }

  lemma Doubles(b: nat, x: nat)
    ensures b * (2 * x) == 2 * (b * x)
  {
  }

  // ------------------------------------------------------------------ confirming

  /** The fresh set replaces the old: its codes are live and no other is; a code that
      was live is superseded now, and every other row stands. */
  ghost predicate Replaced(before: map<CodeHash, RecoveryCode>, after: map<CodeHash, RecoveryCode>, hashes: seq<CodeHash>, now: nat) {
    && (forall h :: h in after <==> h in before || h in hashes)
    && (forall h :: h in hashes ==> h in after && after[h] == RecoveryCode(None, None))
    && (forall h :: h in before && h !in hashes ==>
          h in after && after[h] == if before[h].usedAt.None? && before[h].supersededAt.None?
                                    then RecoveryCode(None, Some(now)) else before[h])
  }

  /** No hash of the set was ever the user's, and none occurs twice. */
  predicate New(codes: map<CodeHash, RecoveryCode>, hashes: seq<CodeHash>) {
    && (forall h :: h in hashes ==> h !in codes)
    && (forall i, j :: 0 <= i < |hashes| && 0 <= j < |hashes| && hashes[i] == hashes[j] ==> i == j)
  }

  lemma ReplacingMeans(codes: map<CodeHash, RecoveryCode>, hashes: seq<CodeHash>, now: nat)
    ensures Insertable(codes, hashes) <==> New(codes, hashes)
    ensures Insertable(codes, hashes) ==> Replaced(codes, Inserted(Burned(codes, now), hashes), hashes, now)
  {
    if New(codes, hashes) {
      forall i, j | 0 <= i < j < |hashes| ensures hashes[i] != hashes[j] {
      }
    }
  }

  predicate Alive(sessions: map<SessionId, SessionRow>, id: SessionId) {
    id in sessions && sessions[id].revokedAt.None?
  }

  /** The caller is assured now and every other live session is revoked now. */
  predicate OnlyAssured(before: map<SessionId, SessionRow>, after: map<SessionId, SessionRow>, id: SessionId, now: nat) {
    && Alive(before, id) && after.Keys == before.Keys
    && after[id] == before[id].(mfaVerifiedAt := Some(now))
    && forall i :: i in before && i != id ==>
         after[i] == if before[i].revokedAt.None? then before[i].(revokedAt := Some(now)) else before[i]
  }

  /** Confirming activates the factor exactly for a pending enrollment that is not
      locked, a code in the window, a live session and a fresh set of codes. The set
      is live, the caller alone stays signed in, assured, and the matched step is
      used. A wrong code only counts; every other refusal changes nothing. */
  lemma ConfirmingMeans(u: User, p: Policy, session: SessionId, code: Code, hashes: seq<CodeHash>, now: nat)
    ensures var o := Confirm(u, p, session, code, hashes, now);
      var pending := u.mfa.Some? && u.mfa.value.seed.Some? && u.mfa.value.confirmedAt.None?;
      var open := pending && !Standing(u.mfa.value.lockedUntil, now);
      var right := open && HasMatch(p.generator, u.mfa.value.seed.value, code, now);
      && (o.reply == Done <==> right && Alive(u.sessions, session) && New(u.codes, hashes))
      && (o.reply == Refused(InvalidCode) <==> open && !right)
      && (o.reply == Refused(NotEnrolled) <==> u.mfa.None? || u.mfa.value.seed.None?)
      && (o.reply == Refused(SessionRevoked) <==> right && !Alive(u.sessions, session))
      && (o.reply.Refused? && o.reply.error.MfaLocked? <==> pending && !open)
      && (o.reply.Refused? && o.reply.error.MfaLocked? ==>
            Enough(o.reply.error.retryAfter, u.mfa.value.lockedUntil.value, now))
      && (o.accepted.Some? <==> o.reply == Done)
      && (if o.reply == Done then Activated(u, p, session, code, hashes, now, o)
          else if o.reply == Refused(InvalidCode) then Counted(u, p, now, o.user)
          else o.user == u)
  {
    if u.mfa.Some? && u.mfa.value.seed.Some? {
      ReplacingMeans(u.codes, hashes, now);
      var r := MatchingStep(p.generator, u.mfa.value.seed.value, code, StepAt(now));
      if r.Some? {
        assert IsMatch(p.generator, u.mfa.value.seed.value, code, now, r.value);
      }
    }
  }

  ghost predicate Activated(u: User, p: Policy, session: SessionId, code: Code, hashes: seq<CodeHash>, now: nat, o: Outcome) {
    && u.mfa.Some? && u.mfa.value.seed.Some? && o.accepted.Some? && o.accepted.value.means.ByStep?
    && var step := o.accepted.value.means.step;
       && IsMatch(p.generator, u.mfa.value.seed.value, code, now, step)
       && o.accepted.value == Acceptance(ByStep(step), Some(session), now)
       && o.user == u.(mfa := Some(MfaRow(u.mfa.value.seed, Some(now), Some(step), 0, 0, None)),
                       codes := o.user.codes, sessions := o.user.sessions)
       && Replaced(u.codes, o.user.codes, hashes, now) && OnlyAssured(u.sessions, o.user.sessions, session, now)
  }

  // ------------------------------------------------------ verifying and disabling

  /** A code can be checked: a confirmed factor, and no standing lock. */
  predicate Checkable(u: User, now: nat) {
    && u.mfa.Some? && u.mfa.value.seed.Some? && u.mfa.value.confirmedAt.Some?
    && !Standing(u.mfa.value.lockedUntil, now)
  }

  /** A confirmed factor under a standing lock, and nothing else, is told to wait. */
  predicate ToldToWait(u: User, now: nat, reply: Reply) {
    var locked := u.mfa.Some? && u.mfa.value.seed.Some? && u.mfa.value.confirmedAt.Some? && Standing(u.mfa.value.lockedUntil, now);
    && (reply.Refused? && reply.error.MfaLocked? <==> locked)
    && (locked ==> reply.Refused? && reply.error.MfaLocked? && Enough(reply.error.retryAfter, u.mfa.value.lockedUntil.value, now))
  }

  /** Verifying accepts exactly a good code, on a live session unless the login was
      pending. A pending login ends its session and opens an assured one; a step-up
      stamps the caller. A code that is not good only counts. */
  lemma VerifyingMeans(u: User, p: Policy, session: SessionId, pending: bool, c: Presented, id: SessionId, now: nat)
    ensures var o := Verify(u, p, session, pending, c, id, now);
      && (o.accepted.Some? <==> Checkable(u, now) && Good(u, p, c, now) && (pending || Alive(u.sessions, session)))
      && ToldToWait(u, now, o.reply)
      && (o.reply == Refused(InvalidCode) <==> Checkable(u, now) && c != Nothing && !Good(u, p, c, now))
      && (if o.accepted.Some? then Accepted(u, p, session, pending, c, id, now, o)
          else if o.reply == Refused(InvalidCode) then Counted(u, p, now, o.user)
          else o.user == u && o.reply.Refused?)
  {
    if HasFactor(u) && c != Nothing {
      SpendingMeans(u, p, c, now);
    }
  }

  predicate Accepted(u: User, p: Policy, session: SessionId, pending: bool, c: Presented, id: SessionId, now: nat, o: Outcome)
    requires o.accepted.Some?
  {
    && o.accepted.value.at == now
    && Used(u, p, c, now, o.user.(sessions := u.sessions), o.accepted.value.means)
    && if pending then
         && o.reply == Opened(id) && o.accepted.value.stamped == Some(id)
         && o.user.sessions == (if Alive(u.sessions, session)
              then u.sessions[session := u.sessions[session].(revokedAt := Some(now))] else u.sessions)
              [id := SessionRow(now, now, None, Some(now))]
       else
         && o.reply == Done && o.accepted.value.stamped == Some(session) && Alive(u.sessions, session)
         && o.user.sessions == u.sessions[session := u.sessions[session].(mfaVerifiedAt := Some(now))]
  }

  /** Every code that was live is superseded now, and every other row stands. */
  predicate Superseded(before: map<CodeHash, RecoveryCode>, after: map<CodeHash, RecoveryCode>, now: nat) {
    && after.Keys == before.Keys
    && forall h :: h in before ==>
         after[h] == if before[h].usedAt.None? && before[h].supersededAt.None? then RecoveryCode(None, Some(now)) else before[h]
  }

  /** Disabling accepts exactly a good code beside the password. The factor and every
      live code are gone, and all sessions rotate. */
  lemma DisablingMeans(u: User, p: Policy, session: SessionId, password: Password, c: Presented, id: SessionId, now: nat)
    requires id !in u.sessions
    ensures var o := Disable(u, p, session, password, c, id, now);
      && (o.accepted.Some? <==> Checkable(u, now) && password == u.credential.password && Good(u, p, c, now))
      && ToldToWait(u, now, o.reply)
      && (o.reply == Refused(InvalidCode) <==>
            Checkable(u, now) && password == u.credential.password && c != Nothing && !Good(u, p, c, now))
      && (o.reply == Refused(WrongPassword) <==> Checkable(u, now) && password != u.credential.password)
      && (if o.accepted.Some? then
            && o.reply == Opened(id) && o.accepted.value.stamped == None && o.accepted.value.at == now
            && o.user.credential == u.credential && LiveCodes(o.user.codes) == {}
            && Superseded(
                 if c.RecoveryText? then u.codes[c.hash := RecoveryCode(Some(now), None)] else u.codes, o.user.codes, now)
            && o.user.mfa == Some(MfaRow(None, None, None, 0, 0, None))
            && AllRotated(u.sessions, o.user.sessions, id, now)
          else if o.reply == Refused(InvalidCode) then Counted(u, p, now, o.user)
          else o.user == u && o.reply.Refused?)
  {
    if HasFactor(u) && c != Nothing {
      SpendingMeans(u, p, c, now);
      RotatedMeans(u.sessions, session, id, now);
    }
  }

  /** Regenerating succeeds exactly with the password, a confirmed factor and a fresh
      set, and replaces the codes alone. */
  lemma RegeneratingMeans(u: User, password: Password, hashes: seq<CodeHash>, now: nat)
    ensures var o := Regenerate(u, password, hashes, now);
      && o.accepted == None
      && (o.reply == Done <==>
            && password == u.credential.password && u.mfa.Some? && u.mfa.value.confirmedAt.Some? && u.mfa.value.seed.Some?
            && New(u.codes, hashes))
      && (o.reply == Refused(WrongPassword) <==> password != u.credential.password)
      && (if o.reply == Done
          then o.user == u.(codes := o.user.codes) && Replaced(u.codes, o.user.codes, hashes, now)
          else o.user == u && o.reply.Refused?)
  {
    ReplacingMeans(u.codes, hashes, now);
  }

  // -------------------------------------------------------------- session policy

  /** A session resolves exactly while it is live, its user enabled, and both limits
      last; a confirmed factor it has not proved makes it await one. */
  lemma ResolvingMeans(u: User, p: Policy, id: SessionId, allowPending: bool, now: nat)
    ensures var r := Resolve(u, p, id, allowPending, now);
      var good := Alive(u.sessions, id) && !u.disabled
        && now < u.sessions[id].createdAt + p.absolute * 1_000_000
        && now < u.sessions[id].lastSeenAt + p.idle * 1_000_000;
      var awaits := good && Confirmed(u) && u.sessions[id].mfaVerifiedAt.None?;
      && (r == Expired <==> !good)
      && (r == AwaitsFactor <==> awaits && !allowPending)
      && (r.Current? <==> good && (allowPending || !awaits))
      && (r.Current? ==> r.enrolled == Confirmed(u) && r.verifiedAt == u.sessions[id].mfaVerifiedAt)
  {
  }

  /** The gate admits exactly a current session of an enrolled user whose assurance is
      younger than the limit. */
  lemma TheGateMeans(u: User, p: Policy, id: SessionId, now: nat)
    ensures Assured(u, p, id, now) <==>
      && Resolve(u, p, id, false, now).Current? && Confirmed(u) && u.sessions[id].mfaVerifiedAt.Some?
      && now < u.sessions[id].mfaVerifiedAt.value + p.assuranceMaxAge * 1_000_000
  {
  }
}
