/** Serialized runs of the authentication requests of one user. A request's view
    of its session may be stale: any session id and any pending flag can arrive. */
module MfaRuns {
  import opened Options
  import opened Totp
  import opened Mfa

  /** An acceptance on record, with the enrollment whose factor it was made by. */
  datatype Entry = Entry(acceptance: Acceptance, enrollment: nat)

  /** The user's rows, with two histories: how many enrollments were started, and
      every committed acceptance. */
  datatype System = System(user: User, policy: Policy, enrollment: nat, log: seq<Entry>)

  datatype Label =
    | LoginRequest(password: Password, id: SessionId, now: nat)
    | LogoutRequest(session: SessionId, now: nat)
    | PasswordRequest(session: SessionId, password: Password, next: Password, id: SessionId, now: nat)
    | EnrollRequest(password: Password, seed: Seed)
    | ConfirmRequest(session: SessionId, code: Code, hashes: seq<CodeHash>, now: nat)
    | VerifyRequest(session: SessionId, pending: bool, presented: Presented, id: SessionId, now: nat)
    | DisableRequest(session: SessionId, password: Password, presented: Presented, id: SessionId, now: nat)
    | RegenerateRequest(password: Password, hashes: seq<CodeHash>, now: nat)
    | TouchRequest(session: SessionId, now: nat)

  /** Session ids never repeat, and a fresh set has the fixed number of codes. */
  predicate Enabled(u: User, l: Label) {
    match l
    case LoginRequest(_, id, _) => id !in u.sessions
    case PasswordRequest(_, _, _, id, _) => id !in u.sessions
    case VerifyRequest(_, _, _, id, _) => id !in u.sessions
    case DisableRequest(_, _, _, id, _) => id !in u.sessions
    case ConfirmRequest(_, _, hashes, _) => |hashes| == RECOVERY_CODE_COUNT
    case RegenerateRequest(_, hashes, _) => |hashes| == RECOVERY_CODE_COUNT
    case LogoutRequest(_, _) => true
    case EnrollRequest(_, _) => true
    case TouchRequest(_, _) => true
  }

  function Serve(u: User, p: Policy, l: Label): Outcome {
    match l
    case LoginRequest(password, id, now) => Login(u, p, password, id, now)
    case LogoutRequest(session, now) => Logout(u, session, now)
    case PasswordRequest(session, password, next, id, now) => ChangePassword(u, session, password, next, id, now)
    case EnrollRequest(password, seed) => Enroll(u, password, seed)
    case ConfirmRequest(session, code, hashes, now) => Confirm(u, p, session, code, hashes, now)
    case VerifyRequest(session, pending, c, id, now) => Verify(u, p, session, pending, c, id, now)
    case DisableRequest(session, password, c, id, now) => Disable(u, p, session, password, c, id, now)
    case RegenerateRequest(password, hashes, now) => Regenerate(u, password, hashes, now)
    case TouchRequest(session, now) => Outcome(Touched(u, session, now), Done, None)
  }

  /** One request. A step that is not enabled changes nothing. */
  function Apply(s: System, l: Label): System {
    if !Enabled(s.user, l) then s
    else
      var o := Serve(s.user, s.policy, l);
      System(o.user, s.policy,
             s.enrollment + (if l.EnrollRequest? && o.reply.Done? then 1 else 0),
             s.log + (if o.accepted.Some? then [Entry(o.accepted.value, s.enrollment)] else []))
  }

  function Run(s: System, labels: seq<Label>): System
    decreases |labels|
  {
    if labels == [] then s else Run(Apply(s, labels[0]), labels[1..])
  }

  /** A freshly registered user. */
  predicate Initial(s: System) {
    && s.policy.Valid() && s.user.mfa == None && s.user.codes == map[] && s.user.sessions == map[]
    && s.user.credential.failedLoginCount == 0 && s.user.credential.lockedUntil == None
    && s.log == [] && s.enrollment == 0
  }

  // ------------------------------------------------------------------- invariants

  predicate FactorHolds(u: User, p: Policy) {
    && p.Valid()
    && (u.mfa.Some? ==> u.mfa.value.failedCount < p.mfaThreshold)
    && (Confirmed(u) ==> u.mfa.value.seed.Some? && u.mfa.value.lastUsedStep.Some?)
  }

  predicate CodesHold(u: User) {
    |LiveCodes(u.codes)| <= RECOVERY_CODE_COUNT && (!Confirmed(u) ==> LiveCodes(u.codes) == {})
  }

  /** An acceptance under the present enrollment stamped this session then. */
  ghost predicate Vouched(s: System, id: SessionId, at: nat) {
    exists e :: e in s.log && e.acceptance.stamped == Some(id) && e.acceptance.at == at && e.enrollment == s.enrollment
  }

  /** Assurance is live only under a confirmed factor, and always vouched for. */
  ghost predicate AssuranceHolds(s: System) {
    forall i :: IsLive(s.user.sessions, i) && s.user.sessions[i].mfaVerifiedAt.Some? ==>
      Confirmed(s.user) && Vouched(s, i, s.user.sessions[i].mfaVerifiedAt.value)
  }

  /** The clock was within one step of the accepted one. */
  predicate InWindow(a: Acceptance) {
    a.means.ByStep? ==> StepAt(a.at) - 1 <= a.means.step <= StepAt(a.at) + 1
  }

  predicate Precedes(a: Entry, b: Entry) {
    a.enrollment == b.enrollment && a.acceptance.means.ByStep? && b.acceptance.means.ByStep? ==>
      a.acceptance.means.step < b.acceptance.means.step
  }

  /** The row remembers at least the last step accepted under this enrollment. */
  predicate Remembered(s: System, e: Entry) {
    && e.enrollment <= s.enrollment
    && (e.enrollment == s.enrollment && s.user.mfa.Some? && s.user.mfa.value.seed.Some? ==>
          && Confirmed(s.user)
          && (e.acceptance.means.ByStep? ==>
                s.user.mfa.value.lastUsedStep.Some? && e.acceptance.means.step <= s.user.mfa.value.lastUsedStep.value))
  }

  predicate StepsHold(s: System) {
    && (forall k :: 0 <= k < |s.log| ==> InWindow(s.log[k].acceptance) && Remembered(s, s.log[k]))
    && (forall j, k :: 0 <= j < k < |s.log| ==> Precedes(s.log[j], s.log[k]))
  }

  predicate IsSpent(codes: map<CodeHash, RecoveryCode>, h: CodeHash) {
    h in codes && codes[h].usedAt.Some?
  }

  predicate SpentHolds(s: System) {
    && (forall k :: 0 <= k < |s.log| && s.log[k].acceptance.means.ByRecovery? ==>
          IsSpent(s.user.codes, s.log[k].acceptance.means.hash))
    && (forall j, k :: 0 <= j < k < |s.log| && s.log[j].acceptance.means.ByRecovery? ==>
          s.log[j].acceptance.means != s.log[k].acceptance.means)
  }

  ghost predicate Invariant(s: System) {
    FactorHolds(s.user, s.policy) && CodesHold(s.user) && AssuranceHolds(s) && StepsHold(s) && SpentHolds(s)
  }

  // ----------------------------------------------------------- sets under updates

  lemma BurnedLeavesNone(codes: map<CodeHash, RecoveryCode>, now: nat)
    ensures LiveCodes(Burned(codes, now)) == {}
  {
  }

  lemma InsertedAreLive(codes: map<CodeHash, RecoveryCode>, hashes: seq<CodeHash>)
    requires LiveCodes(codes) == {} && Insertable(codes, hashes)
    ensures LiveCodes(Inserted(codes, hashes)) == (set h | h in hashes)
    ensures |LiveCodes(Inserted(codes, hashes))| <= |hashes|
  {
    var after := Inserted(codes, hashes);
    forall h ensures h in LiveCodes(after) <==> h in hashes {
      if h in codes {
        assert h !in LiveCodes(codes);
      }
    }
    AtMostAsMany(hashes);
  }

  lemma {:induction false} AtMostAsMany(hashes: seq<CodeHash>)
    ensures |set h | h in hashes| <= |hashes|
  {
    if hashes != [] {
      var n := |hashes| - 1;
      AtMostAsMany(hashes[..n]);
      assert (set h | h in hashes) == (set h | h in hashes[..n]) + {hashes[n]};
    }
  }

  lemma SpendingTakesOne(codes: map<CodeHash, RecoveryCode>, h: CodeHash, now: nat)
    requires h in codes && LiveCode(codes[h])
    ensures LiveCodes(Spent(codes, h, now)) == LiveCodes(codes) - {h}
    ensures |LiveCodes(Spent(codes, h, now))| == |LiveCodes(codes)| - 1
  {
    assert LiveCodes(Spent(codes, h, now)) == LiveCodes(codes) - {h};
  }

  lemma RotatedLeavesOne(sessions: map<SessionId, SessionRow>, current: SessionId, id: SessionId, now: nat)
    requires id !in sessions
    ensures LiveSessions(Rotated(sessions, current, id, now)) == {id}
    ensures Rotated(sessions, current, id, now)[id].mfaVerifiedAt == None
  {
  }

  lemma ConfirmedLeavesOne(sessions: map<SessionId, SessionRow>, session: SessionId, now: nat)
    requires IsLive(sessions, session)
    ensures var after := RevokeOthers(Stamp(sessions, session, now), session, now);
      LiveSessions(after) == {session} && after[session].mfaVerifiedAt == Some(now)
  {
  }

  // ---------------------------------------------------------- each request keeps it

  /** A request that leaves factor, codes and assurance alone. */
  lemma QuietStepKeeps(s: System, t: System)
    requires Invariant(s) && t.policy == s.policy && t.log == s.log && t.enrollment == s.enrollment
    requires t.user.mfa == s.user.mfa && t.user.codes == s.user.codes
    requires forall i :: IsLive(t.user.sessions, i) && t.user.sessions[i].mfaVerifiedAt.Some? ==>
      IsLive(s.user.sessions, i) && s.user.sessions[i].mfaVerifiedAt == t.user.sessions[i].mfaVerifiedAt
    ensures Invariant(t)
  {
    AssuranceStands(s, t);
    StepsStand(s, t);
  }

  lemma AssuranceStands(s: System, t: System)
    requires AssuranceHolds(s) && t.log == s.log && t.enrollment == s.enrollment
    requires Confirmed(s.user) ==> Confirmed(t.user)
    requires forall i :: IsLive(t.user.sessions, i) && t.user.sessions[i].mfaVerifiedAt.Some? ==>
      IsLive(s.user.sessions, i) && s.user.sessions[i].mfaVerifiedAt == t.user.sessions[i].mfaVerifiedAt
    ensures AssuranceHolds(t)
  {
    forall i | IsLive(t.user.sessions, i) && t.user.sessions[i].mfaVerifiedAt.Some?
      ensures Vouched(t, i, t.user.sessions[i].mfaVerifiedAt.value)
    {
      assert Vouched(s, i, s.user.sessions[i].mfaVerifiedAt.value);
    }
  }

  lemma StepsStand(s: System, t: System)
    requires StepsHold(s) && t.log == s.log && t.enrollment == s.enrollment
    requires s.user.mfa.Some? && t.user.mfa.Some? && t.user.mfa.value.seed.Some? ==>
      && s.user.mfa.value.seed.Some? && t.user.mfa.value.lastUsedStep == s.user.mfa.value.lastUsedStep
      && t.user.mfa.value.confirmedAt == s.user.mfa.value.confirmedAt
    requires t.user.mfa.Some? ==> s.user.mfa.Some?
    ensures StepsHold(t)
  {
    forall k | 0 <= k < |t.log| ensures Remembered(t, t.log[k]) {
      assert Remembered(s, s.log[k]);
    }
  }

  /** A wrong code leaves nothing behind but the counters. */
  lemma FailureKeeps(s: System, now: nat)
    requires Invariant(s) && s.user.mfa.Some?
    ensures Invariant(s.(user := Failed(s.user, s.policy, now).user))
  {
    var t := s.(user := Failed(s.user, s.policy, now).user);
    AssuranceStands(s, t);
    StepsStand(s, t);
  }

  lemma EnrollKeeps(s: System, password: Password, seed: Seed)
    requires Invariant(s)
    ensures Invariant(Apply(s, EnrollRequest(password, seed)))
  {
    var t := Apply(s, EnrollRequest(password, seed));
    if Enroll(s.user, password, seed).reply.Done? {
      forall k | 0 <= k < |t.log| ensures Remembered(t, t.log[k]) {
        assert Remembered(s, s.log[k]);
      }
      assert !Confirmed(s.user);
    }
  }

  lemma RegenerateKeeps(s: System, password: Password, hashes: seq<CodeHash>, now: nat)
    requires Invariant(s)
    ensures Invariant(Apply(s, RegenerateRequest(password, hashes, now)))
  {
    var l := RegenerateRequest(password, hashes, now);
    var t := Apply(s, l);
    if Enabled(s.user, l) && Regenerate(s.user, password, hashes, now).reply.Done? {
      BurnedLeavesNone(s.user.codes, now);
      InsertedAreLive(Burned(s.user.codes, now), hashes);
      ReplacedStaySpent(s.user.codes, hashes, now);
      AssuranceStands(s, t);
      StepsStand(s, t);
    }
  }

  /** Replacing the set never brings a spent code back. */
  lemma ReplacedStaySpent(codes: map<CodeHash, RecoveryCode>, hashes: seq<CodeHash>, now: nat)
    ensures forall h :: IsSpent(codes, h) ==> IsSpent(Inserted(Burned(codes, now), hashes), h)
    ensures forall h :: IsSpent(codes, h) ==> IsSpent(Burned(codes, now), h)
  {
  }

  /** What accepting one code does to the log. */
  lemma AcceptedStepsHold(s: System, t: System, e: Entry)
    requires StepsHold(s) && t.log == s.log + [e] && t.enrollment == s.enrollment == e.enrollment
    requires InWindow(e.acceptance) && Remembered(t, e)
    requires forall k :: 0 <= k < |s.log| ==> Precedes(s.log[k], e) && Remembered(t, s.log[k])
    ensures StepsHold(t)
  {
  }

  lemma AcceptedSpentHolds(s: System, t: System, e: Entry)
    requires SpentHolds(s) && t.log == s.log + [e]
    requires forall h :: IsSpent(s.user.codes, h) ==> IsSpent(t.user.codes, h)
    requires e.acceptance.means.ByRecovery? ==>
      IsSpent(t.user.codes, e.acceptance.means.hash) && !IsSpent(s.user.codes, e.acceptance.means.hash)
    ensures SpentHolds(t)
  {
  }

  lemma ConfirmKeeps(s: System, session: SessionId, code: Code, hashes: seq<CodeHash>, now: nat)
    requires Invariant(s)
    ensures Invariant(Apply(s, ConfirmRequest(session, code, hashes, now)))
  {
    var l := ConfirmRequest(session, code, hashes, now);
    if Enabled(s.user, l) {
      var o := Confirm(s.user, s.policy, session, code, hashes, now);
      if o.reply.Done? {
        ConfirmationKeeps(s, session, code, hashes, now);
      } else if o.reply == Refused(InvalidCode) {
        FailureKeeps(s, now);
      }
    }
  }

  lemma ConfirmationKeeps(s: System, session: SessionId, code: Code, hashes: seq<CodeHash>, now: nat)
    requires Invariant(s) && |hashes| == RECOVERY_CODE_COUNT
    requires Confirm(s.user, s.policy, session, code, hashes, now).reply.Done?
    ensures Invariant(Apply(s, ConfirmRequest(session, code, hashes, now)))
  {
    var t := Apply(s, ConfirmRequest(session, code, hashes, now));
    var e := t.log[|s.log|];
    BurnedLeavesNone(s.user.codes, now);
    InsertedAreLive(Burned(s.user.codes, now), hashes);
    ReplacedStaySpent(s.user.codes, hashes, now);
    ConfirmationAssures(t, e, session, s.user.sessions, now);
    ConfirmationAddsAStep(s, t, e);
    AcceptedSpentHolds(s, t, e);
  }

  lemma ConfirmationAssures(t: System, e: Entry, session: SessionId, before: map<SessionId, SessionRow>, now: nat)
    requires IsLive(before, session) && Confirmed(t.user) && e in t.log
    requires t.user.sessions == RevokeOthers(Stamp(before, session, now), session, now)
    requires e.acceptance.stamped == Some(session) && e.acceptance.at == now && e.enrollment == t.enrollment
    ensures AssuranceHolds(t)
  {
    ConfirmedLeavesOne(before, session, now);
    assert Vouched(t, session, now);
    assert forall i :: IsLive(t.user.sessions, i) ==> i in LiveSessions(t.user.sessions);
  }

  /** The first step of an enrollment: none can have been accepted before. */
  lemma ConfirmationAddsAStep(s: System, t: System, e: Entry)
    requires StepsHold(s) && !Confirmed(s.user) && s.user.mfa.Some? && s.user.mfa.value.seed.Some?
    requires t.log == s.log + [e] && t.enrollment == s.enrollment == e.enrollment
    requires InWindow(e.acceptance) && Remembered(t, e)
    ensures StepsHold(t)
  {
    forall k | 0 <= k < |s.log| ensures Precedes(s.log[k], e) && Remembered(t, s.log[k]) {
      assert Remembered(s, s.log[k]);
    }
    AcceptedStepsHold(s, t, e);
  }

  // --------------------------------------------------------------- spending a code

  /** What accepting a code means: a later step in the window, or a live recovery
      code that is live no more; counters and lockout reset, nothing else. */
  lemma SpendMeans(u: User, p: Policy, c: Presented, now: nat)
    requires HasFactor(u) && c != Nothing && Spend(u, p, c, now).Spends?
    ensures var Spends(v, means) := Spend(u, p, c, now);
      && v == u.(mfa := v.mfa, codes := v.codes)
      && v.mfa == Some(Unlocked(u.mfa.value).(lastUsedStep := v.mfa.value.lastUsedStep))
      && match means
         case ByStep(step) =>
           && v.codes == u.codes && v.mfa.value.lastUsedStep == Some(step)
           && StepAt(now) - 1 <= step <= StepAt(now) + 1
           && (u.mfa.value.lastUsedStep.Some? ==> u.mfa.value.lastUsedStep.value < step)
         case ByRecovery(h) =>
           && v.mfa.value.lastUsedStep == u.mfa.value.lastUsedStep
           && h in u.codes && LiveCode(u.codes[h]) && v.codes == Spent(u.codes, h, now)
  {
  }

  /** The histories and the codes after an acceptance, sessions aside. */
  lemma SpendKeeps(s: System, c: Presented, now: nat, stamped: Option<SessionId>)
    requires Invariant(s) && HasFactor(s.user) && c != Nothing && Spend(s.user, s.policy, c, now).Spends?
    ensures var Spends(v, means) := Spend(s.user, s.policy, c, now);
      var t := System(v, s.policy, s.enrollment, s.log + [Entry(Acceptance(means, stamped, now), s.enrollment)]);
      FactorHolds(v, s.policy) && CodesHold(v) && StepsHold(t) && SpentHolds(t)
  {
    var Spends(v, means) := Spend(s.user, s.policy, c, now);
    var e := Entry(Acceptance(means, stamped, now), s.enrollment);
    var t := System(v, s.policy, s.enrollment, s.log + [e]);
    SpendMeans(s.user, s.policy, c, now);
    if means.ByRecovery? {
      SpendingTakesOne(s.user.codes, means.hash, now);
    }
    forall k | 0 <= k < |s.log| ensures Precedes(s.log[k], e) && Remembered(t, s.log[k]) {
      assert Remembered(s, s.log[k]);
    }
    AcceptedStepsHold(s, t, e);
    AcceptedSpentHolds(s, t, e);
  }

  /** The session an acceptance stamps is vouched for by it, the others as before. */
  lemma StampedAssuranceHolds(s: System, t: System, e: Entry, id: SessionId)
    requires AssuranceHolds(s) && t.log == s.log + [e] && t.enrollment == s.enrollment == e.enrollment
    requires e.acceptance.stamped == Some(id) && Confirmed(t.user)
    requires forall i :: IsLive(t.user.sessions, i) && t.user.sessions[i].mfaVerifiedAt.Some? ==>
      if i == id then t.user.sessions[i].mfaVerifiedAt == Some(e.acceptance.at)
      else IsLive(s.user.sessions, i) && s.user.sessions[i].mfaVerifiedAt == t.user.sessions[i].mfaVerifiedAt
    ensures AssuranceHolds(t)
  {
    assert e in t.log;
    forall i | IsLive(t.user.sessions, i) && t.user.sessions[i].mfaVerifiedAt.Some?
      ensures Vouched(t, i, t.user.sessions[i].mfaVerifiedAt.value)
    {
      assert i != id ==> Vouched(s, i, s.user.sessions[i].mfaVerifiedAt.value);
    }
  }

  lemma VerifyKeeps(s: System, l: Label)
    requires Invariant(s) && l.VerifyRequest? && Enabled(s.user, l)
    ensures Invariant(Apply(s, l))
  {
    var o := Serve(s.user, s.policy, l);
    if o.accepted.Some? {
      VerificationKeeps(s, l);
    } else if o.reply == Refused(InvalidCode) {
      FailureKeeps(s, l.now);
    } else {
      assert Apply(s, l) == s;
    }
  }

  lemma VerificationKeeps(s: System, l: Label)
    requires Invariant(s) && l.VerifyRequest? && Enabled(s.user, l) && Serve(s.user, s.policy, l).accepted.Some?
    ensures Invariant(Apply(s, l))
  {
    var t := Apply(s, l);
    var id := if l.pending then l.id else l.session;
    SpendMeans(s.user, s.policy, l.presented, l.now);
    SpendKeeps(s, l.presented, l.now, Some(id));
    var e := t.log[|s.log|];
    StampedAssuranceHolds(s, t, e, id);
    SameHistories(s, t, l.presented, l.now, Some(id));
  }

  /** Steps and spent codes depend on the factor and the codes only. */
  lemma SameHistories(s: System, t: System, c: Presented, now: nat, stamped: Option<SessionId>)
    requires Invariant(s) && HasFactor(s.user) && c != Nothing && Spend(s.user, s.policy, c, now).Spends?
    requires var Spends(v, means) := Spend(s.user, s.policy, c, now);
      && t.user.mfa == v.mfa && t.user.codes == v.codes && t.policy == s.policy && t.enrollment == s.enrollment
      && t.log == s.log + [Entry(Acceptance(means, stamped, now), s.enrollment)]
    ensures FactorHolds(t.user, t.policy) && CodesHold(t.user) && StepsHold(t) && SpentHolds(t)
  {
    SpendKeeps(s, c, now, stamped);
    var u := t.(user := Spend(s.user, s.policy, c, now).user);
    StepsStand(u, t);
  }

  lemma DisableKeeps(s: System, l: Label)
    requires Invariant(s) && l.DisableRequest? && Enabled(s.user, l)
    ensures Invariant(Apply(s, l))
  {
    var o := Serve(s.user, s.policy, l);
    if o.accepted.Some? {
      DisablementKeeps(s, l);
    } else if o.reply == Refused(InvalidCode) {
      FailureKeeps(s, l.now);
    } else {
      assert Apply(s, l) == s;
    }
  }

  lemma DisablementKeeps(s: System, l: Label)
    requires Invariant(s) && l.DisableRequest? && Enabled(s.user, l) && Serve(s.user, s.policy, l).accepted.Some?
    ensures Invariant(Apply(s, l))
  {
    var t := Apply(s, l);
    SpendMeans(s.user, s.policy, l.presented, l.now);
    SpendKeeps(s, l.presented, l.now, None);
    var Spends(v, means) := Spend(s.user, s.policy, l.presented, l.now);
    BurnedLeavesNone(v.codes, l.now);
    ReplacedStaySpent(v.codes, [], l.now);
    RotatedLeavesOne(s.user.sessions, l.session, l.id, l.now);
    assert forall i :: IsLive(t.user.sessions, i) ==> i in LiveSessions(t.user.sessions);
    var u := t.(user := v);
    StepsStand(u, t);
  }

  lemma RotationKeeps(s: System, l: Label)
    requires Invariant(s) && l.PasswordRequest?
    ensures Invariant(Apply(s, l))
  {
    var t := Apply(s, l);
    if Enabled(s.user, l) && Serve(s.user, s.policy, l).reply.Opened? {
      RotatedLeavesOne(s.user.sessions, l.session, l.id, l.now);
      assert forall i :: IsLive(t.user.sessions, i) ==> i in LiveSessions(t.user.sessions);
      QuietStepKeeps(s, t);
    }
  }

  lemma StepKeeps(s: System, l: Label)
    requires Invariant(s)
    ensures Invariant(Apply(s, l)) && Apply(s, l).policy == s.policy
  {
    match l {
      case LoginRequest(_, _, _) => QuietStepKeeps(s, Apply(s, l));
      case LogoutRequest(_, _) => QuietStepKeeps(s, Apply(s, l));
      case TouchRequest(_, _) => QuietStepKeeps(s, Apply(s, l));
      case PasswordRequest(_, _, _, _, _) => RotationKeeps(s, l);
      case EnrollRequest(password, seed) => EnrollKeeps(s, password, seed);
      case ConfirmRequest(session, code, hashes, now) => ConfirmKeeps(s, session, code, hashes, now);
      case RegenerateRequest(password, hashes, now) => RegenerateKeeps(s, password, hashes, now);
      case VerifyRequest(_, _, _, _, _) => if Enabled(s.user, l) { VerifyKeeps(s, l); }
      case DisableRequest(_, _, _, _, _) => if Enabled(s.user, l) { DisableKeeps(s, l); }
    }
  }

  lemma {:induction false} RunKeeps(s: System, labels: seq<Label>)
    requires Invariant(s)
    ensures Invariant(Run(s, labels)) && Run(s, labels).policy == s.policy
    decreases |labels|
  {
    if labels != [] {
      StepKeeps(s, labels[0]);
      RunKeeps(Apply(s, labels[0]), labels[1..]);
    }
  }
}
