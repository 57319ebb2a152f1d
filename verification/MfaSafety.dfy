/** What the second factor guarantees over every run. */
module MfaSafety {
  import opened Options
  import opened Totp
  import opened Mfa
  import opened MfaRuns

  lemma Starts(s: System)
    requires Initial(s)
    ensures Invariant(s)
  {
  }

  /** In every reachable state: without a confirmed factor no live session carries
      assurance and no recovery code is live; with one, at most ten are. */
  lemma EveryReachableState(s: System, labels: seq<Label>)
    requires Initial(s)
    ensures var u := Run(s, labels).user;
      && (!Confirmed(u) ==> forall i :: i in LiveSessions(u.sessions) ==> u.sessions[i].mfaVerifiedAt == None)
      && (!Confirmed(u) ==> LiveCodes(u.codes) == {})
      && |LiveCodes(u.codes)| <= RECOVERY_CODE_COUNT
  {
    Starts(s);
    RunKeeps(s, labels);
    var t := Run(s, labels);
    assert forall i :: i in LiveSessions(t.user.sessions) ==> IsLive(t.user.sessions, i);
  }

  /** Each privilege change leaves exactly one live session: confirming keeps the
      caller's and assures it, disabling and changing the password replace it by a
      fresh one without assurance. */
  lemma PrivilegeChangesLeaveOneSession(s: System, l: Label)
    requires Enabled(s.user, l) && !Serve(s.user, s.policy, l).reply.Refused?
    ensures var sessions := Apply(s, l).user.sessions;
      && (l.ConfirmRequest? ==>
            LiveSessions(sessions) == {l.session} && sessions[l.session].mfaVerifiedAt == Some(l.now))
      && (l.DisableRequest? || l.PasswordRequest? ==>
            LiveSessions(sessions) == {l.id} && sessions[l.id].mfaVerifiedAt == None)
  {
    match l {
      case ConfirmRequest(session, _, _, now) => ConfirmedLeavesOne(s.user.sessions, session, now);
      case DisableRequest(session, _, c, id, now) =>
        SpendMeans(s.user, s.policy, c, now);
        RotatedLeavesOne(s.user.sessions, session, id, now);
      case PasswordRequest(session, _, _, id, now) => RotatedLeavesOne(s.user.sessions, session, id, now);
      case _ =>
    }
  }

  /** The assurance gate admits a request only under a confirmed factor and only
      within the age limit of an accepted code that stamped this very session,
      accepted by the factor that is confirmed now. */
  lemma AssuranceIsVouchedFor(s: System, labels: seq<Label>, id: SessionId, now: nat) returns (e: Entry)
    requires Initial(s) && Assured(Run(s, labels).user, s.policy, id, now)
    ensures var t := Run(s, labels);
      && HasFactor(t.user) && e in t.log && e.enrollment == t.enrollment
      && e.acceptance.stamped == Some(id) && now < e.acceptance.at + s.policy.assuranceMaxAge * MICROS
  {
    Starts(s);
    RunKeeps(s, labels);
    var t := Run(s, labels);
    var at := t.user.sessions[id].mfaVerifiedAt.value;
    assert IsLive(t.user.sessions, id) && Vouched(t, id, at);
    e :| e in t.log && e.acceptance.stamped == Some(id) && e.acceptance.at == at && e.enrollment == t.enrollment;
  }

  /** With a factor confirmed, a password alone opens nothing: a session that passes
      without the pending allowance was stamped by an accepted code. */
  lemma PasswordAloneIsPending(s: System, labels: seq<Label>, id: SessionId, now: nat)
    requires Initial(s) && Confirmed(Run(s, labels).user)
    ensures var t := Run(s, labels);
      Resolve(t.user, s.policy, id, false, now).Current? ==>
        exists e :: e in t.log && e.acceptance.stamped == Some(id) && e.enrollment == t.enrollment
  {
    Starts(s);
    RunKeeps(s, labels);
    var t := Run(s, labels);
    if Resolve(t.user, s.policy, id, false, now).Current? {
      var at := t.user.sessions[id].mfaVerifiedAt.value;
      assert IsLive(t.user.sessions, id) && Vouched(t, id, at);
    }
  }

  /** Right after an accepted code the gate admits the session it stamped exactly
      while assurance, idle and absolute limits all last. */
  lemma AcceptanceOpensTheGate(s: System, l: Label, id: SessionId, now: nat)
    requires Invariant(s) && Enabled(s.user, l) && !s.user.disabled
    requires var o := Serve(s.user, s.policy, l); o.accepted.Some? && o.accepted.value.stamped == Some(id)
    ensures var t, p := Apply(s, l), s.policy;
      && id in t.user.sessions
      && (Assured(t.user, p, id, now) <==>
            && now - l.now < p.assuranceMaxAge * MICROS
            && now - t.user.sessions[id].createdAt < p.absolute * MICROS
            && now - t.user.sessions[id].lastSeenAt < p.idle * MICROS)
  {
    match l {
      case ConfirmRequest(session, _, _, at) => ConfirmedLeavesOne(s.user.sessions, session, at);
      case VerifyRequest(_, _, c, _, at) => SpendMeans(s.user, s.policy, c, at);
      case _ =>
    }
  }

  /** Within one enrollment the accepted steps strictly increase, each is within one
      step of the clock, and no recovery code is ever accepted twice. */
  lemma CodesAreOneTime(s: System, labels: seq<Label>)
    requires Initial(s)
    ensures var log := Run(s, labels).log;
      && (forall j, k :: 0 <= j < k < |log| && log[j].enrollment == log[k].enrollment
            && log[j].acceptance.means.ByStep? && log[k].acceptance.means.ByStep?
            ==> log[j].acceptance.means.step < log[k].acceptance.means.step)
      && (forall k :: 0 <= k < |log| && log[k].acceptance.means.ByStep? ==>
            var a := log[k].acceptance; StepAt(a.at) - 1 <= a.means.step <= StepAt(a.at) + 1)
      && (forall j, k :: 0 <= j < k < |log| && log[j].acceptance.means.ByRecovery?
            ==> log[j].acceptance.means != log[k].acceptance.means)
  {
    Starts(s);
    RunKeeps(s, labels);
    var t := Run(s, labels);
    forall j, k | 0 <= j < k < |t.log| ensures Precedes(t.log[j], t.log[k]) {
    }
    forall k | 0 <= k < |t.log| ensures InWindow(t.log[k].acceptance) {
    }
  }

  /** A code of a step already accepted under the standing factor is a wrong code. */
  lemma ReplayIsRefused(
      s: System, e: Entry, session: SessionId, pending: bool, code: Code, id: SessionId, now: nat)
    requires Invariant(s) && HasFactor(s.user) && !LockedAt(s.user.mfa.value.lockedUntil, now)
    requires e in s.log && e.enrollment == s.enrollment && e.acceptance.means.ByStep?
    requires var step := MatchingStep(s.policy.generator, s.user.mfa.value.seed.value, code, StepAt(now));
      step.Some? && step.value <= e.acceptance.means.step
    ensures Verify(s.user, s.policy, session, pending, TotpCode(code), id, now).reply == Refused(InvalidCode)
  {
    var k :| 0 <= k < |s.log| && s.log[k] == e;
    assert Remembered(s, s.log[k]);
  }

  /** A recovery code already accepted is a wrong code, for good. */
  lemma SpentRecoveryIsRefused(
      s: System, e: Entry, session: SessionId, pending: bool, id: SessionId, now: nat)
    requires Invariant(s) && HasFactor(s.user) && !LockedAt(s.user.mfa.value.lockedUntil, now)
    requires e in s.log && e.acceptance.means.ByRecovery?
    ensures Verify(s.user, s.policy, session, pending, RecoveryText(e.acceptance.means.hash), id, now).reply
         == Refused(InvalidCode)
  {
    var k :| 0 <= k < |s.log| && s.log[k] == e;
    assert IsSpent(s.user.codes, e.acceptance.means.hash);
  }

  /** A refused request spends nothing: rows change only to count a wrong code or a
      wrong password, and no code is on record as accepted. */
  lemma RefusedSpendsNothing(s: System, l: Label)
    requires Enabled(s.user, l) && Serve(s.user, s.policy, l).reply.Refused?
    ensures var o := Serve(s.user, s.policy, l);
      && o.accepted == None
      && (o.reply.error != InvalidCode && o.reply.error != InvalidCredentials ==> o.user == s.user)
      && (o.reply.error == InvalidCode ==>
            && s.user.mfa.Some?
            && o.user == s.user.(mfa := Some(AfterFailure(s.user.mfa.value, s.policy, l.now))))
      && (o.reply.error == InvalidCredentials ==>
            o.user == s.user.(credential := o.user.credential)
            && o.user.credential.password == s.user.credential.password)
  {
    match l {
      case VerifyRequest(_, _, _, _, _) =>
      case DisableRequest(_, _, _, _, _) =>
      case ConfirmRequest(_, _, _, _) =>
      case _ =>
    }
  }
}
