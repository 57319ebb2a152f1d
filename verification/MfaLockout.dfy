/** How fast codes can be guessed: the escalating lockout over every run, on
    confirmed and unconfirmed factors alike, and what escapes it. */
module MfaLockout {
  import opened Options
  import opened Totp
  import opened Mfa
  import opened MfaRuns

  /** The requests that check a code. */
  predicate IsGuess(l: Label) {
    l.VerifyRequest? || l.DisableRequest? || l.ConfirmRequest?
  }

  /** The request has a code evaluated, and the code is wrong. */
  predicate Misses(s: System, l: Label) {
    Enabled(s.user, l) && IsGuess(l) && Serve(s.user, s.policy, l).reply == Refused(InvalidCode)
  }

  /** The wrong codes evaluated along a run. */
  function WrongCodes(s: System, labels: seq<Label>): nat
    decreases |labels|
  {
    if labels == [] then 0
    else (if Misses(s, labels[0]) then 1 else 0) + WrongCodes(Apply(s, labels[0]), labels[1..])
  }

  /** No code is accepted along the run. */
  predicate NoSuccess(s: System, labels: seq<Label>)
    decreases |labels|
  {
    labels == [] || (Apply(s, labels[0]).log == s.log && NoSuccess(Apply(s, labels[0]), labels[1..]))
  }

  /** The counters; before a first enrollment they are at rest. */
  function Counters(u: User): MfaRow {
    if u.mfa.Some? then u.mfa.value else MfaRow(None, None, None, 0, 0, None)
  }

  predicate Counting(s: System) {
    s.policy.Valid() && Counters(s.user).failedCount < s.policy.mfaThreshold
  }

  /** The wrong codes a successful restart of an enrollment forgets. */
  function DiscardedBy(s: System, l: Label): nat {
    if l.EnrollRequest? && Serve(s.user, s.policy, l).reply.Done? then Counters(s.user).failedCount else 0
  }

  function Discarded(s: System, labels: seq<Label>): nat
    decreases |labels|
  {
    if labels == [] then 0 else DiscardedBy(s, labels[0]) + Discarded(Apply(s, labels[0]), labels[1..])
  }

  /** The seconds that `n` lockouts in a row last, the first being number `c + 1`. */
  function LockTotal(p: Policy, c: nat, n: nat): nat
    decreases n
  {
    if n == 0 then 0 else LockoutSeconds(p, c + 1) + LockTotal(p, c + 1, n - 1)
  }

  /** Without a success the counters change by wrong codes, only while not locked,
      and by restarts, which clear the failure counter alone. */
  lemma RowStep(s: System, l: Label)
    requires Apply(s, l).log == s.log
    ensures Apply(s, l).policy == s.policy
    ensures var row, next := Counters(s.user), Counters(Apply(s, l).user);
      if Misses(s, l) then
        !LockedAt(row.lockedUntil, l.now) && next == AfterFailure(row, s.policy, l.now) && DiscardedBy(s, l) == 0
      else
        && next.lockoutCount == row.lockoutCount && next.lockedUntil == row.lockedUntil
        && next.failedCount + DiscardedBy(s, l) == row.failedCount
  {
    match l {
      case VerifyRequest(_, _, _, _, _) =>
      case DisableRequest(_, _, _, _, _) =>
      case ConfirmRequest(_, _, _, _) =>
      case EnrollRequest(_, _) =>
      case _ =>
    }
  }

  /** Guesses happen no later than `b`, and before `a` only against a lock. */
  predicate Confined(row: MfaRow, labels: seq<Label>, a: nat, b: nat) {
    forall i :: 0 <= i < |labels| && IsGuess(labels[i]) ==>
      labels[i].now <= b && (labels[i].now < a ==> LockedAt(row.lockedUntil, labels[i].now))
  }

  lemma {:induction false} GuessesFitTheLockouts(s: System, labels: seq<Label>, a: nat, b: nat, n: nat)
    requires Counting(s) && NoSuccess(s, labels) && Confined(Counters(s.user), labels, a, b)
    requires n >= 1 && b - a < LockTotal(s.policy, Counters(s.user).lockoutCount, n) * MICROS
    ensures WrongCodes(s, labels) + Counters(s.user).failedCount <= s.policy.mfaThreshold * n + Discarded(s, labels)
    decreases |labels|
  {
    var row, p := Counters(s.user), s.policy;
    Scale(p.mfaThreshold, n);
    if labels != [] {
      var l, t := labels[0], Apply(s, labels[0]);
      RowStep(s, l);
      assert forall i :: 0 <= i < |labels[1..]| ==> labels[1..][i] == labels[i + 1];
      if Misses(s, l) && row.failedCount + 1 >= p.mfaThreshold {
        var until := l.now + LockoutSeconds(p, row.lockoutCount + 1) * MICROS;
        assert Confined(Counters(t.user), labels[1..], until, b);
        if n == 1 {
          NothingWhileLocked(t, labels[1..], b);
        } else {
          GuessesFitTheLockouts(t, labels[1..], until, b, n - 1);
        }
      } else {
        assert Confined(Counters(t.user), labels[1..], a, b);
        GuessesFitTheLockouts(t, labels[1..], a, b, n);
      }
    }
  }

  lemma Scale(threshold: nat, n: nat)
    requires n >= 1
    ensures threshold * n == threshold * (n - 1) + threshold && threshold <= threshold * n
  {
  }

  /** A lock that outlasts the span lets no guess be evaluated in it. */
  lemma {:induction false} NothingWhileLocked(s: System, labels: seq<Label>, b: nat)
    requires NoSuccess(s, labels) && LockedAt(Counters(s.user).lockedUntil, b)
    requires forall i :: 0 <= i < |labels| && IsGuess(labels[i]) ==> labels[i].now <= b
    ensures WrongCodes(s, labels) == 0
    decreases |labels|
  {
    if labels != [] {
      RowStep(s, labels[0]);
      assert forall i :: 0 <= i < |labels[1..]| ==> labels[1..][i] == labels[i + 1];
      NothingWhileLocked(Apply(s, labels[0]), labels[1..], b);
    }
  }

  /** Wrong codes are conserved: each is in the counter, in a lockout, or among
      those a restart forgot. */
  lemma {:induction false} WrongCodesAreConserved(s: System, labels: seq<Label>)
    requires Counting(s) && NoSuccess(s, labels)
    ensures var row, last := Counters(s.user), Counters(Run(s, labels).user);
      && row.lockoutCount <= last.lockoutCount
      && WrongCodes(s, labels) + row.failedCount
         == s.policy.mfaThreshold * (last.lockoutCount - row.lockoutCount) + last.failedCount + Discarded(s, labels)
    decreases |labels|
  {
    if labels != [] {
      var t := Apply(s, labels[0]);
      RowStep(s, labels[0]);
      WrongCodesAreConserved(t, labels[1..]);
      var last := Counters(Run(s, labels).user);
      if Counters(t.user).lockoutCount > Counters(s.user).lockoutCount {
        Scale(s.policy.mfaThreshold, last.lockoutCount - Counters(s.user).lockoutCount);
      }
    }
  }

  // ---------------------------------------------------- lockouts grow as they go

  lemma LockoutsGrow(p: Policy, k: nat)
    requires k >= 1
    ensures LockoutSeconds(p, k) <= LockoutSeconds(p, k + 1)
  {
    Associate(p.lockoutBase, Pow2(k - 1));
  }

  lemma Associate(b: nat, x: nat)
    ensures b * (2 * x) == 2 * (b * x)
  {
  }

  lemma {:induction false} LockoutsGrowFromZero(p: Policy, c: nat, k: nat)
    requires k >= 1
    ensures LockoutSeconds(p, k) <= LockoutSeconds(p, c + k)
  {
    if c > 0 {
      LockoutsGrowFromZero(p, c - 1, k);
      LockoutsGrow(p, c - 1 + k);
    }
  }

  lemma {:induction false} LaterLockoutsLastLonger(p: Policy, c: nat, d: nat, n: nat)
    ensures LockTotal(p, c, n) <= LockTotal(p, c + d, n)
    decreases n
  {
    if n > 0 {
      LockoutsGrowFromZero(p, d, c + 1);
      LaterLockoutsLastLonger(p, c + 1, d, n - 1);
    }
  }

  // ------------------------------------------------------------------- the bounds

  /** Every guess of the run happens in the span. */
  predicate InSpan(labels: seq<Label>, a: nat, b: nat) {
    forall i :: 0 <= i < |labels| && IsGuess(labels[i]) ==> a <= labels[i].now <= b
  }

  lemma ReachableIsCounting(s: System, before: seq<Label>)
    requires Initial(s)
    ensures Counting(Run(s, before)) && Run(s, before).policy == s.policy
  {
    RunKeeps(s, before);
  }

  /** From any reachable state, whether a factor is confirmed, unconfirmed or absent,
      with no success in between: the wrong codes evaluated in a span shorter than
      the first `n` lockouts together are at most `n` times the threshold, plus
      what restarts forgot; whatever else happens, in whatever order, and however
      far the escalation had gone. */
  lemma WrongCodesAreBounded(s: System, before: seq<Label>, labels: seq<Label>, a: nat, b: nat, n: nat)
    requires Initial(s) && NoSuccess(Run(s, before), labels) && InSpan(labels, a, b)
    requires n >= 1 && b - a < LockTotal(s.policy, 0, n) * MICROS
    ensures var t := Run(s, before);
      WrongCodes(t, labels) <= s.policy.mfaThreshold * n + Discarded(t, labels)
  {
    ReachableIsCounting(s, before);
    WrongCodesFit(Run(s, before), labels, a, b, n);
  }

  lemma WrongCodesFit(t: System, labels: seq<Label>, a: nat, b: nat, n: nat)
    requires Counting(t) && NoSuccess(t, labels) && InSpan(labels, a, b)
    requires n >= 1 && b - a < LockTotal(t.policy, 0, n) * MICROS
    ensures WrongCodes(t, labels) <= t.policy.mfaThreshold * n + Discarded(t, labels)
  {
    LaterLockoutsLastLonger(t.policy, 0, Counters(t.user).lockoutCount, n);
    GuessesFitTheLockouts(t, labels, a, b, n);
  }

  /** The restart guard a caller can check: enrolling succeeds while the failure
      counter stands above zero. */
  predicate Forgets(s: System, l: Label) {
    l.EnrollRequest? && s.user.credential.password == l.password && !Confirmed(s.user)
    && Counters(s.user).failedCount > 0
  }

  /** Nothing is forgotten exactly when no restart of the run meets a counter above
      zero. */
  lemma {:induction false} NothingForgottenExactlyWhen(s: System, labels: seq<Label>)
    ensures Discarded(s, labels) == 0 <==> forall i :: 0 <= i < |labels| ==> !Forgets(Run(s, labels[..i]), labels[i])
    decreases |labels|
  {
    if labels != [] {
      var t, rest := Apply(s, labels[0]), labels[1..];
      NothingForgottenExactlyWhen(t, rest);
      assert Run(s, labels[..0]) == s;
      forall i | 0 <= i < |rest| ensures Run(s, labels[..i + 1]) == Run(t, rest[..i]) && rest[i] == labels[i + 1] {
        assert labels[..i + 1][1..] == rest[..i];
      }
      if Discarded(t, rest) == 0 && !Forgets(s, labels[0]) {
        forall i | 0 <= i < |labels| ensures !Forgets(Run(s, labels[..i]), labels[i]) {
          if i > 0 {
            assert !Forgets(Run(t, rest[..i - 1]), rest[i - 1]);
          }
        }
      }
      if forall i :: 0 <= i < |labels| ==> !Forgets(Run(s, labels[..i]), labels[i]) {
        assert !Forgets(Run(s, labels[..0]), labels[0]);
        forall i | 0 <= i < |rest| ensures !Forgets(Run(t, rest[..i]), rest[i]) {
          assert !Forgets(Run(s, labels[..i + 1]), labels[i + 1]);
        }
      }
    }
  }

  /** The guesses of any run with no success are bounded in time as long as no
      restart forgets a wrong code. */
  lemma GuessesAreBoundedUnlessForgotten(s: System, before: seq<Label>, labels: seq<Label>, a: nat, b: nat, n: nat)
    requires Initial(s) && NoSuccess(Run(s, before), labels) && InSpan(labels, a, b)
    requires n >= 1 && b - a < LockTotal(s.policy, 0, n) * MICROS
    requires forall i :: 0 <= i < |labels| ==> !Forgets(Run(Run(s, before), labels[..i]), labels[i])
    ensures WrongCodes(Run(s, before), labels) <= s.policy.mfaThreshold * n
  {
    WrongCodesAreBounded(s, before, labels, a, b, n);
    NothingForgottenExactlyWhen(Run(s, before), labels);
  }

  /** A confirmed factor refuses to be enrolled over, so nothing is forgotten. */
  lemma {:induction false} ConfirmedFactorsForgetNothing(s: System, labels: seq<Label>)
    requires Confirmed(s.user) && NoSuccess(s, labels)
    ensures Discarded(s, labels) == 0
    decreases |labels|
  {
    if labels != [] {
      ConfirmedStays(s, labels[0]);
      ConfirmedFactorsForgetNothing(Apply(s, labels[0]), labels[1..]);
    }
  }

  lemma ConfirmedStays(s: System, l: Label)
    requires Confirmed(s.user) && Apply(s, l).log == s.log
    ensures Confirmed(Apply(s, l).user)
  {
    match l {
      case DisableRequest(_, _, _, _, _) =>
      case VerifyRequest(_, _, _, _, _) =>
      case _ =>
    }
  }

  /** The default settings: at most 35 wrong codes in any day on a confirmed factor,
      and on any other as many more as restarts forgot. */
  lemma DefaultsAllowThirtyFiveADay(s: System, before: seq<Label>, labels: seq<Label>, a: nat, b: nat)
    requires Initial(s)
    requires s.policy.mfaThreshold == 5 && s.policy.lockoutBase == 900 && s.policy.lockoutCap == 86400
    requires NoSuccess(Run(s, before), labels) && InSpan(labels, a, b) && b - a <= 86400 * MICROS
    ensures var t := Run(s, before);
      && WrongCodes(t, labels) <= 35 + Discarded(t, labels)
      && (Confirmed(t.user) ==> WrongCodes(t, labels) <= 35)
  {
    DefaultLockouts(s.policy);
    WrongCodesAreBounded(s, before, labels, a, b, 7);
    if Confirmed(Run(s, before).user) {
      ConfirmedFactorsForgetNothing(Run(s, before), labels);
    }
  }

  lemma DefaultLockouts(p: Policy)
    requires p.lockoutBase == 900 && p.lockoutCap == 86400
    ensures LockTotal(p, 0, 7) == 114300
  {
    assert LockTotal(p, 6, 1) == 57600;
    assert LockTotal(p, 4, 3) == 14400 + 28800 + 57600;
    assert LockTotal(p, 2, 5) == 3600 + 7200 + LockTotal(p, 4, 3);
  }

  /** The `n` lockouts of a run with no success span at least the durations of all
      but the last, restarts or not. */
  lemma LockoutsSpanTheirDurations(s: System, labels: seq<Label>, a: nat, b: nat)
    requires Counting(s) && NoSuccess(s, labels) && Confined(Counters(s.user), labels, a, b) && a <= b
    ensures var c := Counters(s.user).lockoutCount;
      var n := Counters(Run(s, labels).user).lockoutCount - c;
      n >= 1 ==> b - a >= LockTotal(s.policy, c, n - 1) * MICROS
  {
    WrongCodesAreConserved(s, labels);
    var c := Counters(s.user).lockoutCount;
    var n := Counters(Run(s, labels).user).lockoutCount - c;
    if n >= 2 {
      Scale(s.policy.mfaThreshold, n);
      if b - a < LockTotal(s.policy, c, n - 1) * MICROS {
        GuessesFitTheLockouts(s, labels, a, b, n - 1);
      }
    }
  }

  // ------------------------------------------------- when restarts escape the bound

  /** The shape of code the API accepts. */
  predicate SixDigits(code: Code) {
    |code| == 6 && forall i :: 0 <= i < 6 ==> '0' <= code[i] <= '9'
  }

  /** The window holds three codes, so one of any four six-digit codes is wrong. */
  lemma AWrongCode(p: Policy, seed: Seed, now: nat) returns (code: Code)
    ensures SixDigits(code) && MatchingStep(p.generator, seed, code, StepAt(now)).None?
  {
    var g, at: int := p.generator, StepAt(now);
    var a, b, c, d := "000000", "000001", "000002", "000003";
    assert a[5] == '0' && b[5] == '1' && c[5] == '2' && d[5] == '3';
    var x, y, z := g(seed, at - 1), g(seed, at), g(seed, at + 1);
    code := if a != x && a != y && a != z then a
            else if b != x && b != y && b != z then b
            else if c != x && c != y && c != z then c else d;
  }

  /** A run of confirmations and restarts: wrong six-digit codes at one instant, and
      a fresh seed from `seeds` after each. */
  predicate AlternatesOver(labels: seq<Label>, session: SessionId, seeds: seq<Seed>, now: nat)
    decreases |seeds|
  {
    if seeds == [] then labels == []
    else
      && |labels| >= 2
      && labels[0].ConfirmRequest? && SixDigits(labels[0].code) && labels[0].session == session && labels[0].now == now
      && labels[1].EnrollRequest? && labels[1].seed == seeds[0]
      && AlternatesOver(labels[2..], session, seeds[1..], now)
  }

  predicate AtRest(s: System) {
    s.user.mfa.Some? && s.user.mfa.value == MfaRow(s.user.mfa.value.seed, None, None, 0, 0, None)
    && s.user.mfa.value.seed.Some?
  }

  /** One round: a wrong code is counted and then forgotten. */
  lemma OneRound(s: System, session: SessionId, hashes: seq<CodeHash>, now: nat, seed: Seed)
      returns (guess: Label, restart: Label)
    requires s.policy.mfaThreshold >= 2 && |hashes| == RECOVERY_CODE_COUNT && AtRest(s)
    ensures guess.ConfirmRequest? && SixDigits(guess.code) && guess.session == session && guess.now == now && Misses(s, guess)
    ensures restart == EnrollRequest(s.user.credential.password, seed)
    ensures var t := Apply(Apply(s, guess), restart);
      AtRest(t) && t.policy == s.policy && t.user == s.user.(mfa := t.user.mfa) && t.log == s.log
      && Apply(s, guess).log == s.log
  {
    var code := AWrongCode(s.policy, s.user.mfa.value.seed.value, now);
    guess := ConfirmRequest(session, code, hashes, now);
    restart := EnrollRequest(s.user.credential.password, seed);
  }

  lemma {:induction false} Rounds(s: System, session: SessionId, hashes: seq<CodeHash>, now: nat, seeds: seq<Seed>)
      returns (labels: seq<Label>)
    requires s.policy.mfaThreshold >= 2 && |hashes| == RECOVERY_CODE_COUNT && AtRest(s)
    ensures AlternatesOver(labels, session, seeds, now) && NoSuccess(s, labels)
    ensures WrongCodes(s, labels) == |seeds| && AtRest(Run(s, labels))
    ensures Run(s, labels).user.sessions == s.user.sessions
    decreases |seeds|
  {
    labels := [];
    if seeds != [] {
      var guess, restart := OneRound(s, session, hashes, now, seeds[0]);
      var t := Apply(Apply(s, guess), restart);
      var rest := Rounds(t, session, hashes, now, seeds[1..]);
      labels := [guess, restart] + rest;
      assert labels[2..] == rest;
      assert labels[1..] == [restart] + rest && ([restart] + rest)[1..] == rest;
      TwoSteps(s, guess, restart, rest);
    }
  }

  lemma TwoSteps(s: System, a: Label, b: Label, rest: seq<Label>)
    ensures var labels, t := [a, b] + rest, Apply(Apply(s, a), b);
      && Run(s, labels) == Run(t, rest)
      && WrongCodes(s, labels)
         == (if Misses(s, a) then 1 else 0) + (if Misses(Apply(s, a), b) then 1 else 0) + WrongCodes(t, rest)
      && (NoSuccess(s, labels) <==>
            Apply(s, a).log == s.log && t.log == Apply(s, a).log && NoSuccess(t, rest))
  {
    var labels := [a, b] + rest;
    assert labels[1..] == [b] + rest && ([b] + rest)[1..] == rest;
  }

  /** A user who registers, logs in and enrolls, with any seeds the platform hands
      out and any code generator: one instant holds as many wrong confirmations
      from that one live session as there are restarts, without a lockout. The
      restarts need the password. */
  lemma RestartsEscapeTheLockout(s: System, session: SessionId, first: Seed, seeds: seq<Seed>, now: nat)
      returns (opening: seq<Label>, labels: seq<Label>)
    requires Initial(s) && s.policy.mfaThreshold >= 2
    requires !s.user.disabled
    ensures var password := s.user.credential.password;
      opening == [LoginRequest(password, session, now), EnrollRequest(password, first)]
    ensures AlternatesOver(labels, session, seeds, now) && NoSuccess(s, opening + labels)
    ensures WrongCodes(s, opening + labels) == |seeds|
    ensures var t := Run(s, opening + labels);
      Counters(t.user).lockoutCount == 0 && LiveSessions(t.user.sessions) == {session}
  {
    var password := s.user.credential.password;
    var login, enroll := LoginRequest(password, session, now), EnrollRequest(password, first);
    opening := [login, enroll];
    var t := Apply(Apply(s, login), enroll);
    labels := Rounds(t, session, seq(RECOVERY_CODE_COUNT, _ => ""), now, seeds);
    TwoSteps(s, login, enroll, labels);
  }

  /** Every run with no success evaluates at most `bound` wrong codes in an instant. */
  ghost predicate BoundedAtAnInstant(p: Policy, bound: nat) {
    forall s, labels, now ::
      Initial(s) && s.policy == p && NoSuccess(s, labels) && InSpan(labels, now, now) ==> WrongCodes(s, labels) <= bound
  }

  /** Guesses from registration on are bounded in an instant exactly when the
      threshold is one: then every wrong code is a lockout and none can be
      forgotten. */
  lemma GuessesAreBoundedExactlyWhen(p: Policy)
    requires p.Valid()
    ensures (exists bound :: BoundedAtAnInstant(p, bound)) <==> p.mfaThreshold == 1
  {
    if p.mfaThreshold == 1 {
      forall s, labels, now | Initial(s) && s.policy == p && NoSuccess(s, labels) && InSpan(labels, now, now)
        ensures WrongCodes(s, labels) <= 1
      {
        ThresholdOneForgetsNothing(s, labels);
        assert Run(s, []) == s && LockTotal(p, 0, 1) == LockoutSeconds(p, 1);
        WrongCodesAreBounded(s, [], labels, now, now, 1);
      }
      assert BoundedAtAnInstant(p, 1);
    } else {
      forall bound | BoundedAtAnInstant(p, bound) ensures false {
        SomeRunExceeds(p, bound);
      }
    }
  }

  lemma SomeRunExceeds(p: Policy, bound: nat)
    requires p.Valid() && p.mfaThreshold >= 2
    ensures !BoundedAtAnInstant(p, bound)
  {
    var s := System(User(Credential("", 0, None), None, map[], map[], false), p, 0, []);
    var seeds := seq(bound + 1, i => i);
    var opening, labels := RestartsEscapeTheLockout(s, 0, 0, seeds, 0);
    var all := opening + labels;
    AlternatingGuesses(labels, 0, seeds, 0);
    assert forall i :: 2 <= i < |all| ==> all[i] == labels[i - 2];
    assert all[0] == opening[0] && all[1] == opening[1];
    assert InSpan(all, 0, 0);
  }

  lemma {:induction false} AlternatingGuesses(labels: seq<Label>, session: SessionId, seeds: seq<Seed>, now: nat)
    requires AlternatesOver(labels, session, seeds, now)
    ensures InSpan(labels, now, now)
    decreases |seeds|
  {
    if seeds != [] {
      AlternatingGuesses(labels[2..], session, seeds[1..], now);
      assert forall i :: 2 <= i < |labels| ==> labels[i] == labels[2..][i - 2];
    }
  }

  lemma {:induction false} ThresholdOneForgetsNothing(s: System, labels: seq<Label>)
    requires Counting(s) && s.policy.mfaThreshold == 1 && NoSuccess(s, labels)
    ensures Discarded(s, labels) == 0
    decreases |labels|
  {
    if labels != [] {
      RowStep(s, labels[0]);
      ThresholdOneForgetsNothing(Apply(s, labels[0]), labels[1..]);
    }
  }

  /** The advertised delay is enough, and overshoots by at most a second. */
  lemma RetryAfterIsEnough(until: nat, now: nat)
    requires LockedAt(Some(until), now)
    ensures var retry := RetryAfter(Some(until), now);
      && !LockedAt(Some(until), now + retry * MICROS)
      && now + retry * MICROS <= until + MICROS
  {
  }
}
