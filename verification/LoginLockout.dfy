/** How fast passwords can be guessed at the login, over every run. */
module LoginLockout {
  import opened Options
  import opened Totp
  import opened Mfa
  import opened MfaRuns

  /** The login reaches the password check: the user is enabled and no lock stands. */
  predicate Checks(s: System, l: Label) {
    && Enabled(s.user, l) && l.LoginRequest? && !s.user.disabled
    && (s.user.credential.lockedUntil.Some? ==> s.user.credential.lockedUntil.value <= l.now)
  }

  predicate Wrong(s: System, l: Label) {
    Checks(s, l) && l.password != s.user.credential.password
  }

  predicate LogsIn(s: System, l: Label) {
    Checks(s, l) && l.password == s.user.credential.password
  }

  /** The wrong password that fills the counter. */
  predicate Locks(s: System, l: Label) {
    Wrong(s, l) && s.user.credential.failedLoginCount + 1 >= s.policy.loginThreshold
  }

  /** The wrong passwords checked along a run. */
  function WrongPasswords(s: System, labels: seq<Label>): nat
    decreases |labels|
  {
    if labels == [] then 0
    else (if Wrong(s, labels[0]) then 1 else 0) + WrongPasswords(Apply(s, labels[0]), labels[1..])
  }

  /** The account lockouts along a run. */
  function Lockouts(s: System, labels: seq<Label>): nat
    decreases |labels|
  {
    if labels == [] then 0
    else (if Locks(s, labels[0]) then 1 else 0) + Lockouts(Apply(s, labels[0]), labels[1..])
  }

  predicate NoLogin(s: System, labels: seq<Label>)
    decreases |labels|
  {
    labels == [] || (!LogsIn(s, labels[0]) && NoLogin(Apply(s, labels[0]), labels[1..]))
  }

  predicate Counting(s: System) {
    s.policy.Valid() && s.user.credential.failedLoginCount < s.policy.loginThreshold
  }

  /** One step of the login counters. */
  lemma CounterStep(s: System, l: Label)
    ensures Apply(s, l).policy == s.policy && Apply(s, l).user.disabled == s.user.disabled
    ensures var c, d := s.user.credential, Apply(s, l).user.credential;
      if LogsIn(s, l) then d.failedLoginCount == 0 && d.lockedUntil == None
      else if Locks(s, l) then
        d.failedLoginCount == 0 && d.lockedUntil == Some(l.now + s.policy.loginLockout * MICROS)
      else if Wrong(s, l) then d.failedLoginCount == c.failedLoginCount + 1 && d.lockedUntil == c.lockedUntil
      else d.failedLoginCount == c.failedLoginCount && d.lockedUntil == c.lockedUntil
  {
    match l {
      case LoginRequest(_, _, _) =>
      case PasswordRequest(_, _, _, _, _) =>
      case EnrollRequest(_, _) =>
      case ConfirmRequest(_, _, _, _) =>
      case VerifyRequest(_, _, _, _, _) => VerifyLeavesTheCredential(s, l);
      case DisableRequest(_, _, _, _, _) => DisableLeavesTheCredential(s, l);
      case _ =>
    }
  }

  lemma VerifyLeavesTheCredential(s: System, l: Label)
    requires l.VerifyRequest?
    ensures Apply(s, l).user.credential == s.user.credential && Apply(s, l).user.disabled == s.user.disabled
  {
  }

  lemma DisableLeavesTheCredential(s: System, l: Label)
    requires l.DisableRequest?
    ensures Apply(s, l).user.credential == s.user.credential && Apply(s, l).user.disabled == s.user.disabled
  {
  }

  lemma {:induction false} CountingStands(s: System, labels: seq<Label>)
    requires Counting(s)
    ensures Counting(Run(s, labels)) && Run(s, labels).policy == s.policy
    decreases |labels|
  {
    if labels != [] {
      CounterStep(s, labels[0]);
      CountingStands(Apply(s, labels[0]), labels[1..]);
    }
  }

  /** Logins happen no later than `b`, and before `a` only against a lock. */
  predicate Confined(until: Option<nat>, labels: seq<Label>, a: nat, b: nat) {
    forall i :: 0 <= i < |labels| && labels[i].LoginRequest? ==>
      labels[i].now <= b && (labels[i].now < a ==> until.Some? && labels[i].now < until.value)
  }

  lemma Scale(t: nat, n: nat)
    requires n >= 1
    ensures t * n == t * (n - 1) + t && t <= t * n
  {
  }

  lemma {:induction false} GuessesFitTheLockouts(s: System, labels: seq<Label>, a: nat, b: nat, n: nat)
    requires Counting(s) && NoLogin(s, labels) && Confined(s.user.credential.lockedUntil, labels, a, b)
    requires n >= 1 && b - a < s.policy.loginLockout * MICROS * n
    ensures WrongPasswords(s, labels) + s.user.credential.failedLoginCount <= s.policy.loginThreshold * n
    decreases |labels|
  {
    Scale(s.policy.loginThreshold, n);
    if labels != [] {
      var l, t := labels[0], Apply(s, labels[0]);
      CounterStep(s, l);
      assert forall i :: 0 <= i < |labels[1..]| ==> labels[1..][i] == labels[i + 1];
      if Locks(s, l) {
        var until := l.now + s.policy.loginLockout * MICROS;
        Scale(s.policy.loginLockout * MICROS, n);
        assert Confined(t.user.credential.lockedUntil, labels[1..], until, b);
        if n == 1 {
          NothingWhileLocked(t, labels[1..], b);
        } else {
          GuessesFitTheLockouts(t, labels[1..], until, b, n - 1);
        }
      } else {
        assert Confined(t.user.credential.lockedUntil, labels[1..], a, b);
        GuessesFitTheLockouts(t, labels[1..], a, b, n);
      }
    }
  }

  lemma {:induction false} NothingWhileLocked(s: System, labels: seq<Label>, b: nat)
    requires s.user.credential.lockedUntil.Some? && b < s.user.credential.lockedUntil.value
    requires forall i :: 0 <= i < |labels| && labels[i].LoginRequest? ==> labels[i].now <= b
    ensures WrongPasswords(s, labels) == 0
    decreases |labels|
  {
    if labels != [] {
      CounterStep(s, labels[0]);
      assert forall i :: 0 <= i < |labels[1..]| ==> labels[1..][i] == labels[i + 1];
      NothingWhileLocked(Apply(s, labels[0]), labels[1..], b);
    }
  }

  /** From any reachable state and with no successful login in between, the wrong
      passwords checked in a span shorter than `n` lockouts are at most `n` times
      the threshold, whatever other requests are served and however they are
      ordered. */
  lemma WrongPasswordsAreBounded(s: System, before: seq<Label>, labels: seq<Label>, a: nat, b: nat, n: nat)
    requires Initial(s) && NoLogin(Run(s, before), labels)
    requires forall i :: 0 <= i < |labels| && labels[i].LoginRequest? ==> a <= labels[i].now <= b
    requires n >= 1 && b - a < s.policy.loginLockout * MICROS * n
    ensures WrongPasswords(Run(s, before), labels) <= s.policy.loginThreshold * n
  {
    CountingStands(s, before);
    GuessesFitTheLockouts(Run(s, before), labels, a, b, n);
  }

  /** Wrong passwords are conserved: each is in the counter or in a lockout. */
  lemma {:induction false} WrongPasswordsAreConserved(s: System, labels: seq<Label>)
    requires Counting(s) && NoLogin(s, labels)
    ensures WrongPasswords(s, labels) + s.user.credential.failedLoginCount
         == s.policy.loginThreshold * Lockouts(s, labels) + Run(s, labels).user.credential.failedLoginCount
    decreases |labels|
  {
    if labels != [] {
      CounterStep(s, labels[0]);
      WrongPasswordsAreConserved(Apply(s, labels[0]), labels[1..]);
      if Locks(s, labels[0]) {
        Scale(s.policy.loginThreshold, Lockouts(s, labels));
      }
    }
  }

  /** Consecutive lockouts are a whole lockout apart: `n` of them in a run with no
      successful login span at least `n - 1` durations. */
  lemma LockoutsAreApart(s: System, labels: seq<Label>, a: nat, b: nat)
    requires Counting(s) && NoLogin(s, labels) && Confined(s.user.credential.lockedUntil, labels, a, b) && a <= b
    ensures var n := Lockouts(s, labels);
      n >= 1 ==> b - a >= s.policy.loginLockout * MICROS * (n - 1)
  {
    WrongPasswordsAreConserved(s, labels);
    var n := Lockouts(s, labels);
    if n >= 2 {
      Scale(s.policy.loginThreshold, n);
      if b - a < s.policy.loginLockout * MICROS * (n - 1) {
        GuessesFitTheLockouts(s, labels, a, b, n - 1);
      }
    }
  }
}
