/** What the verification lifecycle guarantees over every run. */
module ClaimSafety {
  import opened Options
  import opened DomainNames
  import opened DnsBoundary
  import opened Verification
  import opened DomainClaims
  import opened ClaimRuns

  lemma Starts(s: System)
    requires Initial(s)
    ensures Invariant(s)
  {
  }

  /** In every reachable state a value is claimed at most once across the whole
      platform, each proof is about its own asset's value and belongs to its
      owner, and every stamped reason follows a recorded check and is the user's
      to act on. */
  lemma EveryReachableState(s: System, labels: seq<Label>)
    requires Initial(s)
    ensures var db := Run(s, labels).db;
      && (forall a, b :: a in db.proofs && b in db.proofs && a != b ==> db.proofs[a].value != db.proofs[b].value)
      && (forall a :: a in db.proofs ==>
            a in db.assets && db.assets[a] == Asset(db.proofs[a].organizationId, Domain, db.proofs[a].value))
      && (forall a :: a in db.challenges && db.challenges[a].failureCode.Some? ==>
            db.challenges[a].lastRecheckAt.Some? && Stampable(db.challenges[a].failureCode.value))
  {
    Starts(s);
    RunKeeps(s, labels);
    var t := Run(s, labels);
    forall a | a in t.db.proofs
      ensures a in t.db.assets && t.db.assets[a] == Asset(t.db.proofs[a].organizationId, Domain, t.db.proofs[a].value)
    {
      assert ProofHolds(t.db, a, t.db.proofs[a]);
    }
    forall a | a in t.db.challenges && t.db.challenges[a].failureCode.Some?
      ensures t.db.challenges[a].lastRecheckAt.Some? && Stampable(t.db.challenges[a].failureCode.value)
    {
      assert ChallengeHolds(t.db, t.policy, a, t.db.challenges[a]);
    }
  }

  /** Every proof that stands rests on answers that verify it: they carry a token
      issued for this asset at the recorded scope and not lapsed when the proof
      was written, and a zone proof rests on validated answers alone. */
  lemma EveryProofHasEvidence(s: System, labels: seq<Label>, a: AssetId) returns (w: Write)
    requires Initial(s) && a in Run(s, labels).db.proofs
    ensures var t := Run(s, labels);
      var p, token, carriers := t.db.proofs[a], w.flight.token, Carriers(w.outcomes, w.flight.token);
      && w in t.writes && w.flight.asset == a && w.at == p.verifiedAt < w.expiresAt
      && token in t.issued && t.issued[token] == Issue(a, p.scope)
      && w.flight.recordName == RecordName(t.policy, p.value)
      && carriers != {}
      && (p.scope == Zone || |carriers| < t.policy.quorum ==> forall i :: i in carriers ==> w.outcomes[i].authenticated)
  {
    Starts(s);
    RunKeeps(s, labels);
    var t := Run(s, labels);
    var k: nat :| Source(t, a, k);
    w := t.writes[k];
    assert Evident(t, w);
    assert ProofHolds(t.db, a, t.db.proofs[a]);
    VerifiesExactlyWhen(w.outcomes, w.flight.token, w.flight.scope, t.policy.quorum);
  }

  // ---------------------------------------------------------- writing a proof

  /** What finishing a check may write as a proof, in any reachable state: the
      token it resolved is the standing one and has not lapsed, and although the
      scope was read before the lookup it is the standing challenge's scope. */
  lemma AWrittenProofIsTheStandingChallenges(s: System, k: nat, lookup: LookupResult, now: int)
    requires Invariant(s) && k < |s.flights|
    requires AfterFinish(s, k, lookup, now).writes != s.writes
    ensures var f := s.flights[k];
      && f.asset in s.db.challenges
      && var c, t := s.db.challenges[f.asset], AfterFinish(s, k, lookup, now);
         && c.token == f.token && c.scope == f.scope && c.recordName == f.recordName && now < c.expiresAt
         && f.asset in t.db.proofs && t.db.proofs[f.asset].scope == c.scope
         && t.db.proofs[f.asset].value == s.db.assets[f.asset].value
         && t.db.proofs[f.asset].verifiedAt == now
  {
    var f := s.flights[k];
    assert FlightHolds(s.db, s.policy, s.issued, f);
    assert ChallengeHolds(s.db, s.policy, f.asset, s.db.challenges[f.asset]);
    OwnerStands(s, f, ProofOf(f, Judge(s.policy, f, lookup.outcomes), now));
  }

  /** Proofs and names change only with a write; every other finish at most stamps
      the flight's own challenge. */
  lemma NoWriteNoProof(s: System, k: nat, lookup: LookupResult, now: int)
    requires Invariant(s) && k < |s.flights|
    requires AfterFinish(s, k, lookup, now).writes == s.writes
    ensures var f, t := s.flights[k], AfterFinish(s, k, lookup, now);
      && t.db.proofs == s.db.proofs && t.db.organizations == s.db.organizations && t.db.assets == s.db.assets
      && (t.db == s.db
          || (f.asset in s.db.challenges && exists code :: t.db == WithStamp(s.db, f.asset, Some(code), now)))
  {
    FinishShape(s.db, s.policy, s.flights[k], lookup, now);
  }

  /** Finishing a check writes a proof, stamps a reason, or leaves every row. */
  lemma FinishShape(db: Claims, policy: Policy, f: Flight, lookup: LookupResult, now: int)
    ensures var next := FinishCheck(db, policy, f, lookup, now).db;
      if Proves(db, policy, f, lookup, now) && !ClaimedElsewhere(db, f.asset, f.value)
      then
        && f.asset in db.challenges
        && var p := ProofOf(f, Judge(policy, f, lookup.outcomes), now);
           next == WithStamp(WithName(WithProof(db, f.asset, p), f.actor.org, f.value, now), f.asset, None, now)
      else next == db || (f.asset in db.challenges && exists code :: next == WithStamp(db, f.asset, Some(code), now))
  {
    var o := FinishCheck(db, policy, f, lookup, now);
    if lookup.Resolved? && ChallengeFor(db, Some(f.actor.org), f.asset).Some? {
      var code := Judge(policy, f, lookup.outcomes).failureCode;
      FailureIsStampable(policy, f, lookup.outcomes);
      assert o.db == db
        || o.db == WithStamp(db, f.asset, Some(ChallengeSuperseded), now)
        || o.db == WithStamp(db, f.asset, Some(ClaimLost), now)
        || o.db == WithStamp(db, f.asset, code, now)
        || (Proves(db, policy, f, lookup, now) && !ClaimedElsewhere(db, f.asset, f.value));
      if code.Some? {
        assert code == Some(code.value);
      }
    }
  }

  /** A check whose token was replaced while it looked writes no proof and says
      so: the only trace is a superseded stamp. */
  lemma ReplacedInFlight(s: System, k: nat, lookup: LookupResult, now: int)
    requires Invariant(s) && k < |s.flights| && lookup.Resolved?
    requires var f := s.flights[k];
      f.asset in s.db.challenges && s.db.challenges[f.asset].token != f.token && s.db.challenges[f.asset].expiresAt > now
    ensures var f, o := s.flights[k], FinishCheck(s.db, s.policy, s.flights[k], lookup, now);
      o.db == WithStamp(s.db, f.asset, Some(ChallengeSuperseded), now) && o.reply.State?
      && AfterFinish(s, k, lookup, now).writes == s.writes
  {
    var f := s.flights[k];
    assert FlightHolds(s.db, s.policy, s.issued, f);
    assert ChallengeHolds(s.db, s.policy, f.asset, s.db.challenges[f.asset]);
  }

  predicate Stands(db: Claims, token: string) {
    exists a :: a in db.challenges && db.challenges[a].token == token
  }

  /** A replaced token never stands again. */
  lemma {:induction false} RetiredTokensStayRetired(s: System, labels: seq<Label>, token: string)
    requires Invariant(s) && token in s.issued && !Stands(s.db, token)
    ensures var t := Run(s, labels); token in t.issued && !Stands(t.db, token)
  {
    if labels != [] {
      var n := |labels| - 1;
      RetiredTokensStayRetired(s, labels[..n], token);
      RetiredStep(Run(s, labels[..n]), labels[n], token);
    }
  }

  lemma RetiredStep(s: System, l: Label, token: string)
    requires token in s.issued && !Stands(s.db, token)
    ensures var t := Apply(s, l); token in t.issued && !Stands(t.db, token)
  {
    var t := Apply(s, l);
    forall a | a in t.db.challenges ensures t.db.challenges[a].token != token {
      StandingOrIssued(s, l, a);
    }
  }

  /** A token that stands after a step stood before it or was issued by it. */
  lemma StandingOrIssued(s: System, l: Label, a: AssetId)
    requires a in Apply(s, l).db.challenges
    ensures var token := Apply(s, l).db.challenges[a].token;
      (a in s.db.challenges && s.db.challenges[a].token == token) || token !in s.issued
  {
    if l.Finish? && l.k < |s.flights| {
      FinishLeavesTokens(s.db, s.policy, s.flights[l.k], l.lookup, l.now, a);
    }
  }

  lemma FinishLeavesTokens(db: Claims, policy: Policy, f: Flight, lookup: LookupResult, now: int, a: AssetId)
    ensures var next := FinishCheck(db, policy, f, lookup, now).db;
      a in next.challenges ==> a in db.challenges && next.challenges[a].token == db.challenges[a].token
  {
    FinishShape(db, policy, f, lookup, now);
  }

  /** So a check begun under a token that has been replaced never yields a proof,
      however long it stays in flight. */
  lemma ReplacedNeverProves(s: System, labels: seq<Label>, f: Flight, k: nat, lookup: LookupResult, now: int)
    requires Invariant(s) && f in s.flights && !Stands(s.db, f.token)
    requires var t := Run(s, labels); k < |t.flights| && t.flights[k] == f
    ensures var t := Run(s, labels); AfterFinish(t, k, lookup, now).db.proofs == t.db.proofs
  {
    assert FlightHolds(s.db, s.policy, s.issued, f);
    RetiredTokensStayRetired(s, labels, f.token);
    RunKeeps(s, labels);
    var t := Run(s, labels);
    if AfterFinish(t, k, lookup, now).writes != t.writes {
      AWrittenProofIsTheStandingChallenges(t, k, lookup, now);
    } else {
      NoWriteNoProof(t, k, lookup, now);
    }
  }

  // ------------------------------------------------------------- losing a claim

  /** Another organization holds the value. */
  predicate HeldByAnother(db: Claims, org: OrgId, value: string) {
    exists a :: a in db.proofs && db.proofs[a].value == value && db.proofs[a].organizationId != org
  }

  /** Within one organization the value names one asset, so any other proof of it
      is another organization's. */
  lemma ElsewhereIsAnother(s: System, f: Flight)
    requires RowsHold(s.db, s.policy) && FlightHolds(s.db, s.policy, s.issued, f)
    ensures ClaimedElsewhere(s.db, f.asset, f.value) <==> HeldByAnother(s.db, f.actor.org, f.value)
  {
    forall a | a in s.db.proofs && s.db.proofs[a].value == f.value
      ensures a != f.asset <==> s.db.proofs[a].organizationId != f.actor.org
    {
      assert ProofHolds(s.db, a, s.db.proofs[a]);
    }
  }

  /** A check loses its claim exactly when its answers prove the name and another
      organization holds it. The refusal leaves a stamp on the challenge and
      nothing else: no proof, no rename. */
  lemma LostExactlyWhen(s: System, k: nat, lookup: LookupResult, now: int)
    requires Invariant(s) && k < |s.flights|
    ensures var f, o := s.flights[k], FinishCheck(s.db, s.policy, s.flights[k], lookup, now);
      && (o.reply == Refusal(Lost) <==>
            Proves(s.db, s.policy, f, lookup, now) && HeldByAnother(s.db, f.actor.org, f.value))
      && (o.reply == Refusal(Lost) ==>
            f.asset in s.db.challenges && o.db == WithStamp(s.db, f.asset, Some(ClaimLost), now))
  {
    assert FlightHolds(s.db, s.policy, s.issued, s.flights[k]);
    ElsewhereIsAnother(s, s.flights[k]);
  }

  /** Proving one's own domain again, or at a wider scope, never loses. */
  lemma ReprovingNeverLoses(s: System, k: nat, lookup: LookupResult, now: int)
    requires Invariant(s) && k < |s.flights| && s.flights[k].asset in s.db.proofs
    ensures FinishCheck(s.db, s.policy, s.flights[k], lookup, now).reply != Refusal(Lost)
  {
    var f := s.flights[k];
    assert FlightHolds(s.db, s.policy, s.issued, f);
    assert ProofHolds(s.db, f.asset, s.db.proofs[f.asset]);
    LostExactlyWhen(s, k, lookup, now);
  }

  // ------------------------------------------------------------ a claim is kept

  /** The same claim: the asset's proof is there, of the same value and owner. */
  predicate SameClaim(before: Claims, after: Claims, a: AssetId)
    requires a in before.proofs
  {
    && a in after.proofs && after.proofs[a].value == before.proofs[a].value
    && after.proofs[a].organizationId == before.proofs[a].organizationId
  }

  lemma ClaimStep(s: System, l: Label, a: AssetId)
    requires ProofsHold(s.db) && FlightsHold(s) && a in s.db.proofs && l != Release(s.db.proofs[a].value)
    ensures SameClaim(s.db, Apply(s, l).db, a)
  {
    match l {
      case Finish(k, lookup, now) =>
        if k < |s.flights| {
          FinishKeepsClaims(s, s.flights[k], lookup, now, a);
        }
      case Release(value) => assert s.db.proofs[a].value != value;
      case _ => OtherStepsKeepProofs(s, l);
    }
  }

  lemma OtherStepsKeepProofs(s: System, l: Label)
    requires !l.Finish? && !l.Release?
    ensures Apply(s, l).db.proofs == s.db.proofs
  {
  }

  lemma FinishKeepsClaims(s: System, f: Flight, lookup: LookupResult, now: int, a: AssetId)
    requires ProofsHold(s.db) && FlightHolds(s.db, s.policy, s.issued, f) && a in s.db.proofs
    ensures SameClaim(s.db, FinishCheck(s.db, s.policy, f, lookup, now).db, a)
  {
    assert ProofHolds(s.db, a, s.db.proofs[a]);
    FinishShape(s.db, s.policy, f, lookup, now);
  }

  /** A claim is terminal: until an operator releases the value, its organization
      keeps the proof, and so no other organization ever holds it. */
  lemma {:induction false} AClaimIsKept(s: System, labels: seq<Label>, a: AssetId)
    requires Invariant(s) && a in s.db.proofs && Release(s.db.proofs[a].value) !in labels
    ensures var t, p := Run(s, labels), s.db.proofs[a];
      SameClaim(s.db, t.db, a) && !HeldByAnother(t.db, p.organizationId, p.value)
  {
    RunKeeps(s, labels);
    if labels != [] {
      var n := |labels| - 1;
      AClaimIsKept(s, labels[..n], a);
      RunKeeps(s, labels[..n]);
      ClaimStep(Run(s, labels[..n]), labels[n], a);
    }
  }

  /** Coverage in force is not withdrawn while ownership is proved again: whatever
      challenges come and go, the owner keeps reading `verified`. */
  lemma ReprovingKeepsTheStatus(s: System, labels: seq<Label>, a: AssetId, actor: Actor, now: int)
    requires Invariant(s) && a in s.db.proofs && Release(s.db.proofs[a].value) !in labels
    requires s.db.proofs[a].organizationId == actor.org
    ensures var reply := ReadState(Run(s, labels).db, actor, a, now); reply.State? && reply.status == Verified
  {
    AClaimIsKept(s, labels, a);
    RunKeeps(s, labels);
    OwnerReadsVerified(Run(s, labels).db, actor, a, now);
  }

  lemma OwnerReadsVerified(db: Claims, actor: Actor, a: AssetId, now: int)
    requires ProofsHold(db) && a in db.proofs && db.proofs[a].organizationId == actor.org
    ensures var reply := ReadState(db, actor, a, now); reply.State? && reply.status == Verified
  {
    assert ProofHolds(db, a, db.proofs[a]);
  }

  // ---------------------------------------------------------------- being named

  /** An organization is named exactly from its first proof on, after the domain
      and at the instant of that proof. */
  lemma NamedByTheFirstProof(s: System, labels: seq<Label>, org: OrgId)
    requires Initial(s) && org in Run(s, labels).db.organizations
    ensures var t := Run(s, labels);
      var o := t.db.organizations[org];
      && (o.namedAt.Some? <==> exists k :: 0 <= k < |t.writes| && t.writes[k].flight.actor.org == org)
      && (forall k: nat :: FirstWrite(t.writes, org, k) ==>
            o == Organization(t.writes[k].flight.value, Some(t.writes[k].at)))
  {
    Starts(s);
    RunKeeps(s, labels);
    var t := Run(s, labels);
    assert NameHolds(t, org);
    if t.db.organizations[org].namedAt.Some? {
      var j: nat :| FirstWrite(t.writes, org, j)
        && t.db.organizations[org] == Organization(t.writes[j].flight.value, Some(t.writes[j].at));
      forall k: nat | FirstWrite(t.writes, org, k) ensures k == j {
        OnlyOneIsFirst(t.writes, org, j, k);
      }
    }
  }

  lemma OnlyOneIsFirst(writes: seq<Write>, org: OrgId, j: nat, k: nat)
    requires FirstWrite(writes, org, j) && FirstWrite(writes, org, k)
    ensures j == k
  {
  }

  lemma NameStep(s: System, l: Label, org: OrgId)
    requires org in s.db.organizations && s.db.organizations[org].namedAt.Some?
    ensures var t := Apply(s, l); org in t.db.organizations && t.db.organizations[org] == s.db.organizations[org]
  {
  }

  /** Once named, an organization keeps its name. */
  lemma {:induction false} ANameIsSettled(s: System, labels: seq<Label>, org: OrgId)
    requires org in s.db.organizations && s.db.organizations[org].namedAt.Some?
    ensures var t := Run(s, labels); org in t.db.organizations && t.db.organizations[org] == s.db.organizations[org]
  {
    if labels != [] {
      var n := |labels| - 1;
      ANameIsSettled(s, labels[..n], org);
      NameStep(Run(s, labels[..n]), labels[n], org);
    }
  }

  // -------------------------------------------------------------- who covers what

  /** Two claims that cover one name are one above the other, never side by side
      and never equal: uniqueness is of values, so a zone above and a name inside
      it may belong to different organizations. */
  lemma CoveringClaimsAreNested(s: System, labels: seq<Label>, a: AssetId, b: AssetId, target: string)
    requires Initial(s)
    requires var db := Run(s, labels).db;
      && a in db.proofs && b in db.proofs && a != b
      && Covers(db.proofs[a].value, db.proofs[a].scope, target) && Covers(db.proofs[b].value, db.proofs[b].scope, target)
    ensures var db := Run(s, labels).db;
      var p, q := db.proofs[a].value, db.proofs[b].value;
      p != q && (Covers(p, Zone, q) || Covers(q, Zone, p))
  {
    EveryReachableState(s, labels);
    var db := Run(s, labels).db;
    ExactIsWithinZone(db.proofs[a].value, db.proofs[a].scope, target);
    ExactIsWithinZone(db.proofs[b].value, db.proofs[b].scope, target);
    CoveringZonesAreNested(db.proofs[a].value, db.proofs[b].value, target);
  }

  lemma ExactIsWithinZone(value: string, scope: Scope, target: string)
    requires Covers(value, scope, target)
    ensures Covers(value, Zone, target)
  {
  }
}
