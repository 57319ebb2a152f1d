/** What each transaction of the verification lifecycle answers and leaves behind,
    in any reachable state, in terms of the rows and the resolver answers. */
module ClaimLaws {
  import opened Options
  import opened DomainNames
  import opened DnsBoundary
  import opened Verification
  import opened DomainClaims
  import opened ClaimRuns
  import ClaimSafety

  // ---------------------------------------------------------------- finishing a check

  /** One challenge was stamped with a check at `now`, and no other row moved. */
  predicate OnlyStamped(db: Claims, a: AssetId, code: Option<FailureCode>, now: int, next: Claims) {
    && a in db.challenges
    && next == db.(challenges := db.challenges[a := db.challenges[a].(lastRecheckAt := Some(now), failureCode := code)])
  }

  /** The proof a success leaves: the flight's claim, and how it was established. */
  predicate ProvenBy(p: Proof, f: Flight, outcomes: seq<ResolverOutcome>, now: int) {
    && p.organizationId == f.actor.org && p.scope == f.scope && p.value == f.value
    && p.verifiedAt == now && p.verifiedBy == f.actor.user
    && (p.dnssecValidated <==> forall i :: i in Publishers(outcomes, f.token) ==> outcomes[i].authenticated)
    && p.corroboratingAnswers == |Publishers(outcomes, f.token)| == |p.resolvers|
  }

  /** The answer shows the asset's rows as they now are. */
  predicate Shows(reply: Reply, db: Claims, a: AssetId, now: int) {
    && reply.State? && a in db.challenges && reply.challenge == Some(db.challenges[a])
    && reply.proof == (if a in db.proofs then Some(db.proofs[a]) else None)
    && reply.status == (if a in db.proofs then Verified
                        else if db.challenges[a].expiresAt > now then Pending else Expired)
  }

  /** The outcome of a check whose token stands and is in time. */
  predicate Decided(
      db: Claims, quorum: nat, f: Flight, outcomes: seq<ResolverOutcome>, now: int, next: Claims, reply: Reply)
    requires f.asset in db.challenges
  {
    if Proven(outcomes, f.token, f.scope, quorum) then
      if ClaimSafety.HeldByAnother(db, f.actor.org, f.value)
      then OnlyStamped(db, f.asset, Some(ClaimLost), now, next) && reply == Refusal(Lost)
      else
        && f.asset in next.proofs && ProvenBy(next.proofs[f.asset], f, outcomes, now)
        && next.proofs == db.proofs[f.asset := next.proofs[f.asset]] && next.assets == db.assets
        && OnlyStamped(db.(proofs := next.proofs, organizations := next.organizations), f.asset, None, now, next)
        && Shows(reply, next, f.asset, now) && reply.status == Verified
    else if NoStatement(outcomes) then next == db && reply == Refusal(Unavailable)
    else
      && f.asset in next.challenges && var code := next.challenges[f.asset].failureCode;
         && code.Some? && Fits(code.value, outcomes, f.token, f.scope, quorum)
         && OnlyStamped(db, f.asset, code, now, next) && Shows(reply, next, f.asset, now)
  }

  /** What finishing a check does: nothing when the lookup was refused, when no
      challenge stands or when it has lapsed; a superseded stamp exactly when another
      token stands; and otherwise what the answers decide. */
  predicate Finished(db: Claims, quorum: nat, f: Flight, lookup: LookupResult, now: int, next: Claims, reply: Reply) {
    if lookup.Refused? then next == db && reply == Refusal(Unavailable)
    else if f.asset !in db.challenges then next == db && reply == Refusal(NotStarted)
    else if db.challenges[f.asset].expiresAt <= now then next == db && reply == Refusal(Lapsed)
    else if db.challenges[f.asset].token != f.token
    then OnlyStamped(db, f.asset, Some(ChallengeSuperseded), now, next) && Shows(reply, next, f.asset, now)
    else Decided(db, quorum, f, lookup.outcomes, now, next, reply)
  }

  /** In any reachable state, every check finishes as its lookup, the standing
      challenge and the answers say. */
  lemma FinishingMeans(s: System, labels: seq<Label>, k: nat, lookup: LookupResult, now: int)
    requires Initial(s) && k < |Run(s, labels).flights|
    ensures var t := Run(s, labels);
      var f, o := t.flights[k], FinishCheck(t.db, t.policy, t.flights[k], lookup, now);
      && AfterFinish(t, k, lookup, now).db == o.db
      && Finished(t.db, t.policy.quorum, f, lookup, now, o.db, o.reply)
  {
    ClaimSafety.Starts(s);
    RunKeeps(s, labels);
    var t := Run(s, labels);
    assert FlightHolds(t.db, t.policy, t.issued, t.flights[k]);
    FlightFinishes(t, t.flights[k], lookup, now);
  }

  lemma FlightFinishes(t: System, f: Flight, lookup: LookupResult, now: int)
    requires RowsHold(t.db, t.policy) && FlightHolds(t.db, t.policy, t.issued, f)
    ensures var o := FinishCheck(t.db, t.policy, f, lookup, now);
      Finished(t.db, t.policy.quorum, f, lookup, now, o.db, o.reply)
  {
    if lookup.Resolved? && f.asset in t.db.challenges {
      assert ChallengeHolds(t.db, t.policy, f.asset, t.db.challenges[f.asset]);
      if t.db.challenges[f.asset].expiresAt > now {
        if t.db.challenges[f.asset].token == f.token {
          StandingDecides(t, f, lookup, now);
        } else {
          StampShows(t, f, Some(ChallengeSuperseded), now);
        }
      }
    }
  }

  lemma StampShows(s: System, f: Flight, code: Option<FailureCode>, now: int)
    requires RowsHold(s.db, s.policy) && FlightHolds(s.db, s.policy, s.issued, f) && f.asset in s.db.challenges
    ensures var o := Stamped(s.db, f, code, now);
      OnlyStamped(s.db, f.asset, code, now, o.db) && Shows(o.reply, o.db, f.asset, now)
  {
    assert ChallengeHolds(s.db, s.policy, f.asset, s.db.challenges[f.asset]);
    if f.asset in s.db.proofs {
      assert ProofHolds(s.db, f.asset, s.db.proofs[f.asset]);
    }
  }

  lemma StandingDecides(s: System, f: Flight, lookup: LookupResult, now: int)
    requires RowsHold(s.db, s.policy) && FlightHolds(s.db, s.policy, s.issued, f) && lookup.Resolved?
    requires f.asset in s.db.challenges && s.db.challenges[f.asset].organizationId == f.actor.org
    requires s.db.challenges[f.asset].expiresAt > now && s.db.challenges[f.asset].token == f.token
    ensures var o := FinishCheck(s.db, s.policy, f, lookup, now);
      Decided(s.db, s.policy.quorum, f, lookup.outcomes, now, o.db, o.reply)
  {
    var v := Judge(s.policy, f, lookup.outcomes);
    ReasonExactlyWhen(lookup.outcomes, f.token, f.scope, s.policy.quorum);
    if v.verified {
      AdjudicationDecides(s, f, lookup.outcomes, now);
    } else {
      FailureFits(lookup.outcomes, f.token, f.scope, s.policy.quorum);
      StampShows(s, f, v.failureCode, now);
    }
  }

  lemma AdjudicationDecides(s: System, f: Flight, outcomes: seq<ResolverOutcome>, now: int)
    requires RowsHold(s.db, s.policy) && FlightHolds(s.db, s.policy, s.issued, f)
    requires f.asset in s.db.challenges && Judge(s.policy, f, outcomes).verified
    ensures var o := Adjudicated(s.db, f, Judge(s.policy, f, outcomes), now);
      Proven(outcomes, f.token, f.scope, s.policy.quorum) ==>
        Decided(s.db, s.policy.quorum, f, outcomes, now, o.db, o.reply)
  {
    ClaimSafety.ElsewhereIsAnother(s, f);
    var v := Judge(s.policy, f, outcomes);
    var p := ProofOf(f, v, now);
    OwnerStands(s, f, p);
    ProvenanceIsTheCarriers(outcomes, f.token, f.scope, s.policy.quorum);
    CarriersPublish(outcomes, f.token);
    SuccessShows(s, f, p, now);
  }

  lemma SuccessShows(s: System, f: Flight, p: Proof, now: int)
    requires RowsHold(s.db, s.policy) && FlightHolds(s.db, s.policy, s.issued, f) && f.asset in s.db.challenges
    requires p.organizationId == f.actor.org
    ensures var named := WithName(s.db.(proofs := s.db.proofs[f.asset := p]), f.actor.org, f.value, now);
      var o := Stamped(named, f, None, now);
      && OnlyStamped(s.db.(proofs := s.db.proofs[f.asset := p], organizations := o.db.organizations), f.asset, None, now, o.db)
      && Shows(o.reply, o.db, f.asset, now) && o.reply.status == Verified
  {
    assert ChallengeHolds(s.db, s.policy, f.asset, s.db.challenges[f.asset]);
  }

  // ------------------------------------------------------ issuing and reading

  /** A fresh challenge for a domain, at a scope, with no attempt on record. */
  predicate Issued(policy: Policy, org: OrgId, user: Option<UserId>, scope: Scope, domain: string, token: string, now: int, c: Challenge) {
    && c.organizationId == org && c.requestedBy == user && c.scope == scope && c.token == token
    && c.recordName == "_" + policy.recordPrefix + "-verify." + domain
    && c.requestedAt == now && c.expiresAt == now + policy.tokenTtl
    && c.lastRecheckAt == None && c.failureCode == None
  }

  predicate OnlyIssued(db: Claims, a: AssetId, next: Claims) {
    a in next.challenges && next == db.(challenges := db.challenges[a := next.challenges[a]])
  }

  predicate Visible(db: Claims, org: OrgId, a: AssetId) {
    a in db.assets && db.assets[a].organizationId == org
  }

  /** Starting a challenge issues one at the requested scope exactly for a domain
      asset of the acting organization, replacing whatever stood. */
  lemma StartingMeans(s: System, actor: Actor, a: AssetId, scope: Scope, token: string, now: int)
    requires RowsHold(s.db, s.policy)
    ensures var o := StartChallenge(s.db, s.policy, actor, a, scope, token, now);
      if !Visible(s.db, actor.org, a) then o == Outcome(s.db, Refusal(AssetNotFound))
      else if s.db.assets[a].assetType != Domain then o == Outcome(s.db, Refusal(NotADomain))
      else
        && OnlyIssued(s.db, a, o.db) && Shows(o.reply, o.db, a, now)
        && Issued(s.policy, actor.org, actor.user, scope, s.db.assets[a].value, token, now, o.db.challenges[a])
  {
    if a in s.db.challenges {
      assert ChallengeHolds(s.db, s.policy, a, s.db.challenges[a]);
    }
    if a in s.db.proofs {
      assert ProofHolds(s.db, a, s.db.proofs[a]);
    }
  }

  /** Regenerating does the same at the standing scope, and exactly when a challenge
      stands and no proof does. */
  lemma RegeneratingMeans(s: System, actor: Actor, a: AssetId, token: string, now: int)
    requires RowsHold(s.db, s.policy)
    ensures var o := RegenerateToken(s.db, s.policy, actor, a, token, now);
      if !Visible(s.db, actor.org, a) then o == Outcome(s.db, Refusal(AssetNotFound))
      else if a in s.db.proofs then o == Outcome(s.db, Refusal(AlreadyVerified))
      else if a !in s.db.challenges then o == Outcome(s.db, Refusal(NotStarted))
      else
        && OnlyIssued(s.db, a, o.db) && Shows(o.reply, o.db, a, now)
        && Issued(s.policy, actor.org, actor.user, s.db.challenges[a].scope, s.db.assets[a].value, token, now,
                  o.db.challenges[a])
  {
    if a in s.db.challenges {
      assert ChallengeHolds(s.db, s.policy, a, s.db.challenges[a]);
    }
    if a in s.db.proofs {
      assert ProofHolds(s.db, a, s.db.proofs[a]);
    }
  }

  /** A check takes off exactly on a visible domain asset whose challenge is in time,
      and carries what stands there. */
  lemma BeginningMeans(s: System, actor: Actor, a: AssetId, now: int)
    requires RowsHold(s.db, s.policy)
    ensures var t := BeginCheck(s.db, actor, a, now);
      if !Visible(s.db, actor.org, a) then t == Grounded(AssetNotFound)
      else if s.db.assets[a].assetType != Domain then t == Grounded(NotADomain)
      else if a !in s.db.challenges then t == Grounded(NotStarted)
      else if s.db.challenges[a].expiresAt <= now then t == Grounded(Lapsed)
      else
        var c := s.db.challenges[a];
        t == Airborne(Flight(actor, a, s.db.assets[a].value, c.recordName, c.token, c.scope))
  {
    if a in s.db.challenges {
      assert ChallengeHolds(s.db, s.policy, a, s.db.challenges[a]);
    }
  }

  /** Reading answers for a visible asset with a proof or a challenge: verified
      exactly with a proof, else pending exactly while the challenge is in time. */
  lemma ReadingMeans(s: System, actor: Actor, a: AssetId, now: int)
    requires RowsHold(s.db, s.policy)
    ensures var reply := ReadState(s.db, actor, a, now);
      && (reply == Refusal(AssetNotFound) <==> !Visible(s.db, actor.org, a))
      && (reply == Refusal(NotStarted) <==>
            Visible(s.db, actor.org, a) && a !in s.db.proofs && a !in s.db.challenges)
      && (reply.State? <==> Visible(s.db, actor.org, a) && (a in s.db.proofs || a in s.db.challenges))
      && (reply.State? ==>
            && (reply.status == Verified <==> a in s.db.proofs)
            && (reply.status == Pending <==>
                  a !in s.db.proofs && a in s.db.challenges && s.db.challenges[a].expiresAt > now)
            && (reply.proof.Some? <==> a in s.db.proofs) && (a in s.db.proofs ==> reply.proof == Some(s.db.proofs[a]))
            && (a in s.db.challenges ==> reply.challenge == Some(s.db.challenges[a])))
  {
    if a in s.db.challenges {
      assert ChallengeHolds(s.db, s.policy, a, s.db.challenges[a]);
    }
    if a in s.db.proofs {
      assert ProofHolds(s.db, a, s.db.proofs[a]);
    }
  }

  /** Releasing a value deletes exactly the proofs on it. */
  lemma ReleasingMeans(s: System, value: string)
    ensures var t := Apply(s, Release(value));
      && t == s.(db := s.db.(proofs := t.db.proofs))
      && (forall a :: a in t.db.proofs <==> a in s.db.proofs && s.db.proofs[a].value != value)
      && (forall a :: a in t.db.proofs ==> t.db.proofs[a] == s.db.proofs[a])
  {
  }
}
