/** The verification service over its rows. A session reads and writes only while
    an organization context is asserted, and a commit drops the context. */
module ClaimsStore {
  import opened Options
  import opened DomainNames
  import opened DnsBoundary
  import opened Verification
  import opened DomainClaims

  class Session {
    var assets: map<AssetId, Asset>
    var challenges: map<AssetId, Challenge>
    var proofs: map<AssetId, Proof>
    var organizations: map<OrgId, Organization>
    var context: Option<OrgId>

    function Rows(): Claims
      reads this
    {
      Claims(assets, challenges, proofs, organizations)
    }

    constructor (rows: Claims)
      ensures Rows() == rows && context == None
    {
      assets, challenges := rows.assets, rows.challenges;
      proofs, organizations, context := rows.proofs, rows.organizations, None;
    }

    method SetOrgContext(org: OrgId)
      modifies this`context
      ensures context == Some(org)
    {
      context := Some(org);
    }

    /** The context is local to a transaction: committing drops it. */
    method Commit()
      modifies this`context
      ensures context == None
    {
      context := None;
    }

    // ----------------------------------------------------------- the query layer

    /** Row security refuses the write outside the asserted organization. */
    method UpsertChallenge(policy: Policy, id: AssetId, actor: Actor, scope: Scope, domain: string, token: string, now: int)
      requires context == Some(actor.org)
      modifies this`challenges
      ensures Rows() == WithChallenge(old(Rows()), policy, id, actor, scope, domain, token, now)
    {
      var owner := actor.org;
      if id in challenges {
        owner := challenges[id].organizationId;
      }
      challenges := challenges[id := Challenge(owner, scope, RecordName(policy, domain), token,
                                               now + policy.tokenTtl, actor.user, now, None, None)];
    }

    /** The token and expiry as plain values, read afresh. */
    method ChallengeCredentialsFor(id: AssetId) returns (r: Option<(string, int)>)
      ensures var c := ChallengeFor(Rows(), context, id);
        r == if c.Some? then Some((c.value.token, c.value.expiresAt)) else None
    {
      var c := ChallengeFor(Rows(), context, id);
      if c.None? {
        return None;
      }
      r := Some((c.value.token, c.value.expiresAt));
    }

    /** Write the proof, unless the global claim index refuses; nothing is written
        then. */
    method UpsertProof(id: AssetId, p: Proof) returns (conflict: bool)
      requires context == Some(p.organizationId)
      modifies this`proofs
      ensures conflict == ClaimedElsewhere(old(Rows()), id, p.value)
      ensures Rows() == if conflict then old(Rows()) else WithProof(old(Rows()), id, p)
    {
      conflict := ClaimedElsewhere(Rows(), id, p.value);
      if !conflict {
        var owner := p.organizationId;
        if id in proofs {
          owner := proofs[id].organizationId;
        }
        proofs := proofs[id := p.(organizationId := owner)];
      }
    }

    /** How many challenges were stamped: none when the context does not reach
        one, with no other sign of the loss. */
    method StampCheck(id: AssetId, code: Option<FailureCode>, now: int) returns (stamped: nat)
      modifies this`challenges
      ensures stamped == if ChallengeFor(old(Rows()), context, id).Some? then 1 else 0
      ensures Rows() == if stamped == 1 then WithStamp(old(Rows()), id, code, now) else old(Rows())
    {
      if ChallengeFor(Rows(), context, id).None? {
        return 0;
      }
      challenges := challenges[id := challenges[id].(lastRecheckAt := Some(now), failureCode := code)];
      stamped := 1;
    }

    /** One conditional update, confined to the asserted organization. */
    method NameOrganizationIfUnnamed(org: OrgId, value: string, now: int) returns (named: bool)
      modifies this`organizations
      ensures named ==
        (context == Some(org) && org in old(organizations) && old(organizations)[org].namedAt.None?)
      ensures context == Some(org) ==> Rows() == WithName(old(Rows()), org, value, now)
      ensures !named ==> Rows() == old(Rows())
    {
      named := context == Some(org) && org in organizations && organizations[org].namedAt.None?;
      if named {
        organizations := organizations[org := Organization(value, Some(now))];
      }
    }

    // ------------------------------------------------------------------ the service

    /** Record that a check ran; a stamp that reached no row would be an error,
        and under an asserted context it never happens. */
    method Stamp(id: AssetId, code: Option<FailureCode>, now: int)
      requires ChallengeFor(Rows(), context, id).Some?
      modifies this`challenges
      ensures Rows() == WithStamp(old(Rows()), id, code, now)
    {
      var stamped := StampCheck(id, code, now);
      if stamped != 1 {
        assert false;
      }
    }

    /** The answer's status is taken on the clock read after the commit. */
    method StartChallenge(policy: Policy, actor: Actor, id: AssetId, scope: Scope, token: string, now: int, later: int)
        returns (reply: Reply)
      requires context == Some(actor.org)
      modifies this
      ensures Outcome(Rows(), reply) ==
        AnsweredAt(DomainClaims.StartChallenge(old(Rows()), policy, actor, id, scope, token, now), actor, id, later)
      ensures reply.State? ==> context == None
    {
      var asset := AssetFor(Rows(), context, id);
      if asset.None? {
        return Refusal(AssetNotFound);
      }
      if asset.value.assetType != Domain {
        return Refusal(NotADomain);
      }
      UpsertChallenge(policy, id, actor, scope, asset.value.value, token, now);
      Commit();
      reply := StateOf(Rows(), actor, id, later);
    }

    method RegenerateToken(policy: Policy, actor: Actor, id: AssetId, token: string, now: int) returns (reply: Reply)
      requires context == Some(actor.org)
      modifies this
      ensures Outcome(Rows(), reply) == DomainClaims.RegenerateToken(old(Rows()), policy, actor, id, token, now)
      ensures reply.State? ==> context == None
    {
      var asset := AssetFor(Rows(), context, id);
      if asset.None? {
        return Refusal(AssetNotFound);
      }
      if ProofFor(Rows(), context, id).Some? {
        return Refusal(AlreadyVerified);
      }
      var existing := ChallengeFor(Rows(), context, id);
      if existing.None? {
        return Refusal(NotStarted);
      }
      UpsertChallenge(policy, id, actor, existing.value.scope, asset.value.value, token, now);
      reply := StateOf(Rows(), actor, id, now);
      Commit();
    }

    /** The first half of a check: read, then end the transaction before the
        network call. Nothing is written. */
    method BeginCheck(actor: Actor, id: AssetId, now: int) returns (r: Takeoff)
      requires context == Some(actor.org)
      modifies this`context
      ensures r == DomainClaims.BeginCheck(Rows(), actor, id, now)
      ensures r.Airborne? ==> context == None
    {
      var asset := AssetFor(Rows(), context, id);
      if asset.None? {
        return Grounded(AssetNotFound);
      }
      if asset.value.assetType != Domain {
        return Grounded(NotADomain);
      }
      var challenge := ChallengeFor(Rows(), context, id);
      if challenge.None? {
        return Grounded(NotStarted);
      }
      if challenge.value.expiresAt <= now {
        return Grounded(Lapsed);
      }
      r := Airborne(Flight(actor, id, asset.value.value, challenge.value.recordName, challenge.value.token,
                           challenge.value.scope));
      Commit();
    }

    /** The second half, on a connection that has no context until it is asserted
        again. It leaves exactly the specified rows, and whenever it answers with
        the asset's state the context stands for the reads that follow. A check
        that was superseded answers on the clock read after its commit. */
    method FinishCheck(policy: Policy, f: Flight, lookup: LookupResult, now: int, later: int) returns (reply: Reply)
      requires context == None
      modifies this
      ensures Outcome(Rows(), reply) ==
        var o := DomainClaims.FinishCheck(old(Rows()), policy, f, lookup, now);
        if IsSuperseded(old(Rows()), f) then AnsweredAt(o, f.actor, f.asset, later) else o
      ensures reply.State? ==> context == Some(f.actor.org)
    {
      if lookup.Refused? {
        return Refusal(Unavailable);
      }
      SetOrgContext(f.actor.org);
      var standing := ChallengeCredentialsFor(f.asset);
      if standing.None? {
        return Refusal(NotStarted);
      }
      var (currentToken, currentExpiry) := standing.value;
      if currentExpiry <= now {
        return Refusal(Lapsed);
      }
      if currentToken != f.token {
        Stamp(f.asset, Some(ChallengeSuperseded), now);
        Commit();
        SetOrgContext(f.actor.org);
        return StateOf(Rows(), f.actor, f.asset, later);
      } else {
        var verdict := Judge(policy, f, lookup.outcomes);
        if verdict.verified {
          var lost := WriteProof(f, verdict, now);
          if lost {
            return Refusal(Lost);
          }
        } else if PlatformFault(verdict.failureCode) {
          return Refusal(Unavailable);
        } else {
          Stamp(f.asset, verdict.failureCode, now);
        }
      }
      Commit();
      SetOrgContext(f.actor.org);
      reply := StateOf(Rows(), f.actor, f.asset, now);
    }

    /** The savepoint: proof and name together, or neither, and then the stamp. */
    method WriteProof(f: Flight, v: Verdict, now: int) returns (lost: bool)
      requires context == Some(f.actor.org) && ChallengeFor(Rows(), context, f.asset).Some?
      modifies this
      ensures lost == ClaimedElsewhere(old(Rows()), f.asset, f.value)
      ensures Rows() == Adjudicated(old(Rows()), f, v, now).db
      ensures context == if lost then None else Some(f.actor.org)
    {
      lost := UpsertProof(f.asset, ProofOf(f, v, now));
      if lost {
        Stamp(f.asset, Some(ClaimLost), now);
        Commit();
      } else {
        var _ := NameOrganizationIfUnnamed(f.actor.org, f.value, now);
        Stamp(f.asset, None, now);
      }
    }
  }
}
