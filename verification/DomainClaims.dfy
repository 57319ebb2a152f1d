/** Challenges, proofs and the platform-wide claim on a domain: the rows, and
    what each transaction of the verification lifecycle leaves of them. */
module DomainClaims {
  import opened Options
  import opened DomainNames
  import opened DnsBoundary
  import opened Verification

  type OrgId = nat
  type UserId = nat
  type AssetId = nat

  datatype AssetType = Domain | OtherType

  datatype Asset = Asset(organizationId: OrgId, assetType: AssetType, value: string)

  datatype Challenge = Challenge(
    organizationId: OrgId, scope: Scope, recordName: string, token: string, expiresAt: int,
    requestedBy: Option<UserId>, requestedAt: int, lastRecheckAt: Option<int>, failureCode: Option<FailureCode>)

  datatype Proof = Proof(
    organizationId: OrgId, scope: Scope, value: string, verifiedAt: int, verifiedBy: Option<UserId>,
    dnssecValidated: bool, resolvers: seq<string>, corroboratingAnswers: nat)

  datatype Organization = Organization(name: string, namedAt: Option<int>)

  /** The rows; challenges and proofs are keyed by their unique asset. */
  datatype Claims = Claims(
    assets: map<AssetId, Asset>, challenges: map<AssetId, Challenge>,
    proofs: map<AssetId, Proof>, organizations: map<OrgId, Organization>)

  /** The deployment's settings. */
  datatype Policy = Policy(quorum: nat, tokenTtl: nat, recordPrefix: string)

  function RecordName(policy: Policy, domain: string): string {
    "_" + policy.recordPrefix + "-verify." + domain
  }

  /** The acting organization and user of a request. */
  datatype Actor = Actor(org: OrgId, user: Option<UserId>)

  // -------------------------------------------------------- what a session sees

  /** A session sees the rows of the organization it asserted, and without an
      assertion none at all. */
  function AssetFor(db: Claims, context: Option<OrgId>, id: AssetId): Option<Asset> {
    if id in db.assets && context == Some(db.assets[id].organizationId) then Some(db.assets[id]) else None
  }

  function ChallengeFor(db: Claims, context: Option<OrgId>, id: AssetId): Option<Challenge> {
    if id in db.challenges && context == Some(db.challenges[id].organizationId) then Some(db.challenges[id]) else None
  }

  function ProofFor(db: Claims, context: Option<OrgId>, id: AssetId): Option<Proof> {
    if id in db.proofs && context == Some(db.proofs[id].organizationId) then Some(db.proofs[id]) else None
  }

  // ------------------------------------------------------------------ statements

  /** Issue or replace the asset's challenge; attempt state starts afresh. */
  function WithChallenge(
      db: Claims, policy: Policy, id: AssetId, actor: Actor, scope: Scope, domain: string, token: string, now: int)
    : Claims
  {
    var owner := if id in db.challenges then db.challenges[id].organizationId else actor.org;
    db.(challenges := db.challenges[id := Challenge(owner, scope, RecordName(policy, domain), token,
                                                    now + policy.tokenTtl, actor.user, now, None, None)])
  }

  /** Record that a check ran, and why it did not succeed. */
  function WithStamp(db: Claims, id: AssetId, code: Option<FailureCode>, now: int): Claims
    requires id in db.challenges
  {
    db.(challenges := db.challenges[id := db.challenges[id].(lastRecheckAt := Some(now), failureCode := code)])
  }

  /** Some other asset's proof holds the value: the global claim index refuses. */
  predicate ClaimedElsewhere(db: Claims, id: AssetId, value: string) {
    exists other :: other in db.proofs && other != id && db.proofs[other].value == value
  }

  function WithProof(db: Claims, id: AssetId, p: Proof): Claims {
    var owner := if id in db.proofs then db.proofs[id].organizationId else p.organizationId;
    db.(proofs := db.proofs[id := p.(organizationId := owner)])
  }

  /** Name the organization, unless its name is settled. */
  function WithName(db: Claims, org: OrgId, value: string, now: int): Claims {
    if org in db.organizations && db.organizations[org].namedAt.None?
    then db.(organizations := db.organizations[org := Organization(value, Some(now))]) else db
  }

  // ---------------------------------------------------------------- transactions

  datatype ClaimError =
    | AssetNotFound | NotADomain | NotStarted | AlreadyVerified | Lapsed | Lost | Unavailable

  datatype Reply = State(status: Status, proof: Option<Proof>, challenge: Option<Challenge>) | Refusal(error: ClaimError)

  /** The rows that stand when the request ends, and its answer. */
  datatype Outcome = Outcome(db: Claims, reply: Reply)

  function StateOf(db: Claims, actor: Actor, id: AssetId, now: int): Reply {
    var proof, challenge := ProofFor(db, Some(actor.org), id), ChallengeFor(db, Some(actor.org), id);
    State(ComputeStatus(proof.Some?, if challenge.Some? then Some(challenge.value.expiresAt) else None, now), proof, challenge)
  }

  /** The same outcome, its status taken on a later clock. */
  function AnsweredAt(o: Outcome, actor: Actor, id: AssetId, later: int): Outcome {
    if o.reply.State? then o.(reply := StateOf(o.db, actor, id, later)) else o
  }

  function ReadState(db: Claims, actor: Actor, id: AssetId, now: int): Reply {
    if AssetFor(db, Some(actor.org), id).None? then Refusal(AssetNotFound)
    else if ProofFor(db, Some(actor.org), id).None? && ChallengeFor(db, Some(actor.org), id).None? then Refusal(NotStarted)
    else StateOf(db, actor, id, now)
  }

  function StartChallenge(
      db: Claims, policy: Policy, actor: Actor, id: AssetId, scope: Scope, token: string, now: int): Outcome
  {
    match AssetFor(db, Some(actor.org), id)
    case None => Outcome(db, Refusal(AssetNotFound))
    case Some(asset) =>
      if asset.assetType != Domain then Outcome(db, Refusal(NotADomain))
      else
        var next := WithChallenge(db, policy, id, actor, scope, asset.value, token, now);
        Outcome(next, StateOf(next, actor, id, now))
  }

  /** Replace the token and expiry, keeping the scope. */
  function RegenerateToken(db: Claims, policy: Policy, actor: Actor, id: AssetId, token: string, now: int): Outcome {
    match AssetFor(db, Some(actor.org), id)
    case None => Outcome(db, Refusal(AssetNotFound))
    case Some(asset) =>
      if ProofFor(db, Some(actor.org), id).Some? then Outcome(db, Refusal(AlreadyVerified))
      else match ChallengeFor(db, Some(actor.org), id)
        case None => Outcome(db, Refusal(NotStarted))
        case Some(existing) =>
          var next := WithChallenge(db, policy, id, actor, existing.scope, asset.value, token, now);
          Outcome(next, StateOf(next, actor, id, now))
  }

  /** What a check carries across the network call: everything read before it. */
  datatype Flight = Flight(
    actor: Actor, asset: AssetId, value: string, recordName: string, token: string, scope: Scope)

  datatype Takeoff = Airborne(flight: Flight) | Grounded(error: ClaimError)

  /** A check's first transaction: read the standing challenge. */
  function BeginCheck(db: Claims, actor: Actor, id: AssetId, now: int): Takeoff {
    match AssetFor(db, Some(actor.org), id)
    case None => Grounded(AssetNotFound)
    case Some(asset) =>
      if asset.assetType != Domain then Grounded(NotADomain)
      else match ChallengeFor(db, Some(actor.org), id)
        case None => Grounded(NotStarted)
        case Some(c) =>
          if c.expiresAt <= now then Grounded(Lapsed)
          else Airborne(Flight(actor, id, asset.value, c.recordName, c.token, c.scope))
  }

  predicate PlatformFault(code: Option<FailureCode>) {
    code == Some(ResolverUnavailable) || code == Some(ExhaustedCapacity)
  }

  function Judge(policy: Policy, f: Flight, outcomes: seq<ResolverOutcome>): Verdict {
    Evaluate(outcomes, f.token, f.scope, policy.quorum)
  }

  /** The proof a verified check writes. */
  function ProofOf(f: Flight, v: Verdict, now: int): Proof {
    Proof(f.actor.org, f.scope, f.value, now, f.actor.user, v.dnssecValidated, v.resolvers, v.corroboratingAnswers)
  }

  function Stamped(db: Claims, f: Flight, code: Option<FailureCode>, now: int): Outcome
    requires f.asset in db.challenges
  {
    var next := WithStamp(db, f.asset, code, now);
    Outcome(next, StateOf(next, f.actor, f.asset, now))
  }

  /** A check's second transaction, once the lookup is back: re-read the standing
      challenge, decide, and write the proof or the reason there is none. */
  function FinishCheck(db: Claims, policy: Policy, f: Flight, lookup: LookupResult, now: int): Outcome {
    if lookup.Refused? then Outcome(db, Refusal(Unavailable))
    else match ChallengeFor(db, Some(f.actor.org), f.asset)
      case None => Outcome(db, Refusal(NotStarted))
      case Some(standing) =>
        if standing.expiresAt <= now then Outcome(db, Refusal(Lapsed))
        else if standing.token != f.token then Stamped(db, f, Some(ChallengeSuperseded), now)
        else
          var v := Judge(policy, f, lookup.outcomes);
          if v.verified then Adjudicated(db, f, v, now)
          else if PlatformFault(v.failureCode) then Outcome(db, Refusal(Unavailable))
          else Stamped(db, f, v.failureCode, now)
  }

  /** Another token than the one that was looked up stands. */
  predicate IsSuperseded(db: Claims, f: Flight) {
    var standing := ChallengeFor(db, Some(f.actor.org), f.asset);
    standing.Some? && standing.value.token != f.token
  }

  /** A verified check meets the global claim index. */
  function Adjudicated(db: Claims, f: Flight, v: Verdict, now: int): Outcome
    requires f.asset in db.challenges
  {
    if ClaimedElsewhere(db, f.asset, f.value)
    then Outcome(WithStamp(db, f.asset, Some(ClaimLost), now), Refusal(Lost))
    else Stamped(WithName(WithProof(db, f.asset, ProofOf(f, v, now)), f.actor.org, f.value, now), f, None, now)
  }

  /** The check reached the claim index with a verdict in its favour. */
  predicate Proves(db: Claims, policy: Policy, f: Flight, lookup: LookupResult, now: int) {
    && lookup.Resolved?
    && var standing := ChallengeFor(db, Some(f.actor.org), f.asset);
       && standing.Some? && standing.value.expiresAt > now && standing.value.token == f.token
       && Judge(policy, f, lookup.outcomes).verified
  }
}
