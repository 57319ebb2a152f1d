/** The verification lifecycle over every interleaving of organizations: each
    transaction is one step, and a check is two of them with anything between. */
module ClaimRuns {
  import opened Options
  import opened DomainNames
  import opened DnsBoundary
  import opened Verification
  import opened DomainClaims

  /** What a token was issued for; tokens are never issued twice. */
  datatype Issue = Issue(asset: AssetId, scope: Scope)

  /** A proof as it was written, with the answers it rests on. */
  datatype Write = Write(flight: Flight, expiresAt: int, outcomes: seq<ResolverOutcome>, at: int)

  /** The rows, the checks waiting on the network, and two histories: every token
      issued and every proof written. */
  datatype System = System(
    db: Claims, policy: Policy, flights: seq<Flight>, issued: map<string, Issue>, writes: seq<Write>)

  datatype Label =
    | Found(org: OrgId, name: string)
    | Register(id: AssetId, asset: Asset)
    | Start(actor: Actor, id: AssetId, scope: Scope, token: string, now: int)
    | Regenerate(actor: Actor, id: AssetId, token: string, now: int)
    | Begin(actor: Actor, id: AssetId, now: int)
    | Finish(k: nat, lookup: LookupResult, now: int)
    | Abandon(k: nat)
    | Release(value: string)

  function Without<T>(s: seq<T>, k: nat): seq<T>
    requires k < |s|
  {
    s[..k] + s[k + 1..]
  }

  /** The asset fits the table: its organization exists and it is not there yet. */
  predicate Insertable(db: Claims, id: AssetId, a: Asset) {
    a.organizationId in db.organizations && id !in db.assets && forall i :: i in db.assets ==> db.assets[i] != a
  }

  /** The rows after a challenge step, and the token on record if it was issued. */
  function AfterIssue(s: System, id: AssetId, token: string, o: Outcome): System {
    s.(db := o.db,
       issued := if id in o.db.challenges && o.db.challenges[id].token == token
                 then s.issued[token := Issue(id, o.db.challenges[id].scope)] else s.issued)
  }

  function AfterFinish(s: System, k: nat, lookup: LookupResult, now: int): System
    requires k < |s.flights|
  {
    var f := s.flights[k];
    s.(db := FinishCheck(s.db, s.policy, f, lookup, now).db,
       flights := Without(s.flights, k),
       writes := if Proves(s.db, s.policy, f, lookup, now) && !ClaimedElsewhere(s.db, f.asset, f.value)
                 then s.writes + [Write(f, s.db.challenges[f.asset].expiresAt, lookup.outcomes, now)] else s.writes)
  }

  /** An operator deletes the proof on one value. */
  function AfterRelease(db: Claims, value: string): Claims {
    db.(proofs := map a | a in db.proofs && db.proofs[a].value != value :: db.proofs[a])
  }

  /** One step. A step that is not enabled changes nothing. */
  function Apply(s: System, l: Label): System {
    match l
    case Found(org, name) =>
      if org in s.db.organizations then s
      else s.(db := s.db.(organizations := s.db.organizations[org := Organization(name, None)]))
    case Register(id, asset) =>
      if Insertable(s.db, id, asset) then s.(db := s.db.(assets := s.db.assets[id := asset])) else s
    case Start(actor, id, scope, token, now) =>
      if token in s.issued then s
      else AfterIssue(s, id, token, StartChallenge(s.db, s.policy, actor, id, scope, token, now))
    case Regenerate(actor, id, token, now) =>
      if token in s.issued then s
      else AfterIssue(s, id, token, RegenerateToken(s.db, s.policy, actor, id, token, now))
    case Begin(actor, id, now) =>
      var t := BeginCheck(s.db, actor, id, now);
      if t.Airborne? then s.(flights := s.flights + [t.flight]) else s
    case Finish(k, lookup, now) => if k < |s.flights| then AfterFinish(s, k, lookup, now) else s
    case Abandon(k) => if k < |s.flights| then s.(flights := Without(s.flights, k)) else s
    case Release(value) => s.(db := AfterRelease(s.db, value))
  }

  function Run(s: System, labels: seq<Label>): System {
    if labels == [] then s else Apply(Run(s, labels[..|labels| - 1]), labels[|labels| - 1])
  }

  predicate Initial(s: System) {
    s.db == Claims(map[], map[], map[], map[]) && s.flights == [] && s.issued == map[] && s.writes == []
  }

  // ---------------------------------------------------------------- invariants

  /** One asset per organization, type and value. */
  predicate AssetsHold(db: Claims) {
    && (forall a :: a in db.assets ==> db.assets[a].organizationId in db.organizations)
    && (forall a, b :: a in db.assets && b in db.assets && db.assets[a] == db.assets[b] ==> a == b)
  }

  /** The reasons a challenge can carry: never the platform's own fault. */
  predicate Stampable(code: FailureCode) {
    code != ResolverUnavailable && code != ExhaustedCapacity && code != ChallengeExpired
  }

  predicate ChallengeHolds(db: Claims, policy: Policy, a: AssetId, c: Challenge) {
    && a in db.assets && db.assets[a].assetType == Domain
    && c.organizationId == db.assets[a].organizationId
    && c.recordName == RecordName(policy, db.assets[a].value)
    && (c.failureCode.Some? ==> c.lastRecheckAt.Some? && Stampable(c.failureCode.value))
  }

  predicate ChallengesHold(db: Claims, policy: Policy) {
    forall a :: a in db.challenges ==> ChallengeHolds(db, policy, a, db.challenges[a])
  }

  /** Every proof is about its asset's value and belongs to its asset's owner. */
  predicate ProofHolds(db: Claims, a: AssetId, p: Proof) {
    && a in db.assets && db.assets[a] == Asset(p.organizationId, Domain, p.value)
  }

  predicate ProofsHold(db: Claims) {
    forall a :: a in db.proofs ==> ProofHolds(db, a, db.proofs[a])
  }

  /** A value is claimed at most once, platform-wide. */
  predicate ClaimsUnique(db: Claims) {
    forall a, b :: a in db.proofs && b in db.proofs && db.proofs[a].value == db.proofs[b].value ==> a == b
  }

  predicate RowsHold(db: Claims, policy: Policy) {
    AssetsHold(db) && ChallengesHold(db, policy) && ProofsHold(db) && ClaimsUnique(db)
  }

  /** What a check carries is what its token was issued for. */
  predicate FlightHolds(db: Claims, policy: Policy, issued: map<string, Issue>, f: Flight) {
    && f.asset in db.assets && db.assets[f.asset] == Asset(f.actor.org, Domain, f.value)
    && f.recordName == RecordName(policy, f.value)
    && f.token in issued && issued[f.token] == Issue(f.asset, f.scope)
  }

  predicate FlightsHold(s: System) {
    forall f :: f in s.flights ==> FlightHolds(s.db, s.policy, s.issued, f)
  }

  /** A standing token was issued for this asset at this scope. */
  predicate TokensHold(s: System) {
    forall a :: a in s.db.challenges ==>
      var c := s.db.challenges[a]; c.token in s.issued && s.issued[c.token] == Issue(a, c.scope)
  }

  /** The answers behind a write verify the token it names, and the token had not
      lapsed. */
  predicate Evident(s: System, w: Write) {
    && FlightHolds(s.db, s.policy, s.issued, w.flight)
    && w.at < w.expiresAt && Judge(s.policy, w.flight, w.outcomes).verified
  }

  predicate WritesHold(s: System) {
    forall k :: 0 <= k < |s.writes| ==> Evident(s, s.writes[k])
  }

  /** Write `k` is where the proof on `a` comes from. */
  predicate Source(s: System, a: AssetId, k: nat) {
    && a in s.db.proofs && k < |s.writes| && s.writes[k].flight.asset == a
    && var w := s.writes[k];
       s.db.proofs[a] == ProofOf(w.flight, Judge(s.policy, w.flight, w.outcomes), w.at)
  }

  ghost predicate ProofsHaveSources(s: System) {
    forall a :: a in s.db.proofs ==> exists k: nat :: Source(s, a, k)
  }

  /** Write `k` is the organization's first. */
  predicate FirstWrite(writes: seq<Write>, org: OrgId, k: nat) {
    k < |writes| && writes[k].flight.actor.org == org && forall j :: 0 <= j < k ==> writes[j].flight.actor.org != org
  }

  /** An organization is named by its first proof, and by that one only. */
  ghost predicate NameHolds(s: System, org: OrgId) {
    org in s.db.organizations &&
    var o := s.db.organizations[org];
    if o.namedAt.None? then forall k :: 0 <= k < |s.writes| ==> s.writes[k].flight.actor.org != org
    else exists k: nat :: FirstWrite(s.writes, org, k) && o == Organization(s.writes[k].flight.value, Some(s.writes[k].at))
  }

  ghost predicate NamesHold(s: System) {
    forall org :: org in s.db.organizations ==> NameHolds(s, org)
  }

  ghost predicate Invariant(s: System) {
    && RowsHold(s.db, s.policy) && FlightsHold(s) && TokensHold(s)
    && WritesHold(s) && ProofsHaveSources(s) && NamesHold(s)
  }

  // --------------------------------------------------------- each step keeps it

  /** Nothing a flight or a write refers to is taken back. */
  predicate Extends(s: System, t: System) {
    && t.policy == s.policy
    && (forall a :: a in s.db.assets ==> a in t.db.assets && t.db.assets[a] == s.db.assets[a])
    && (forall k :: k in s.issued ==> k in t.issued && t.issued[k] == s.issued[k])
  }

  lemma RowsStand(a: Claims, b: Claims, policy: Policy)
    requires RowsHold(a, policy) && ChallengesHold(b, policy)
    requires b.assets == a.assets && b.proofs == a.proofs && b.organizations == a.organizations
    ensures RowsHold(b, policy)
  {
  }

  lemma FlightsStand(s: System, t: System)
    requires FlightsHold(s) && Extends(s, t) && forall f :: f in t.flights ==> f in s.flights
    ensures FlightsHold(t)
  {
    forall f | f in t.flights ensures FlightHolds(t.db, t.policy, t.issued, f) {
      assert FlightHolds(s.db, s.policy, s.issued, f);
    }
  }

  lemma WritesStand(s: System, t: System)
    requires WritesHold(s) && Extends(s, t) && t.writes == s.writes
    ensures WritesHold(t)
  {
    forall k | 0 <= k < |t.writes| ensures Evident(t, t.writes[k]) {
      assert Evident(s, s.writes[k]);
      assert FlightHolds(t.db, t.policy, t.issued, t.writes[k].flight);
    }
  }

  /** Issuing a token on a domain asset of the acting organization. */
  lemma IssueKeeps(s: System, actor: Actor, id: AssetId, scope: Scope, token: string, now: int)
    requires Invariant(s) && token !in s.issued
    requires id in s.db.assets && s.db.assets[id] == Asset(actor.org, Domain, s.db.assets[id].value)
    ensures Invariant(s.(db := WithChallenge(s.db, s.policy, id, actor, scope, s.db.assets[id].value, token, now),
                         issued := s.issued[token := Issue(id, scope)]))
  {
    var t := s.(db := WithChallenge(s.db, s.policy, id, actor, scope, s.db.assets[id].value, token, now),
                issued := s.issued[token := Issue(id, scope)]);
    IssueKeepsChallenges(s.db, s.policy, id, actor, scope, token, now);
    IssueKeepsTokens(s, t, id, scope, token);
    RowsStand(s.db, t.db, s.policy);
    FlightsStand(s, t);
    WritesStand(s, t);
    SameSources(s, t);
    SameNames(s, t);
  }

  lemma IssueKeepsTokens(s: System, t: System, id: AssetId, scope: Scope, token: string)
    requires TokensHold(s) && token !in s.issued && t.issued == s.issued[token := Issue(id, scope)]
    requires id in t.db.challenges && t.db.challenges == s.db.challenges[id := t.db.challenges[id]]
    requires t.db.challenges[id].token == token && t.db.challenges[id].scope == scope
    ensures TokensHold(t)
  {
  }

  lemma IssueKeepsChallenges(
      db: Claims, policy: Policy, id: AssetId, actor: Actor, scope: Scope, token: string, now: int)
    requires ChallengesHold(db, policy)
    requires id in db.assets && db.assets[id] == Asset(actor.org, Domain, db.assets[id].value)
    ensures ChallengesHold(WithChallenge(db, policy, id, actor, scope, db.assets[id].value, token, now), policy)
  {
    var next := WithChallenge(db, policy, id, actor, scope, db.assets[id].value, token, now);
    forall a | a in next.challenges ensures ChallengeHolds(next, policy, a, next.challenges[a]) {
      assert a in db.challenges ==> ChallengeHolds(db, policy, a, db.challenges[a]);
    }
  }

  lemma StartKeeps(s: System, actor: Actor, id: AssetId, scope: Scope, token: string, now: int)
    requires Invariant(s) && token !in s.issued
    ensures Invariant(AfterIssue(s, id, token, StartChallenge(s.db, s.policy, actor, id, scope, token, now)))
  {
    var asset := AssetFor(s.db, Some(actor.org), id);
    if asset.Some? && asset.value.assetType == Domain {
      IssueKeeps(s, actor, id, scope, token, now);
    }
  }

  lemma RegenerateKeeps(s: System, actor: Actor, id: AssetId, token: string, now: int)
    requires Invariant(s) && token !in s.issued
    ensures Invariant(AfterIssue(s, id, token, RegenerateToken(s.db, s.policy, actor, id, token, now)))
  {
    var standing := ChallengeFor(s.db, Some(actor.org), id);
    if standing.Some? {
      IssueKeeps(s, actor, id, standing.value.scope, token, now);
    }
  }

  /** Proofs and their sources are untouched. */
  lemma SameSources(s: System, t: System)
    requires ProofsHaveSources(s) && t.db.proofs == s.db.proofs && t.writes == s.writes && t.policy == s.policy
    ensures ProofsHaveSources(t)
  {
    forall a | a in t.db.proofs ensures exists k: nat :: Source(t, a, k) {
      var k: nat :| Source(s, a, k);
      assert Source(t, a, k);
    }
  }

  lemma SameNames(s: System, t: System)
    requires NamesHold(s) && t.db.organizations == s.db.organizations && t.writes == s.writes
    ensures NamesHold(t)
  {
    forall org | org in t.db.organizations ensures NameHolds(t, org) {
      assert NameHolds(s, org);
    }
  }

  /** Recording that a check ran touches nothing but the attempt. */
  lemma StampKeeps(s: System, a: AssetId, code: Option<FailureCode>, now: int)
    requires Invariant(s) && a in s.db.challenges && (code.Some? ==> Stampable(code.value))
    ensures Invariant(s.(db := WithStamp(s.db, a, code, now)))
  {
    var t := s.(db := WithStamp(s.db, a, code, now));
    StampKeepsChallenges(s.db, s.policy, a, code, now);
    TokensStandAfterStamp(s, t, a);
    RowsStand(s.db, t.db, s.policy);
    FlightsStand(s, t);
    WritesStand(s, t);
    SameSources(s, t);
    SameNames(s, t);
  }

  lemma StepKeeps(s: System, l: Label)
    requires Invariant(s)
    ensures Invariant(Apply(s, l)) && Apply(s, l).policy == s.policy
  {
    match l {
      case Found(org, name) => FoundKeeps(s, org, name);
      case Register(id, asset) => RegisterKeeps(s, id, asset);
      case Start(actor, id, scope, token, now) => if token !in s.issued { StartKeeps(s, actor, id, scope, token, now); }
      case Regenerate(actor, id, token, now) => if token !in s.issued { RegenerateKeeps(s, actor, id, token, now); }
      case Begin(actor, id, now) => BeginKeeps(s, actor, id, now);
      case Finish(k, lookup, now) => if k < |s.flights| { FinishKeeps(s, k, lookup, now); }
      case Abandon(k) => if k < |s.flights| { LandingKeeps(s, k); }
      case Release(value) => ReleaseKeeps(s, value);
    }
  }

  lemma FoundKeeps(s: System, org: OrgId, name: string)
    requires Invariant(s)
    ensures Invariant(Apply(s, Found(org, name)))
  {
    var t := Apply(s, Found(org, name));
    FlightsStand(s, t);
    WritesStand(s, t);
    SameSources(s, t);
    forall o | o in t.db.organizations ensures NameHolds(t, o) {
      if o in s.db.organizations {
        assert NameHolds(s, o);
      } else {
        forall k | 0 <= k < |s.writes| ensures s.writes[k].flight.actor.org != o {
          assert Evident(s, s.writes[k]);
        }
      }
    }
  }

  lemma RegisterKeeps(s: System, id: AssetId, asset: Asset)
    requires Invariant(s)
    ensures Invariant(Apply(s, Register(id, asset)))
  {
    var t := Apply(s, Register(id, asset));
    if Insertable(s.db, id, asset) {
      RegisterKeepsRows(s.db, s.policy, id, asset);
      FlightsStand(s, t);
      WritesStand(s, t);
      SameSources(s, t);
      SameNames(s, t);
    }
  }

  lemma RegisterKeepsRows(db: Claims, policy: Policy, id: AssetId, asset: Asset)
    requires RowsHold(db, policy) && Insertable(db, id, asset)
    ensures RowsHold(db.(assets := db.assets[id := asset]), policy)
  {
    var next := db.(assets := db.assets[id := asset]);
    forall a | a in next.challenges ensures ChallengeHolds(next, policy, a, next.challenges[a]) {
      assert ChallengeHolds(db, policy, a, db.challenges[a]);
    }
    forall a | a in next.proofs ensures ProofHolds(next, a, next.proofs[a]) {
      assert ProofHolds(db, a, db.proofs[a]);
    }
  }

  lemma BeginKeeps(s: System, actor: Actor, id: AssetId, now: int)
    requires Invariant(s)
    ensures Invariant(Apply(s, Begin(actor, id, now)))
  {
    var t := Apply(s, Begin(actor, id, now));
    SameSources(s, t);
    SameNames(s, t);
    WritesStand(s, t);
    FlightTakesOff(s, actor, id, now);
  }

  lemma FlightTakesOff(s: System, actor: Actor, id: AssetId, now: int)
    requires Invariant(s)
    ensures var t := BeginCheck(s.db, actor, id, now);
      t.Airborne? ==> FlightHolds(s.db, s.policy, s.issued, t.flight)
  {
    if BeginCheck(s.db, actor, id, now).Airborne? {
      assert ChallengeHolds(s.db, s.policy, id, s.db.challenges[id]);
    }
  }

  lemma LandingKeeps(s: System, k: nat)
    requires Invariant(s) && k < |s.flights|
    ensures Invariant(s.(flights := Without(s.flights, k)))
  {
    var t := s.(flights := Without(s.flights, k));
    SameSources(s, t);
    SameNames(s, t);
  }

  lemma ReleaseKeeps(s: System, value: string)
    requires Invariant(s)
    ensures Invariant(Apply(s, Release(value)))
  {
    var t := Apply(s, Release(value));
    ReleaseKeepsRows(s.db, s.policy, value);
    FlightsStand(s, t);
    WritesStand(s, t);
    ReleaseKeepsSources(s, value);
    SameNames(s, t);
  }

  lemma ReleaseKeepsRows(db: Claims, policy: Policy, value: string)
    requires RowsHold(db, policy)
    ensures RowsHold(AfterRelease(db, value), policy)
  {
    var next := AfterRelease(db, value);
    forall a | a in next.proofs ensures ProofHolds(next, a, next.proofs[a]) {
      assert ProofHolds(db, a, db.proofs[a]);
    }
    forall a | a in next.challenges ensures ChallengeHolds(next, policy, a, next.challenges[a]) {
      assert ChallengeHolds(db, policy, a, db.challenges[a]);
    }
  }

  lemma ReleaseKeepsSources(s: System, value: string)
    requires ProofsHaveSources(s)
    ensures ProofsHaveSources(s.(db := AfterRelease(s.db, value)))
  {
    var t := s.(db := AfterRelease(s.db, value));
    forall a | a in t.db.proofs ensures exists k: nat :: Source(t, a, k) {
      var k: nat :| Source(s, a, k);
      assert Source(t, a, k);
    }
  }

  lemma FinishKeeps(s: System, k: nat, lookup: LookupResult, now: int)
    requires Invariant(s) && k < |s.flights|
    ensures Invariant(AfterFinish(s, k, lookup, now))
  {
    var f := s.flights[k];
    var u := s.(flights := Without(s.flights, k));
    LandingKeeps(s, k);
    var standing := ChallengeFor(s.db, Some(f.actor.org), f.asset);
    if Proves(s.db, s.policy, f, lookup, now) && !ClaimedElsewhere(s.db, f.asset, f.value) {
      WriteKeeps(u, Write(f, standing.value.expiresAt, lookup.outcomes, now));
    } else if lookup.Resolved? && standing.Some? && standing.value.expiresAt > now {
      FailureIsStampable(s.policy, f, lookup.outcomes);
      StampKeeps(u, f.asset, Some(ChallengeSuperseded), now);
      StampKeeps(u, f.asset, Some(ClaimLost), now);
      var code := Judge(s.policy, f, lookup.outcomes).failureCode;
      if code.Some? && Stampable(code.value) {
        StampKeeps(u, f.asset, code, now);
      }
    }
  }

  lemma FailureIsStampable(policy: Policy, f: Flight, outcomes: seq<ResolverOutcome>)
    ensures var v := Judge(policy, f, outcomes);
      !v.verified ==> v.failureCode.Some? && (PlatformFault(v.failureCode) || Stampable(v.failureCode.value))
  {
  }

  /** What writing a proof does to the whole system. */
  function AfterWrite(s: System, w: Write): System
    requires w.flight.asset in s.db.challenges
  {
    var f := w.flight;
    var proof := ProofOf(f, Judge(s.policy, f, w.outcomes), w.at);
    s.(db := WithStamp(WithName(WithProof(s.db, f.asset, proof), f.actor.org, f.value, w.at), f.asset, None, w.at),
       writes := s.writes + [w])
  }

  lemma WriteKeeps(s: System, w: Write)
    requires Invariant(s) && Evident(s, w) && w.flight.asset in s.db.challenges
    requires !ClaimedElsewhere(s.db, w.flight.asset, w.flight.value)
    ensures Invariant(AfterWrite(s, w))
  {
    var f := w.flight;
    WriteKeepsRows(s, w);
    WriteNamesAll(s, w);
    OwnerStands(s, f, ProofOf(f, Judge(s.policy, f, w.outcomes), w.at));
    WriteKeepsHistory(s, AfterWrite(s, w), w);
  }

  lemma WriteKeepsHistory(s: System, t: System, w: Write)
    requires Invariant(s) && Evident(s, w) && w.flight.asset in s.db.challenges
    requires t.policy == s.policy && t.db.assets == s.db.assets && t.issued == s.issued && t.flights == s.flights
    requires t.writes == s.writes + [w]
    requires var a := w.flight.asset;
      t.db.challenges == s.db.challenges[a := s.db.challenges[a].(lastRecheckAt := Some(w.at), failureCode := None)]
    requires var a := w.flight.asset; var p := ProofOf(w.flight, Judge(s.policy, w.flight, w.outcomes), w.at);
      t.db.proofs == s.db.proofs[a := p]
    ensures FlightsHold(t) && TokensHold(t) && WritesHold(t) && ProofsHaveSources(t)
  {
    FlightsStand(s, t);
    TokensStandAfterStamp(s, t, w.flight.asset);
    WriteStands(s, t, w);
    WriteIsASource(s, t, w);
  }

  lemma WriteIsASource(s: System, t: System, w: Write)
    requires ProofsHaveSources(s) && t.policy == s.policy && t.writes == s.writes + [w]
    requires var a := w.flight.asset; var p := ProofOf(w.flight, Judge(s.policy, w.flight, w.outcomes), w.at);
      t.db.proofs == s.db.proofs[a := p]
    ensures ProofsHaveSources(t)
  {
    var a := w.flight.asset;
    assert Source(t, a, |s.writes|);
    forall b | b in t.db.proofs && b != a ensures exists k: nat :: Source(t, b, k) {
      var k: nat :| Source(s, b, k);
      assert Source(t, b, k);
    }
  }

  /** An existing proof keeps its owner, who is the flight's. */
  lemma OwnerStands(s: System, f: Flight, p: Proof)
    requires ProofsHold(s.db) && FlightHolds(s.db, s.policy, s.issued, f) && p.organizationId == f.actor.org
    ensures WithProof(s.db, f.asset, p) == s.db.(proofs := s.db.proofs[f.asset := p])
  {
    if f.asset in s.db.proofs {
      assert ProofHolds(s.db, f.asset, s.db.proofs[f.asset]);
    }
  }

  lemma WriteNamesAll(s: System, w: Write)
    requires NamesHold(s) && w.flight.asset in s.db.challenges
    ensures NamesHold(AfterWrite(s, w))
  {
    var t := AfterWrite(s, w);
    forall org | org in t.db.organizations ensures NameHolds(t, org) {
      assert NameHolds(s, org);
      WriteNames(s, w, org);
    }
  }

  /** A stamp leaves every token and scope where it was. */
  lemma TokensStandAfterStamp(s: System, t: System, a: AssetId)
    requires TokensHold(s) && t.issued == s.issued && a in s.db.challenges && a in t.db.challenges
    requires t.db.challenges == s.db.challenges[a := t.db.challenges[a]]
    requires t.db.challenges[a].token == s.db.challenges[a].token && t.db.challenges[a].scope == s.db.challenges[a].scope
    ensures TokensHold(t)
  {
  }

  lemma WriteStands(s: System, t: System, w: Write)
    requires WritesHold(s) && Evident(s, w) && Extends(s, t) && t.writes == s.writes + [w]
    ensures WritesHold(t)
  {
    forall k | 0 <= k < |t.writes| ensures Evident(t, t.writes[k]) {
      assert Evident(s, t.writes[k]);
      assert FlightHolds(t.db, t.policy, t.issued, t.writes[k].flight);
    }
  }

  lemma WriteKeepsRows(s: System, w: Write)
    requires Invariant(s) && Evident(s, w) && w.flight.asset in s.db.challenges
    requires !ClaimedElsewhere(s.db, w.flight.asset, w.flight.value)
    ensures RowsHold(AfterWrite(s, w).db, s.policy)
  {
    var f := w.flight;
    ProofKeepsRows(s.db, s.policy, f.asset, ProofOf(f, Judge(s.policy, f, w.outcomes), w.at));
    StampKeepsChallenges(s.db, s.policy, f.asset, None, w.at);
    var t := AfterWrite(s, w).db;
    var u := WithStamp(s.db, f.asset, None, w.at);
    forall a | a in t.challenges ensures ChallengeHolds(t, s.policy, a, t.challenges[a]) {
      assert ChallengeHolds(u, s.policy, a, u.challenges[a]);
    }
  }

  lemma ProofKeepsRows(db: Claims, policy: Policy, id: AssetId, p: Proof)
    requires ProofsHold(db) && ClaimsUnique(db) && ProofHolds(db, id, p) && !ClaimedElsewhere(db, id, p.value)
    ensures ProofsHold(WithProof(db, id, p)) && ClaimsUnique(WithProof(db, id, p))
  {
    var next := WithProof(db, id, p);
    forall a | a in next.proofs ensures ProofHolds(next, a, next.proofs[a]) {
      assert a in db.proofs ==> ProofHolds(db, a, db.proofs[a]);
    }
  }

  lemma StampKeepsChallenges(db: Claims, policy: Policy, id: AssetId, code: Option<FailureCode>, now: int)
    requires ChallengesHold(db, policy) && id in db.challenges && (code.Some? ==> Stampable(code.value))
    ensures ChallengesHold(WithStamp(db, id, code, now), policy)
  {
    var next := WithStamp(db, id, code, now);
    forall a | a in next.challenges ensures ChallengeHolds(next, policy, a, next.challenges[a]) {
      assert ChallengeHolds(db, policy, a, db.challenges[a]);
    }
  }

  lemma WriteNames(s: System, w: Write, org: OrgId)
    requires w.flight.asset in s.db.challenges && NameHolds(s, org)
    ensures NameHolds(AfterWrite(s, w), org)
  {
    var t := AfterWrite(s, w);
    if s.db.organizations[org].namedAt.Some? {
      var k: nat :| FirstWrite(s.writes, org, k)
        && s.db.organizations[org] == Organization(s.writes[k].flight.value, Some(s.writes[k].at));
      assert FirstWrite(t.writes, org, k);
    } else if w.flight.actor.org == org {
      assert FirstWrite(t.writes, org, |s.writes|);
    }
  }

  lemma {:induction false} RunKeeps(s: System, labels: seq<Label>)
    requires Invariant(s)
    ensures Invariant(Run(s, labels)) && Run(s, labels).policy == s.policy
  {
    if labels != [] {
      RunKeeps(s, labels[..|labels| - 1]);
      StepKeeps(Run(s, labels[..|labels| - 1]), labels[|labels| - 1]);
    }
  }
}
