/** What a set of resolver answers proves about a challenge. */
module Verification {
  import opened Options
  import opened DomainNames
  import opened DnsBoundary

  datatype FailureCode =
    | RecordNotFound | NoSuchName | TokenMismatch | ResolverFailure | CorroborationNotReached
    | ChallengeExpired | ChallengeSuperseded | ZoneRequiresDnssec
    | ResolverUnavailable | ExhaustedCapacity | ClaimLost

  datatype Status = Verified | Pending | Expired

  /** The status the two stored rows imply; a proof wins over a challenge. */
  function ComputeStatus(hasProof: bool, expiresAt: Option<int>, now: int): Status {
    if hasProof then Verified
    else if expiresAt.Some? && expiresAt.value > now then Pending
    else Expired
  }

  // -------------------------------------------------------------- token matching

  function Flatten(strings: Record): seq<byte> {
    if strings == [] then [] else strings[0] + Flatten(strings[1..])
  }

  predicate IsAscii(s: string) {
    forall i :: 0 <= i < |s| ==> s[i] < '\U{80}'
  }

  function Encode(s: string): seq<byte>
    requires IsAscii(s)
  {
    seq(|s|, i requires 0 <= i < |s| => (s[i] as int) as byte)
  }

  function TokenMatches(token: string, rrset: seq<Record>): bool {
    IsAscii(token) && exists i :: 0 <= i < |rrset| && Flatten(rrset[i]) == Encode(token)
  }

  /** A record spells the token: its strings, joined, are the token's characters. */
  predicate Spells(record: Record, token: string) {
    var text := Flatten(record);
    |text| == |token| && forall i :: 0 <= i < |text| ==> text[i] as int == token[i] as int
  }

  /** A token matches exactly when it is ASCII and some single record spells it. */
  lemma TokenMatchesExactlyWhen(token: string, rrset: seq<Record>)
    ensures TokenMatches(token, rrset) <==> IsAscii(token) && exists i :: 0 <= i < |rrset| && Spells(rrset[i], token)
  {
    if IsAscii(token) {
      forall i | 0 <= i < |rrset| ensures Flatten(rrset[i]) == Encode(token) <==> Spells(rrset[i], token) {
        if Spells(rrset[i], token) {
          assert Flatten(rrset[i]) == Encode(token);
        }
      }
    }
  }

  /** Joining goes string by string. */
  lemma FlattenOne(x: seq<byte>)
    ensures Flatten([x]) == x
  {
    assert [x][1..] == [];
  }

  lemma {:induction false} FlattenConcat(a: Record, b: Record)
    ensures Flatten(a + b) == Flatten(a) + Flatten(b)
  {
    if a == [] {
      assert a + b == b;
    } else {
      assert (a + b)[1..] == a[1..] + b;
      FlattenConcat(a[1..], b);
    }
  }

  /** Where a record's text is cut into character-strings does not matter. */
  lemma CuttingDoesNotMatter(token: string, before: seq<Record>, a: Record, x: seq<byte>, y: seq<byte>, b: Record, after: seq<Record>)
    ensures TokenMatches(token, before + [a + [x, y] + b] + after)
       <==> TokenMatches(token, before + [a + [x + y] + b] + after)
  {
    FlattenConcat(a + [x, y], b);
    FlattenConcat(a, [x, y]);
    FlattenConcat(a + [x + y], b);
    FlattenConcat(a, [x + y]);
    assert [x, y][1..] == [y] && Flatten([y]) == y && Flatten([x + y]) == x + y;
    SameMatch(token, before, a + [x, y] + b, a + [x + y] + b, after);
    SameMatch(token, before, a + [x + y] + b, a + [x, y] + b, after);
  }

  lemma SameMatch(token: string, before: seq<Record>, r: Record, s: Record, after: seq<Record>)
    requires Flatten(r) == Flatten(s)
    ensures TokenMatches(token, before + [r] + after) ==> TokenMatches(token, before + [s] + after)
  {
    var rs, ss := before + [r] + after, before + [s] + after;
    if TokenMatches(token, rs) {
      var i :| 0 <= i < |rs| && Flatten(rs[i]) == Encode(token);
      assert Flatten(ss[i]) == Encode(token);
    }
  }

  /** Records never combine: a set matches exactly when one of its parts does. */
  lemma RecordsDoNotCombine(token: string, a: seq<Record>, b: seq<Record>)
    ensures TokenMatches(token, a + b) <==> TokenMatches(token, a) || TokenMatches(token, b)
  {
    if TokenMatches(token, a + b) {
      var i :| 0 <= i < |a + b| && Flatten((a + b)[i]) == Encode(token);
      assert i < |a| || (a + b)[i] == b[i - |a|];
    }
    if TokenMatches(token, a) {
      var i :| 0 <= i < |a| && Flatten(a[i]) == Encode(token);
      assert (a + b)[i] == a[i];
    }
    if TokenMatches(token, b) {
      var i :| 0 <= i < |b| && Flatten(b[i]) == Encode(token);
      assert (a + b)[|a| + i] == b[i];
    }
  }

  // ------------------------------------------------------------------ the verdict

  datatype Verdict = Verdict(
    verified: bool, failureCode: Option<FailureCode>, dnssecValidated: bool,
    resolvers: seq<string>, corroboratingAnswers: nat)

  function Failed(code: FailureCode): Verdict {
    Verdict(false, Some(code), false, [], 0)
  }

  predicate Carries(o: ResolverOutcome, token: string) {
    o.outcome == Answered && TokenMatches(token, o.strings)
  }

  function Carrying(outcomes: seq<ResolverOutcome>, token: string): seq<ResolverOutcome> {
    if outcomes == [] then []
    else (if Carries(outcomes[0], token) then [outcomes[0]] else []) + Carrying(outcomes[1..], token)
  }

  function Ids(outcomes: seq<ResolverOutcome>): seq<string> {
    seq(|outcomes|, i requires 0 <= i < |outcomes| => outcomes[i].resolverId)
  }

  predicate AllValidated(outcomes: seq<ResolverOutcome>) {
    forall o :: o in outcomes ==> o.authenticated
  }

  /** Some resolver ended this way. */
  predicate Saw(outcomes: seq<ResolverOutcome>, k: DnsOutcome) {
    exists o :: o in outcomes && o.outcome == k
  }

  predicate PlatformOutcome(k: DnsOutcome) {
    k in {Timeout, TransportFailure, NotAttempted}
  }

  predicate AllPlatform(outcomes: seq<ResolverOutcome>) {
    forall o :: o in outcomes ==> PlatformOutcome(o.outcome)
  }

  /** The code when no resolver answered. */
  function NoAnswerCode(outcomes: seq<ResolverOutcome>): FailureCode {
    if outcomes != [] && AllPlatform(outcomes) then ResolverUnavailable
    else if Saw(outcomes, NoRecord) then RecordNotFound
    else if Saw(outcomes, NameNotFound) then NoSuchName
    else if Saw(outcomes, ServerFailure) then ResolverFailure
    else if Saw(outcomes, TransportFailure) then ResolverFailure
    else ResolverFailure
  }

  /** The code when resolvers answered but none carried the token. */
  function NoTokenCode(outcomes: seq<ResolverOutcome>): FailureCode {
    if forall o :: o in outcomes && o.outcome == Answered ==> o.strings == []
    then RecordNotFound else TokenMismatch
  }

  function Evaluate(outcomes: seq<ResolverOutcome>, token: string, scope: Scope, quorum: nat): Verdict {
    if !Saw(outcomes, Answered) then Failed(NoAnswerCode(outcomes))
    else
      var carrying := Carrying(outcomes, token);
      if carrying == [] then Failed(NoTokenCode(outcomes))
      else
        var validated := AllValidated(carrying);
        if scope == Zone && !validated then
          Verdict(false, Some(ZoneRequiresDnssec), false, Ids(carrying), |carrying|)
        else if validated || |carrying| >= quorum then
          Verdict(true, None, validated, Ids(carrying), |carrying|)
        else
          Verdict(false, Some(CorroborationNotReached), false, Ids(carrying), |carrying|)
  }

  // --------------------------------------------------------- when it verifies

  /** The positions of the answers that carry the token. */
  function Carriers(outcomes: seq<ResolverOutcome>, token: string): set<nat> {
    set i: nat | i < |outcomes| && Carries(outcomes[i], token)
  }

  lemma {:induction false} CarryingMembers(outcomes: seq<ResolverOutcome>, token: string, o: ResolverOutcome)
    ensures o in Carrying(outcomes, token) <==> o in outcomes && Carries(o, token)
  {
    if outcomes != [] {
      CarryingMembers(outcomes[1..], token, o);
    }
  }

  /** One more answer at the end: both the filtered answers and the carriers gain
      it, or neither does. */
  lemma CarryingOneMore(rest: seq<ResolverOutcome>, last: ResolverOutcome, token: string)
    ensures |Carrying(rest + [last], token)| == |Carrying(rest, token)| + (if Carries(last, token) then 1 else 0)
  {
    CarryingAppend(rest, [last], token);
    assert Carrying([last], token) == if Carries(last, token) then [last] else [];
  }

  lemma CarriersOneMore(rest: seq<ResolverOutcome>, last: ResolverOutcome, token: string)
    ensures |Carriers(rest + [last], token)| == |Carriers(rest, token)| + (if Carries(last, token) then 1 else 0)
  {
    var n := |rest|;
    assert Carriers(rest + [last], token) == Carriers(rest, token) + (if Carries(last, token) then {n} else {});
  }

  /** The filtered answers are the carriers, counted once each. */
  lemma {:induction false} CarryingCount(outcomes: seq<ResolverOutcome>, token: string)
    ensures |Carrying(outcomes, token)| == |Carriers(outcomes, token)|
  {
    if outcomes != [] {
      var n := |outcomes| - 1;
      CarryingCount(outcomes[..n], token);
      CarryingOneMore(outcomes[..n], outcomes[n], token);
      CarriersOneMore(outcomes[..n], outcomes[n], token);
      assert outcomes == outcomes[..n] + [outcomes[n]];
    }
  }

  lemma CarryingAreTheCarriers(outcomes: seq<ResolverOutcome>, token: string)
    ensures |Carrying(outcomes, token)| == |Carriers(outcomes, token)|
    ensures AllValidated(Carrying(outcomes, token))
       <==> forall i :: i in Carriers(outcomes, token) ==> outcomes[i].authenticated
  {
    CarryingCount(outcomes, token);
    forall o ensures o in Carrying(outcomes, token) <==> o in outcomes && Carries(o, token) {
      CarryingMembers(outcomes, token, o);
    }
  }

  /** A check verifies exactly when some answer carries the token and either all
      that do are validated, or the scope is exact and they reach the quorum. */
  lemma VerifiesExactlyWhen(outcomes: seq<ResolverOutcome>, token: string, scope: Scope, quorum: nat)
    ensures Evaluate(outcomes, token, scope, quorum).verified
       <==> (var carriers := Carriers(outcomes, token);
             && carriers != {}
             && ((forall i :: i in carriers ==> outcomes[i].authenticated) || (scope == Exact && |carriers| >= quorum)))
  {
    CarryingAreTheCarriers(outcomes, token);
    CarryingNeedsAnAnswer(outcomes, token);
  }

  lemma CarryingNeedsAnAnswer(outcomes: seq<ResolverOutcome>, token: string)
    ensures Carrying(outcomes, token) != [] ==> Saw(outcomes, Answered)
  {
    if Carrying(outcomes, token) != [] {
      CarryingMembers(outcomes, token, Carrying(outcomes, token)[0]);
    }
  }

  /** Some resolver ended with this outcome. */
  predicate Ended(outcomes: seq<ResolverOutcome>, k: DnsOutcome) {
    exists i :: 0 <= i < |outcomes| && outcomes[i].outcome == k
  }

  /** No resolver made a statement about the name: each timed out, failed in
      transport or was not reached. */
  predicate NoStatement(outcomes: seq<ResolverOutcome>) {
    outcomes != [] && forall i :: 0 <= i < |outcomes| ==>
      outcomes[i].outcome == Timeout || outcomes[i].outcome == TransportFailure || outcomes[i].outcome == NotAttempted
  }

  /** Every answer came without a record. */
  predicate OnlyEmptyAnswers(outcomes: seq<ResolverOutcome>) {
    forall i :: 0 <= i < |outcomes| && outcomes[i].outcome == Answered ==> outcomes[i].strings == []
  }

  /** The positions whose answer publishes the token. */
  function Publishers(outcomes: seq<ResolverOutcome>, token: string): set<nat> {
    set i: nat | i < |outcomes| && outcomes[i].outcome == Answered && IsAscii(token)
                 && exists k :: 0 <= k < |outcomes[i].strings| && Spells(outcomes[i].strings[k], token)
  }

  /** The answers prove the claim: some publish the token, and all that do are
      validated, or the scope is exact and they reach the quorum. */
  predicate Proven(outcomes: seq<ResolverOutcome>, token: string, scope: Scope, quorum: nat) {
    var publishers := Publishers(outcomes, token);
    publishers != {} &&
    ((forall i :: i in publishers ==> outcomes[i].authenticated) || (scope == Exact && |publishers| >= quorum))
  }

  /** The situation each reason belongs to; no two overlap. */
  predicate Fits(code: FailureCode, outcomes: seq<ResolverOutcome>, token: string, scope: Scope, quorum: nat) {
    var answered, silent := Ended(outcomes, Answered), Publishers(outcomes, token) == {};
    match code
    case ResolverUnavailable => NoStatement(outcomes)
    case NoSuchName => !answered && !Ended(outcomes, NoRecord) && Ended(outcomes, NameNotFound)
    case ResolverFailure =>
      !answered && !Ended(outcomes, NoRecord) && !Ended(outcomes, NameNotFound)
      && (outcomes == [] || Ended(outcomes, ServerFailure))
    case RecordNotFound => if answered then OnlyEmptyAnswers(outcomes) else Ended(outcomes, NoRecord)
    case TokenMismatch => answered && silent && !OnlyEmptyAnswers(outcomes)
    case ZoneRequiresDnssec => !silent && !Proven(outcomes, token, scope, quorum) && scope == Zone
    case CorroborationNotReached => !silent && !Proven(outcomes, token, scope, quorum) && scope == Exact
    case _ => false
  }

  lemma SeenIsEnded(outcomes: seq<ResolverOutcome>)
    ensures forall k :: Saw(outcomes, k) <==> Ended(outcomes, k)
    ensures outcomes != [] && AllPlatform(outcomes) <==> NoStatement(outcomes)
    ensures NoTokenCode(outcomes) == (if OnlyEmptyAnswers(outcomes) then RecordNotFound else TokenMismatch)
  {
    forall k ensures Saw(outcomes, k) <==> Ended(outcomes, k) {
      if Ended(outcomes, k) {
        var i :| 0 <= i < |outcomes| && outcomes[i].outcome == k;
        assert outcomes[i] in outcomes;
      }
    }
    forall i | 0 <= i < |outcomes| ensures outcomes[i] in outcomes {
    }
  }

  lemma CarriersPublish(outcomes: seq<ResolverOutcome>, token: string)
    ensures Carriers(outcomes, token) == Publishers(outcomes, token)
  {
    forall i: nat | i < |outcomes| ensures i in Carriers(outcomes, token) <==> i in Publishers(outcomes, token) {
      TokenMatchesExactlyWhen(token, outcomes[i].strings);
    }
  }

  lemma SilenceWhenEmpty(outcomes: seq<ResolverOutcome>, token: string)
    requires OnlyEmptyAnswers(outcomes)
    ensures Publishers(outcomes, token) == {}
  {
  }

  /** Each reason is given in exactly its situation, and a success in the one that
      is left. */
  lemma ReasonExactlyWhen(outcomes: seq<ResolverOutcome>, token: string, scope: Scope, quorum: nat)
    ensures var v := Evaluate(outcomes, token, scope, quorum);
      && (v.verified <==> Proven(outcomes, token, scope, quorum))
      && (v.failureCode == None <==> v.verified)
      && forall code :: v.failureCode == Some(code) <==> Fits(code, outcomes, token, scope, quorum)
  {
    CarryingAreTheCarriers(outcomes, token);
    CarryingNeedsAnAnswer(outcomes, token);
    VerifiesExactlyWhen(outcomes, token, scope, quorum);
    CarriersPublish(outcomes, token);
    SeenIsEnded(outcomes);
    var v := Evaluate(outcomes, token, scope, quorum);
    if v.failureCode.Some? {
      FailureFits(outcomes, token, scope, quorum);
      forall code | Fits(code, outcomes, token, scope, quorum) ensures code == v.failureCode.value {
        OneSituation(code, v.failureCode.value, outcomes, token, scope, quorum);
      }
    } else {
      SuccessFitsNone(outcomes, token, scope, quorum);
    }
  }

  lemma FailureFits(outcomes: seq<ResolverOutcome>, token: string, scope: Scope, quorum: nat)
    requires Evaluate(outcomes, token, scope, quorum).failureCode.Some?
    ensures Fits(Evaluate(outcomes, token, scope, quorum).failureCode.value, outcomes, token, scope, quorum)
  {
    CarryingAreTheCarriers(outcomes, token);
    CarryingNeedsAnAnswer(outcomes, token);
    VerifiesExactlyWhen(outcomes, token, scope, quorum);
    CarriersPublish(outcomes, token);
    SeenIsEnded(outcomes);
    if !Ended(outcomes, Answered) {
      SilentCodes(outcomes);
    }
  }

  lemma OneSituation(
      c: FailureCode, d: FailureCode, outcomes: seq<ResolverOutcome>, token: string, scope: Scope, quorum: nat)
    requires Fits(c, outcomes, token, scope, quorum) && Fits(d, outcomes, token, scope, quorum)
    ensures c == d
  {
    if OnlyEmptyAnswers(outcomes) {
      SilenceWhenEmpty(outcomes, token);
    }
    PublishersAnswer(outcomes, token);
    StatementsExclude(outcomes);
  }

  lemma PublishersAnswer(outcomes: seq<ResolverOutcome>, token: string)
    ensures Publishers(outcomes, token) != {} ==> Ended(outcomes, Answered)
  {
    if Publishers(outcomes, token) != {} {
      var i :| i in Publishers(outcomes, token);
      assert outcomes[i].outcome == Answered;
    }
  }

  lemma StatementsExclude(outcomes: seq<ResolverOutcome>)
    ensures NoStatement(outcomes) ==>
      && outcomes != [] && !Ended(outcomes, Answered) && !Ended(outcomes, NoRecord)
      && !Ended(outcomes, NameNotFound) && !Ended(outcomes, ServerFailure)
  {
  }

  lemma SuccessFitsNone(outcomes: seq<ResolverOutcome>, token: string, scope: Scope, quorum: nat)
    requires Proven(outcomes, token, scope, quorum)
    ensures forall code :: !Fits(code, outcomes, token, scope, quorum)
  {
    PublishersAnswer(outcomes, token);
    StatementsExclude(outcomes);
    if OnlyEmptyAnswers(outcomes) {
      SilenceWhenEmpty(outcomes, token);
    }
  }

  /** Among the codes of a silent check: a transport failure alone never decides,
      for without a server failure everything seen is the platform's fault. */
  lemma SilentCodes(outcomes: seq<ResolverOutcome>)
    requires !Saw(outcomes, Answered)
    ensures var code := NoAnswerCode(outcomes);
      && (code == ResolverUnavailable <==> outcomes != [] && AllPlatform(outcomes))
      && (code == RecordNotFound <==> Saw(outcomes, NoRecord))
      && (code == NoSuchName <==> !Saw(outcomes, NoRecord) && Saw(outcomes, NameNotFound))
      && (code == ResolverFailure <==>
            !Saw(outcomes, NoRecord) && !Saw(outcomes, NameNotFound) && (outcomes == [] || Saw(outcomes, ServerFailure)))
  {
  }

  /** What a success records: every carrier, in resolver order, and validation
      whenever the scope is a zone. */
  lemma ProvenanceIsTheCarriers(outcomes: seq<ResolverOutcome>, token: string, scope: Scope, quorum: nat)
    ensures var v := Evaluate(outcomes, token, scope, quorum);
      && v.corroboratingAnswers == |v.resolvers|
      && (v.verified ==>
            && v.corroboratingAnswers == |Carriers(outcomes, token)| >= 1
            && (scope == Zone ==> v.dnssecValidated)
            && (v.dnssecValidated <==> forall i :: i in Carriers(outcomes, token) ==> outcomes[i].authenticated)
            && (!v.dnssecValidated ==> v.corroboratingAnswers >= quorum))
  {
    CarryingAreTheCarriers(outcomes, token);
  }

  /** The filtered answers are the carriers in resolver order: reading `at` gives
      their positions, each once. */
  lemma {:induction false} CarryingInOrder(outcomes: seq<ResolverOutcome>, token: string) returns (at: seq<nat>)
    ensures |at| == |Carrying(outcomes, token)|
    ensures forall k :: 0 <= k < |at| ==> at[k] < |outcomes| && Carrying(outcomes, token)[k] == outcomes[at[k]]
    ensures forall j, k :: 0 <= j < k < |at| ==> at[j] < at[k]
    ensures forall i: nat :: i in at <==> i in Carriers(outcomes, token)
  {
    at := [];
    if outcomes != [] {
      var n := |outcomes| - 1;
      var rest, last := outcomes[..n], outcomes[n];
      at := CarryingInOrder(rest, token);
      CarryingAppend(rest, [last], token);
      assert outcomes == rest + [last];
      assert Carrying([last], token) == if Carries(last, token) then [last] else [];
      if Carries(last, token) {
        at := at + [n];
      }
    }
  }

  /** What a verdict records of its resolvers: the carriers' identifiers, in order. */
  lemma RecordedResolvers(outcomes: seq<ResolverOutcome>, token: string, scope: Scope, quorum: nat)
      returns (at: seq<nat>)
    requires Evaluate(outcomes, token, scope, quorum).verified
    ensures var v := Evaluate(outcomes, token, scope, quorum);
      && |v.resolvers| == |at|
      && (forall k :: 0 <= k < |at| ==> at[k] < |outcomes| && v.resolvers[k] == outcomes[at[k]].resolverId)
      && (forall j, k :: 0 <= j < k < |at| ==> at[j] < at[k])
      && (forall i: nat :: i in at <==> i in Publishers(outcomes, token))
  {
    at := CarryingInOrder(outcomes, token);
    CarriersPublish(outcomes, token);
  }

  // ------------------------------------------- order, silence and more answers

  lemma {:induction false} CarryingAppend(a: seq<ResolverOutcome>, b: seq<ResolverOutcome>, token: string)
    ensures Carrying(a + b, token) == Carrying(a, token) + Carrying(b, token)
  {
    if a == [] {
      assert a + b == b;
    } else {
      assert (a + b)[1..] == a[1..] + b;
      CarryingAppend(a[1..], b, token);
    }
  }

  lemma {:induction false} CarryingKeepsCopies(outcomes: seq<ResolverOutcome>, token: string, o: ResolverOutcome)
    ensures multiset(Carrying(outcomes, token))[o] == if Carries(o, token) then multiset(outcomes)[o] else 0
  {
    if outcomes != [] {
      CarryingKeepsCopies(outcomes[1..], token, o);
      assert outcomes == [outcomes[0]] + outcomes[1..];
    }
  }

  /** Filtering sees only which answers there are. */
  lemma CarryingIgnoresOrder(a: seq<ResolverOutcome>, b: seq<ResolverOutcome>, token: string)
    requires multiset(a) == multiset(b)
    ensures multiset(Carrying(a, token)) == multiset(Carrying(b, token))
  {
    forall o ensures multiset(Carrying(a, token))[o] == multiset(Carrying(b, token))[o] {
      CarryingKeepsCopies(a, token, o);
      CarryingKeepsCopies(b, token, o);
    }
  }

  lemma Rearranged(a: seq<ResolverOutcome>, b: seq<ResolverOutcome>)
    requires multiset(a) == multiset(b)
    ensures |a| == |b| && (a == [] <==> b == [])
    ensures forall k :: Saw(a, k) == Saw(b, k)
    ensures AllPlatform(a) == AllPlatform(b) && AllValidated(a) == AllValidated(b) && NoTokenCode(a) == NoTokenCode(b)
  {
    forall o ensures o in a <==> o in b {
      assert o in multiset(a) <==> o in multiset(b);
    }
    assert |multiset(a)| == |a| && |multiset(b)| == |b|;
  }

  /** The decision and its reason do not depend on the order of the resolvers;
      the recorded resolvers are the same, rearranged. */
  lemma DecisionIgnoresOrder(a: seq<ResolverOutcome>, b: seq<ResolverOutcome>, token: string, scope: Scope, quorum: nat)
    requires multiset(a) == multiset(b)
    ensures var v, w := Evaluate(a, token, scope, quorum), Evaluate(b, token, scope, quorum);
      && v.(resolvers := []) == w.(resolvers := [])
      && multiset(v.resolvers) == multiset(w.resolvers)
  {
    CarryingIgnoresOrder(a, b, token);
    Rearranged(a, b);
    Rearranged(Carrying(a, token), Carrying(b, token));
    NoAnswerCodeFollows(a, b);
    IdsIgnoreOrder(Carrying(a, token), Carrying(b, token));
    SameDecision(a, b, token, scope, quorum);
  }

  /** What a decision depends on. */
  lemma SameDecision(a: seq<ResolverOutcome>, b: seq<ResolverOutcome>, token: string, scope: Scope, quorum: nat)
    requires Saw(a, Answered) == Saw(b, Answered)
    requires NoAnswerCode(a) == NoAnswerCode(b) && NoTokenCode(a) == NoTokenCode(b)
    requires var c, d := Carrying(a, token), Carrying(b, token);
      |c| == |d| && AllValidated(c) == AllValidated(d) && multiset(Ids(c)) == multiset(Ids(d))
    ensures var v, w := Evaluate(a, token, scope, quorum), Evaluate(b, token, scope, quorum);
      && v.(resolvers := []) == w.(resolvers := [])
      && multiset(v.resolvers) == multiset(w.resolvers)
  {
  }

  lemma NoAnswerCodeFollows(a: seq<ResolverOutcome>, b: seq<ResolverOutcome>)
    requires (a == [] <==> b == []) && AllPlatform(a) == AllPlatform(b) && forall k :: Saw(a, k) == Saw(b, k)
    ensures NoAnswerCode(a) == NoAnswerCode(b)
  {
  }

  lemma SameMember<T>(a: seq<T>, b: seq<T>) returns (k: nat)
    requires multiset(a) == multiset(b) && a != []
    ensures k < |b| && b[k] == a[0]
  {
    assert a[0] in multiset(b);
    k :| 0 <= k < |b| && b[k] == a[0];
  }

  /** Taking one answer out takes its identifier out. */
  lemma IdsWithout(b: seq<ResolverOutcome>, k: nat)
    requires k < |b|
    ensures multiset(Ids(b)) == multiset{b[k].resolverId} + multiset(Ids(b[..k] + b[k + 1..]))
    ensures multiset(b) == multiset{b[k]} + multiset(b[..k] + b[k + 1..])
  {
    assert b == b[..k] + ([b[k]] + b[k + 1..]);
    assert Ids(b) == Ids(b[..k]) + ([b[k].resolverId] + Ids(b[k + 1..]));
    assert Ids(b[..k] + b[k + 1..]) == Ids(b[..k]) + Ids(b[k + 1..]);
  }

  lemma Cancel<T>(x: T, m: multiset<T>, n: multiset<T>)
    requires multiset{x} + m == multiset{x} + n
    ensures m == n
  {
    assert m == (multiset{x} + m) - multiset{x};
  }

  lemma TakeOut(a: seq<ResolverOutcome>, b: seq<ResolverOutcome>) returns (rest: seq<ResolverOutcome>)
    requires multiset(a) == multiset(b) && a != []
    ensures multiset(a[1..]) == multiset(rest)
    ensures multiset(Ids(b)) == multiset{a[0].resolverId} + multiset(Ids(rest))
  {
    var k := SameMember(a, b);
    rest := b[..k] + b[k + 1..];
    IdsWithout(b, k);
    assert a == [a[0]] + a[1..];
    Cancel(a[0], multiset(a[1..]), multiset(rest));
  }

  lemma {:induction false} IdsIgnoreOrder(a: seq<ResolverOutcome>, b: seq<ResolverOutcome>)
    requires multiset(a) == multiset(b)
    ensures multiset(Ids(a)) == multiset(Ids(b))
    decreases |a|
  {
    if a == [] {
      assert |multiset(b)| == |b|;
    } else {
      var rest := TakeOut(a, b);
      IdsIgnoreOrder(a[1..], rest);
      assert Ids(a) == [a[0].resolverId] + Ids(a[1..]);
    }
  }

  /** The answers without the token only choose the reason for a failure. */
  lemma OnlyCarryingDecides(a: seq<ResolverOutcome>, b: seq<ResolverOutcome>, token: string, scope: Scope, quorum: nat)
    requires Carrying(a, token) == Carrying(b, token)
    ensures var v, w := Evaluate(a, token, scope, quorum), Evaluate(b, token, scope, quorum);
      v.verified == w.verified && (Carrying(a, token) != [] ==> v == w)
  {
    CarryingNeedsAnAnswer(a, token);
    CarryingNeedsAnAnswer(b, token);
  }

  /** Absence is not disagreement: an added resolver that does not carry the token
      never changes whether the check verifies, nor what a success records. */
  lemma SilenceChangesNoDecision(
      a: seq<ResolverOutcome>, o: ResolverOutcome, b: seq<ResolverOutcome>, token: string, scope: Scope, quorum: nat)
    requires !Carries(o, token)
    ensures var v, w := Evaluate(a + b, token, scope, quorum), Evaluate(a + [o] + b, token, scope, quorum);
      v.verified == w.verified && (Carriers(a + b, token) != {} ==> v == w)
  {
    CarryingAppend(a, b, token);
    CarryingAppend(a, [o], token);
    CarryingAppend(a + [o], b, token);
    CarryingCount(a + b, token);
    assert Carrying([o], token) == [];
    OnlyCarryingDecides(a + b, a + [o] + b, token, scope, quorum);
  }

  /** An added validated answer that carries the token never loses a success. */
  lemma ValidatedAnswersNeverHurt(
      a: seq<ResolverOutcome>, o: ResolverOutcome, b: seq<ResolverOutcome>, token: string, scope: Scope, quorum: nat)
    requires Carries(o, token) && o.authenticated && Evaluate(a + b, token, scope, quorum).verified
    ensures Evaluate(a + [o] + b, token, scope, quorum).verified
  {
    CarryingAppend(a, b, token);
    CarryingAppend(a, [o], token);
    CarryingAppend(a + [o], b, token);
    CarryingNeedsAnAnswer(a + [o] + b, token);
    assert Carrying([o], token) == [o];
    assert forall c :: c in Carrying(a + [o] + b, token) ==> c in Carrying(a + b, token) || c == o;
  }

  /** An added unvalidated answer that carries the token keeps a success exactly
      when corroboration now stands on its own: one more agreeing resolver can
      turn a validated proof into a refusal. */
  lemma UnvalidatedAnswersKeepExactlyWhen(
      a: seq<ResolverOutcome>, o: ResolverOutcome, b: seq<ResolverOutcome>, token: string, scope: Scope, quorum: nat)
    requires Carries(o, token) && !o.authenticated && Evaluate(a + b, token, scope, quorum).verified
    ensures Evaluate(a + [o] + b, token, scope, quorum).verified
       <==> scope == Exact && |Carriers(a + b, token)| + 1 >= quorum
  {
    CarryingAppend(a, b, token);
    CarryingAppend(a, [o], token);
    CarryingAppend(a + [o], b, token);
    CarryingAreTheCarriers(a + b, token);
    CarryingNeedsAnAnswer(a + [o] + b, token);
    assert Carrying([o], token) == [o];
    assert Carrying(a + [o] + b, token)[|Carrying(a, token)|] == o;
  }

  /** A published token matches. */
  lemma APublishedTokenMatches(token: string)
    requires IsAscii(token)
    ensures TokenMatches(token, [[Encode(token)]])
  {
    var record := [Encode(token)];
    assert record[1..] == [] && Flatten(record) == Encode(token);
    assert Flatten([record][0]) == Encode(token);
  }

  lemma CarryingCons(o: ResolverOutcome, rest: seq<ResolverOutcome>, token: string)
    ensures Carrying([o] + rest, token) == (if Carries(o, token) then [o] else []) + Carrying(rest, token)
  {
    assert ([o] + rest)[1..] == rest;
  }

  /** At an input, for every token and under a quorum every resolver list meets: of
      three resolvers one answers, validated, and the exact claim is proved; a
      fourth that answers without validation turns it into a refusal. */
  lemma OneMoreAgreementCanRefuse(token: string)
    requires IsAscii(token)
    ensures var records := [[Encode(token)]];
      var a, o := ResolverOutcome("one", Answered, true, records), ResolverOutcome("four", Answered, false, records);
      var s, t := ResolverOutcome("two", NoRecord, false, []), ResolverOutcome("three", NoRecord, false, []);
      && Evaluate([a, s, t], token, Exact, 3).verified
      && Evaluate([a, s, t, o], token, Exact, 3).failureCode == Some(CorroborationNotReached)
  {
    APublishedTokenMatches(token);
    var records := [[Encode(token)]];
    var a, o := ResolverOutcome("one", Answered, true, records), ResolverOutcome("four", Answered, false, records);
    var s, t := ResolverOutcome("two", NoRecord, false, []), ResolverOutcome("three", NoRecord, false, []);
    SilentPairAround(a, s, t, [], token);
    SilentPairAround(a, s, t, [o], token);
    CarryingCons(o, [], token);
    assert [a, s, t] == [a] + ([s] + ([t] + [])) && [a, s, t, o] == [a] + ([s] + ([t] + [o]));
    assert a in [a, s, t] && a in [a, s, t, o] && a in [a] && o in [a, o];
  }

  /** Two silent answers after a carrier leave the carriers as they are. */
  lemma SilentPairAround(
      a: ResolverOutcome, s: ResolverOutcome, t: ResolverOutcome, rest: seq<ResolverOutcome>, token: string)
    requires Carries(a, token) && !Carries(s, token) && !Carries(t, token)
    ensures Carrying([a] + ([s] + ([t] + rest)), token) == [a] + Carrying(rest, token)
  {
    CarryingCons(t, rest, token);
    CarryingCons(s, [t] + rest, token);
    CarryingCons(a, [s] + ([t] + rest), token);
  }

  /** Slow resolvers can still corroborate: under coherent settings, if the first
      `quorum` resolvers each publish the token within their own budget, an exact
      check verifies whatever the others do. */
  lemma CoherentSettingsLetAQuorumVerify(l: Lookup, token: string, quorum: nat)
    requires l.Valid() && Coherent(l, quorum)
    requires forall k :: 0 <= k < quorum ==>
      var a := l.answers[k]; a.took <= l.perQuery && a.ending.Rrset? && TokenMatches(token, a.ending.records)
    ensures Evaluate(l.Outcomes(), token, Exact, quorum).verified
  {
    var outcomes := l.Outcomes();
    forall k: nat | k < quorum ensures k in Carriers(outcomes, token) {
      QuorumIsAttempted(l, quorum, k);
    }
    FirstOnes(Carriers(outcomes, token), quorum);
    VerifiesExactlyWhen(outcomes, token, Exact, quorum);
  }

  lemma {:induction false} FirstOnes(s: set<nat>, n: nat)
    requires forall k: nat :: k < n ==> k in s
    ensures |s| >= n
  {
    if n > 0 {
      FirstOnes(s - {n - 1}, n - 1);
    }
  }
}
