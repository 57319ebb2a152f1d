/** The TXT lookup: every configured resolver in turn, under one deadline. */
module DnsBoundary {
  import opened Options
  import opened OutboundBudget

  newtype byte = b: int | 0 <= b < 256

  datatype DnsOutcome =
    | Answered | NoRecord | NameNotFound | Timeout | ServerFailure | TransportFailure | NotAttempted

  /** One resource record is a sequence of character-strings. */
  type Record = seq<seq<byte>>

  datatype ResolverOutcome = ResolverOutcome(
    resolverId: string, outcome: DnsOutcome, authenticated: bool, strings: seq<Record>)

  datatype Transport = Dot | Doh

  datatype Resolver = Resolver(
    address: string, transport: Transport, tlsHostname: Option<string>, dohUrl: Option<string>)
  {
    function Id(): string {
      if tlsHostname.Some? && tlsHostname.value != "" then tlsHostname.value
      else if dohUrl.Some? && dohUrl.value != "" then dohUrl.value
      else address
    }
  }

  /** How the resolver library ends one query, and after how long. A query that
      outlasts the time it is given is cut off there as a timeout. */
  datatype Ending = NxDomain | NoAnswer | NoNameservers | LibraryError | OtherError | Rrset(ad: bool, records: seq<Record>)

  datatype Answer = Answer(ending: Ending, took: real)

  function Silent(r: Resolver, outcome: DnsOutcome): ResolverOutcome {
    ResolverOutcome(r.Id(), outcome, false, [])
  }

  /** Ask one resolver: every way a query can end becomes an outcome. */
  function QueryOne(r: Resolver, a: Answer, timeout: real): ResolverOutcome {
    if a.took > timeout then Silent(r, Timeout)
    else match a.ending
      case NxDomain => Silent(r, NameNotFound)
      case NoAnswer => Silent(r, NoRecord)
      case NoNameservers => Silent(r, ServerFailure)
      case LibraryError => Silent(r, TransportFailure)
      case OtherError => Silent(r, TransportFailure)
      case Rrset(ad, records) => ResolverOutcome(r.Id(), Answered, ad, records)
  }

  function Min(a: real, b: real): real {
    if a <= b then a else b
  }

  /** One check's parameters: the resolvers, what each will answer, and the
      per-query and total budgets. */
  datatype Lookup = Lookup(resolvers: seq<Resolver>, answers: seq<Answer>, perQuery: real, total: real) {
    ghost predicate Valid() {
      |answers| == |resolvers| && forall i :: 0 <= i < |answers| ==> 0.0 <= answers[i].took
    }

    /** The time the first `n` resolvers take. */
    function Elapsed(n: nat): real
      requires n <= |answers|
    {
      if n == 0 then 0.0
      else
        var before := Elapsed(n - 1);
        if total - before <= 0.0 then before
        else before + Min(answers[n - 1].took, Min(perQuery, total - before))
    }

    /** The deadline still stood when resolver `k`'s turn came. */
    predicate Attempts(k: nat)
      requires k < |answers|
    {
      total - Elapsed(k) > 0.0
    }

    function OutcomeAt(k: nat): ResolverOutcome
      requires k < |resolvers| && |answers| == |resolvers|
    {
      if Attempts(k) then QueryOne(resolvers[k], answers[k], Min(perQuery, total - Elapsed(k)))
      else Silent(resolvers[k], NotAttempted)
    }

    function Outcomes(): seq<ResolverOutcome>
      requires |answers| == |resolvers|
    {
      seq(|resolvers|, k requires 0 <= k < |resolvers| => OutcomeAt(k))
    }
  }

  datatype LookupError = NotConfigured | TransportUnavailable | CapacityExhausted

  datatype LookupResult = Resolved(outcomes: seq<ResolverOutcome>) | Refused(error: LookupError)

  /** A resolver whose turn comes while its transport is not in this build. */
  predicate Unusable(l: Lookup, dohInstalled: bool, k: nat)
    requires k < |l.resolvers| && |l.answers| == |l.resolvers|
  {
    l.Attempts(k) && l.resolvers[k].transport == Doh && !dohInstalled
  }

  class Boundary {
    const budget: Budget
    const capacity: nat
    var permits: nat

    predicate Valid()
      reads this
    {
      permits <= capacity
    }

    constructor (maxConcurrent: nat, now: real)
      ensures Valid() && permits == capacity == maxConcurrent && fresh(budget) && budget.State() == Window(now, 0)
    {
      capacity, permits := maxConcurrent, maxConcurrent;
      budget := new Budget(now);
    }

    method Acquire() returns (ok: bool)
      requires Valid()
      modifies this
      ensures ok == (old(permits) > 0)
      ensures permits == (if ok then old(permits) - 1 else old(permits))
    {
      ok := permits > 0;
      if ok {
        permits := permits - 1;
      }
    }

    /** Ask every resolver in order. The permit is back on every path, the
        budget is charged for the whole check or not at all, and each resolver
        has one outcome, in order. */
    method ResolveTxt(l: Lookup, size: Sizing, dohInstalled: bool, now: real) returns (r: LookupResult)
      requires Valid() && l.Valid()
      modifies this, budget
      ensures Valid() && permits == old(permits)
      ensures budget.State() ==
        if l.resolvers == [] || old(permits) == 0 then old(budget.State())
        else After(old(budget.State()), size, Call(now, |l.resolvers|))
      ensures r == Refused(NotConfigured) <==> l.resolvers == []
      ensures r == Refused(CapacityExhausted) <==>
        && l.resolvers != []
        && (old(permits) == 0 || !Fits(Current(old(budget.State()), size, now), size, |l.resolvers|))
      ensures r.Resolved? ==> r.outcomes == l.Outcomes()
      ensures r == Refused(TransportUnavailable) ==> exists k :: 0 <= k < |l.resolvers| && Unusable(l, dohInstalled, k)
      ensures r.Resolved? ==> forall k :: 0 <= k < |l.resolvers| ==> !Unusable(l, dohInstalled, k)
    {
      if l.resolvers == [] {
        return Refused(NotConfigured);
      }
      var ok := Acquire();
      if !ok {
        return Refused(CapacityExhausted);
      }
      var admitted := budget.TrySpend(size, now, |l.resolvers|);
      if !admitted {
        r := Refused(CapacityExhausted);
      } else {
        r := QueryAll(l, dohInstalled);
      }
      permits := permits + 1;
    }

    /** The loop over resolvers, on the clock that started with it. */
    method QueryAll(l: Lookup, dohInstalled: bool) returns (r: LookupResult)
      requires l.Valid()
      ensures r.Resolved? || r == Refused(TransportUnavailable)
      ensures r.Resolved? ==> r.outcomes == l.Outcomes()
      ensures r.Resolved? <==> forall k :: 0 <= k < |l.resolvers| ==> !Unusable(l, dohInstalled, k)
    {
      var elapsed := 0.0;
      var outcomes := [];
      for k := 0 to |l.resolvers|
        invariant elapsed == l.Elapsed(k)
        invariant outcomes == l.Outcomes()[..k]
        invariant forall j :: 0 <= j < k ==> !Unusable(l, dohInstalled, j)
      {
        var remaining := l.total - elapsed;
        if remaining <= 0.0 {
          outcomes := outcomes + [Silent(l.resolvers[k], NotAttempted)];
        } else if l.resolvers[k].transport == Doh && !dohInstalled {
          assert Unusable(l, dohInstalled, k);
          return Refused(TransportUnavailable);
        } else {
          var timeout := Min(l.perQuery, remaining);
          outcomes := outcomes + [QueryOne(l.resolvers[k], l.answers[k], timeout)];
          elapsed := elapsed + Min(l.answers[k].took, timeout);
        }
        assert outcomes[k] == l.OutcomeAt(k);
      }
      r := Resolved(outcomes);
    }
  }

  // ------------------------------------------------------------ what it promises

  /** The settings' coherence rule for the lookup. */
  predicate Coherent(l: Lookup, quorum: nat) {
    && 1 <= quorum && quorum <= |l.resolvers|
    && 0.0 < l.perQuery <= l.total
    && quorum as real * l.perQuery <= l.total
  }

  lemma {:induction false} TimeRunsForward(l: Lookup, j: nat, k: nat)
    requires l.Valid() && 0.0 <= l.perQuery && j <= k <= |l.answers|
    ensures l.Elapsed(j) <= l.Elapsed(k)
  {
    if j < k {
      TimeRunsForward(l, j, k - 1);
    }
  }

  /** The queries together stay within the deadline. */
  lemma {:induction false} DeadlineHolds(l: Lookup, n: nat)
    requires l.Valid() && 0.0 <= l.perQuery && 0.0 <= l.total && n <= |l.answers|
    ensures 0.0 <= l.Elapsed(n) <= l.total
  {
    if n > 0 {
      DeadlineHolds(l, n - 1);
    }
  }

  /** A resolver never reached is followed only by resolvers never reached, and
      only those are reported so. */
  lemma NotAttemptedIsASuffix(l: Lookup, j: nat, k: nat)
    requires l.Valid() && 0.0 <= l.perQuery && j <= k < |l.resolvers|
    ensures l.Outcomes()[j].outcome == NotAttempted ==> l.Outcomes()[k].outcome == NotAttempted
    ensures l.Outcomes()[k].outcome == NotAttempted <==> !l.Attempts(k)
    ensures l.Outcomes()[k].resolverId == l.resolvers[k].Id()
  {
    TimeRunsForward(l, j, k);
  }

  /** `n` queries' worth of time. */
  function Times(n: nat, t: real): real {
    if n == 0 then 0.0 else Times(n - 1, t) + t
  }

  lemma {:induction false} TimesIsProduct(n: nat, t: real)
    ensures Times(n, t) == n as real * t
  {
    if n > 0 {
      TimesIsProduct(n - 1, t);
      Distributes((n - 1) as real, t);
    }
  }

  lemma Distributes(x: real, t: real)
    ensures x * t + t == (x + 1.0) * t
  {
  }

  lemma {:induction false} TimesGrows(j: nat, k: nat, t: real)
    requires j <= k && 0.0 <= t
    ensures Times(j, t) <= Times(k, t)
  {
    if j < k {
      TimesGrows(j, k - 1, t);
    }
  }

  lemma {:induction false} EachQueryFitsItsShare(l: Lookup, k: nat)
    requires l.Valid() && 0.0 <= l.perQuery && k <= |l.answers|
    ensures l.Elapsed(k) <= Times(k, l.perQuery)
  {
    if k > 0 {
      EachQueryFitsItsShare(l, k - 1);
    }
  }

  /** Under coherent settings the first `quorum` resolvers are always asked, each
      with its whole per-query budget, however slow the ones before were. */
  lemma QuorumIsAttempted(l: Lookup, quorum: nat, k: nat)
    requires l.Valid() && Coherent(l, quorum) && k < quorum
    ensures l.Attempts(k) && l.Outcomes()[k] == QueryOne(l.resolvers[k], l.answers[k], l.perQuery)
  {
    TimesIsProduct(quorum, l.perQuery);
    RoomForTheNext(l, quorum, k);
  }

  lemma RoomForTheNext(l: Lookup, quorum: nat, k: nat)
    requires l.Valid() && 0.0 < l.perQuery && k < quorum <= |l.resolvers| && Times(quorum, l.perQuery) <= l.total
    ensures l.Attempts(k) && l.Outcomes()[k] == QueryOne(l.resolvers[k], l.answers[k], l.perQuery)
  {
    EachQueryFitsItsShare(l, k);
    TimesGrows(k + 1, quorum, l.perQuery);
  }

  /** Without the rule the promise fails: under a deadline that `quorum - 1`
      worst-case queries use up, slow resolvers leave the next one unasked. */
  lemma ShortDeadlineCutsTheQuorum(l: Lookup, quorum: nat)
    requires l.Valid() && 1 <= quorum <= |l.resolvers| && 0.0 < l.perQuery
    requires l.total <= (quorum - 1) as real * l.perQuery
    requires forall i :: 0 <= i < |l.answers| ==> l.answers[i].took >= l.perQuery
    ensures !l.Attempts(quorum - 1)
  {
    SlowQueriesTakeTheirShare(l, quorum - 1);
    TimesIsProduct(quorum - 1, l.perQuery);
  }

  lemma {:induction false} SlowQueriesTakeTheirShare(l: Lookup, k: nat)
    requires l.Valid() && 0.0 < l.perQuery && k <= |l.answers|
    requires forall i :: 0 <= i < |l.answers| ==> l.answers[i].took >= l.perQuery
    ensures l.Elapsed(k) >= Min(Times(k, l.perQuery), l.total)
  {
    if k > 0 {
      SlowQueriesTakeTheirShare(l, k - 1);
    }
  }

  /** The AD bit is never reported without an answer. */
  lemma AuthenticatedImpliesAnswered(l: Lookup, k: nat)
    requires l.Valid() && k < |l.resolvers|
    ensures l.Outcomes()[k].authenticated ==> l.Outcomes()[k].outcome == Answered
    ensures l.Outcomes()[k].strings != [] ==> l.Outcomes()[k].outcome == Answered
  {
  }

  /** The name a resolver goes by: its TLS hostname, else its DoH URL, else its
      address, an empty text counting as none. */
  lemma IdMeans(r: Resolver)
    ensures r.tlsHostname.Some? && r.tlsHostname.value != "" ==> r.Id() == r.tlsHostname.value
    ensures (r.tlsHostname.None? || r.tlsHostname.value == "") && r.dohUrl.Some? && r.dohUrl.value != ""
      ==> r.Id() == r.dohUrl.value
    ensures (r.tlsHostname.None? || r.tlsHostname.value == "") && (r.dohUrl.None? || r.dohUrl.value == "")
      ==> r.Id() == r.address
  {
  }

  /** Every way a query can end is one outcome, and each outcome has its endings; only
      an answer carries records and the validation bit, unchanged. */
  lemma AQueryMeans(r: Resolver, a: Answer, timeout: real)
    ensures var o := QueryOne(r, a, timeout);
      && o.resolverId == r.Id()
      && (o.outcome == Timeout <==> a.took > timeout)
      && (o.outcome == NameNotFound <==> a.took <= timeout && a.ending.NxDomain?)
      && (o.outcome == NoRecord <==> a.took <= timeout && a.ending.NoAnswer?)
      && (o.outcome == ServerFailure <==> a.took <= timeout && a.ending.NoNameservers?)
      && (o.outcome == TransportFailure <==> a.took <= timeout && (a.ending.LibraryError? || a.ending.OtherError?))
      && (o.outcome == Answered <==> a.took <= timeout && a.ending.Rrset?)
      && o.outcome != NotAttempted
      && (o.outcome == Answered ==> o.authenticated == a.ending.ad && o.strings == a.ending.records)
      && (o.outcome != Answered ==> !o.authenticated && o.strings == [])
  {
  }

  /** What the lookup reports of resolver `k`: its query within what was left of the
      deadline, or that there was nothing left. */
  lemma AnOutcomeMeans(l: Lookup, k: nat)
    requires l.Valid() && k < |l.resolvers|
    ensures |l.Outcomes()| == |l.resolvers|
    ensures l.total - l.Elapsed(k) <= 0.0 ==>
      l.Outcomes()[k] == ResolverOutcome(l.resolvers[k].Id(), NotAttempted, false, [])
    ensures l.total - l.Elapsed(k) > 0.0 ==> exists timeout ::
      && timeout <= l.perQuery && timeout <= l.total - l.Elapsed(k)
      && (timeout == l.perQuery || timeout == l.total - l.Elapsed(k))
      && l.Outcomes()[k] == QueryOne(l.resolvers[k], l.answers[k], timeout)
  {
    var timeout := Min(l.perQuery, l.total - l.Elapsed(k));
    assert l.Outcomes()[k] == l.OutcomeAt(k);
    if l.Attempts(k) {
      assert l.OutcomeAt(k) == QueryOne(l.resolvers[k], l.answers[k], timeout);
    }
  }

  /** The clock between two queries: it moves by the time the query took, capped, and
      stands still for a resolver that was not asked. */
  lemma TheClockMeans(l: Lookup, k: nat)
    requires l.Valid() && k < |l.resolvers|
    ensures l.Elapsed(0) == 0.0
    ensures var left, spent := l.total - l.Elapsed(k), l.Elapsed(k + 1) - l.Elapsed(k);
      && (left <= 0.0 ==> spent == 0.0)
      && (left > 0.0 ==> spent <= l.answers[k].took && spent <= l.perQuery && spent <= left)
      && (left > 0.0 && spent < l.answers[k].took ==> l.Outcomes()[k].outcome == Timeout)
      && (left > 0.0 && l.Outcomes()[k].outcome != Timeout ==> spent == l.answers[k].took)
  {
  }
}
