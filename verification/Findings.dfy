/** Severity counts, the persistence order of findings, and the row mapping. */
module Findings {
  import opened Options
  import JsonText

  datatype Severity = Critical | High | Medium | Low | Info

  /** A JSON document as canonical text; no document renders to nothing. */
  type JsonDoc = t: string | t != "" witness "{}"

  datatype Finding = Finding(
    checkId: string, severity: Severity, title: string, description: string,
    affectedResource: Option<string>, remediation: Option<string>,
    evidence: Option<JsonDoc>, externalReferences: seq<string>)

  datatype ModuleResult = ModuleResult(
    schemaVersion: string, findings: seq<Finding>, grade: Option<string>, summary: JsonDoc, rawOutput: JsonDoc)

  datatype FindingRow = FindingRow(
    organizationId: Option<nat>, scanResultId: nat,
    checkId: string, severity: Severity, title: string, description: string,
    affectedResource: Option<string>, remediation: Option<string>,
    evidence: Option<JsonDoc>, externalReferences: seq<string>)

  // ----------------------------------------------------------- severity counts

  function Value(s: Severity): string {
    match s
    case Critical => "critical" case High => "high" case Medium => "medium" case Low => "low" case Info => "info"
  }

  function Count(findings: seq<Finding>, s: Severity): nat {
    if findings == [] then 0
    else (if findings[0].severity == s then 1 else 0) + Count(findings[1..], s)
  }

  /** The stored counts: every band present, zeros included. */
  function CountsOf(findings: seq<Finding>): map<string, nat> {
    map["critical" := Count(findings, Critical), "high" := Count(findings, High),
        "medium" := Count(findings, Medium), "low" := Count(findings, Low), "info" := Count(findings, Info)]
  }

  lemma {:induction false} CountSplit(a: seq<Finding>, b: seq<Finding>, s: Severity)
    ensures Count(a + b, s) == Count(a, s) + Count(b, s)
  {
    if a == [] {
      assert a + b == b;
    } else {
      assert (a + b)[1..] == a[1..] + b;
      CountSplit(a[1..], b, s);
    }
  }

  /** Counting in one pass over a five-key dictionary. */
  method SeverityCounts(findings: seq<Finding>) returns (counts: map<string, nat>)
    ensures counts == CountsOf(findings)
    ensures counts.Keys == {"critical", "high", "medium", "low", "info"}
  {
    counts := map["critical" := 0, "high" := 0, "medium" := 0, "low" := 0, "info" := 0];
    for i := 0 to |findings|
      invariant counts == CountsOf(findings[..i])
    {
      var finding := findings[i];
      assert findings[..i + 1] == findings[..i] + [finding];
      forall s: Severity
        ensures Count(findings[..i + 1], s) == Count(findings[..i], s) + (if finding.severity == s then 1 else 0)
      {
        CountSplit(findings[..i], [finding], s);
      }
      var key := Value(finding.severity);
      counts := counts[key := counts[key] + 1];
    }
    assert findings[..|findings|] == findings;
  }

  /** The bands partition the findings. */
  lemma {:induction false} CountsSumToTotal(findings: seq<Finding>)
    ensures Count(findings, Critical) + Count(findings, High) + Count(findings, Medium)
          + Count(findings, Low) + Count(findings, Info) == |findings|
  {
    if findings != [] {
      CountsSumToTotal(findings[1..]);
    }
  }

  lemma CountWithout(b: seq<Finding>, i: nat, s: Severity)
    requires i < |b|
    ensures multiset(b) == multiset(b[..i] + b[i + 1..]) + multiset{b[i]}
    ensures Count(b, s) == Count(b[..i] + b[i + 1..], s) + (if b[i].severity == s then 1 else 0)
  {
    assert b == b[..i] + ([b[i]] + b[i + 1..]);
    CountSplit(b[..i], [b[i]] + b[i + 1..], s);
    CountSplit(b[..i], b[i + 1..], s);
  }

  lemma TailWithout(a: seq<Finding>, b: seq<Finding>, i: nat)
    requires a != [] && i < |b| && a[0] == b[i] && multiset(a) == multiset(b)
    ensures multiset(a[1..]) == multiset(b[..i] + b[i + 1..])
  {
    var rest := b[..i] + b[i + 1..];
    assert a == [a[0]] + a[1..];
    CountWithout(b, i, Info);
    assert multiset(a[1..]) + multiset{a[0]} == multiset(rest) + multiset{a[0]};
    assert multiset(a[1..]) == multiset(a[1..]) + multiset{a[0]} - multiset{a[0]};
  }

  lemma {:induction false} CountIgnoresOrder(a: seq<Finding>, b: seq<Finding>, s: Severity)
    requires multiset(a) == multiset(b)
    ensures Count(a, s) == Count(b, s)
  {
    if a == [] {
      assert |multiset(b)| == 0;
    } else {
      assert a[0] in multiset(b);
      var i :| 0 <= i < |b| && b[i] == a[0];
      TailWithout(a, b, i);
      CountIgnoresOrder(a[1..], b[..i] + b[i + 1..], s);
      assert Count(b, s) == Count(b[..i] + b[i + 1..], s) + (if b[i].severity == s then 1 else 0) by {
        CountWithout(b, i, s);
      }
    }
  }

  /** The stored counts do not depend on the order of the findings. */
  lemma CountsIgnoreOrder(a: seq<Finding>, b: seq<Finding>)
    requires multiset(a) == multiset(b)
    ensures CountsOf(a) == CountsOf(b)
  {
    CountIgnoresOrder(a, b, Critical);
    CountIgnoresOrder(a, b, High);
    CountIgnoresOrder(a, b, Medium);
    CountIgnoresOrder(a, b, Low);
    CountIgnoresOrder(a, b, Info);
  }

  // ------------------------------------------------------------ the order key

  /** A key compares field by field; the rank is written as one digit so that
      all eight fields are text. */
  type Key = seq<string>

  function Rank(s: Severity): string {
    match s case Critical => "0" case High => "1" case Medium => "2" case Low => "3" case Info => "4"
  }

  function OrderKey(f: Finding): Key {
    [Rank(f.severity), f.checkId, GetOr(f.affectedResource, ""), f.title, f.description,
     GetOr(f.remediation, ""), GetOr(f.evidence, ""), JsonText.Dumps(f.externalReferences)]
  }

  /** Text compares by code point, a proper prefix before its extensions. */
  predicate TextLe(a: string, b: string) {
    a == "" || (b != "" && (a[0] < b[0] || (a[0] == b[0] && TextLe(a[1..], b[1..]))))
  }

  predicate KeyLe(a: Key, b: Key) {
    a == [] || (b != [] && ((a[0] != b[0] && TextLe(a[0], b[0])) || (a[0] == b[0] && KeyLe(a[1..], b[1..]))))
  }

  lemma {:induction false} TextLeIsTotal(a: string, b: string)
    ensures TextLe(a, b) || TextLe(b, a)
    ensures TextLe(a, b) && TextLe(b, a) ==> a == b
  {
    if a != "" && b != "" {
      TextLeIsTotal(a[1..], b[1..]);
      assert a == [a[0]] + a[1..] && b == [b[0]] + b[1..];
    }
  }

  lemma {:induction false} TextLeIsTransitive(a: string, b: string, c: string)
    requires TextLe(a, b) && TextLe(b, c)
    ensures TextLe(a, c)
  {
    if a != "" && b != "" && c != "" && a[0] == b[0] == c[0] {
      TextLeIsTransitive(a[1..], b[1..], c[1..]);
    }
  }

  lemma {:induction false} KeyLeIsTotal(a: Key, b: Key)
    ensures KeyLe(a, b) || KeyLe(b, a)
    ensures KeyLe(a, b) && KeyLe(b, a) ==> a == b
  {
    if a != [] && b != [] {
      TextLeIsTotal(a[0], b[0]);
      KeyLeIsTotal(a[1..], b[1..]);
      assert a == [a[0]] + a[1..] && b == [b[0]] + b[1..];
    }
  }

  lemma {:induction false} KeyLeIsTransitive(a: Key, b: Key, c: Key)
    requires KeyLe(a, b) && KeyLe(b, c)
    ensures KeyLe(a, c)
  {
    if a != [] && b != [] && c != [] {
      if a[0] == b[0] == c[0] {
        KeyLeIsTransitive(a[1..], b[1..], c[1..]);
      } else {
        TextLeIsTotal(a[0], b[0]);
        TextLeIsTotal(b[0], c[0]);
        TextLeIsTotal(a[0], c[0]);
        TextLeIsTransitive(a[0], b[0], c[0]);
      }
    }
  }

  // ------------------------------------------------------------ stable sorting

  /** Place `f`, which came first, in front of everything not smaller. */
  function Insert(f: Finding, sorted: seq<Finding>): seq<Finding> {
    if sorted == [] || KeyLe(OrderKey(f), OrderKey(sorted[0])) then [f] + sorted
    else [sorted[0]] + Insert(f, sorted[1..])
  }

  /** `sorted(findings, key=_order_key)`: a stable sort by the key. */
  function OrderFindings(findings: seq<Finding>): seq<Finding> {
    if findings == [] then [] else Insert(findings[0], OrderFindings(findings[1..]))
  }

  ghost predicate Sorted(findings: seq<Finding>) {
    forall i, j :: 0 <= i < j < |findings| ==> KeyLe(OrderKey(findings[i]), OrderKey(findings[j]))
  }

  lemma {:induction false} InsertAdds(f: Finding, s: seq<Finding>)
    ensures multiset(Insert(f, s)) == multiset(s) + multiset{f}
  {
    if s != [] && !KeyLe(OrderKey(f), OrderKey(s[0])) {
      InsertAdds(f, s[1..]);
      assert s == [s[0]] + s[1..];
    }
  }

  lemma {:induction false} InsertKeepsOrder(f: Finding, s: seq<Finding>)
    requires Sorted(s)
    ensures Sorted(Insert(f, s))
  {
    if s == [] {
    } else if KeyLe(OrderKey(f), OrderKey(s[0])) {
      forall x | x in s ensures KeyLe(OrderKey(f), OrderKey(x)) {
        if x != s[0] { KeyLeIsTransitive(OrderKey(f), OrderKey(s[0]), OrderKey(x)); }
      }
      LeastFirst(f, s);
    } else {
      InsertKeepsOrder(f, s[1..]);
      KeyLeIsTotal(OrderKey(f), OrderKey(s[0]));
      HeadStaysLeast(f, s);
      LeastFirst(s[0], Insert(f, s[1..]));
    }
  }

  lemma HeadStaysLeast(f: Finding, s: seq<Finding>)
    requires s != [] && Sorted(s) && KeyLe(OrderKey(s[0]), OrderKey(f))
    ensures forall x :: x in Insert(f, s[1..]) ==> KeyLe(OrderKey(s[0]), OrderKey(x))
  {
    InsertAdds(f, s[1..]);
    forall x | x in Insert(f, s[1..]) ensures KeyLe(OrderKey(s[0]), OrderKey(x)) {
      assert x in multiset(Insert(f, s[1..]));
      assert x == f || x in s[1..];
    }
  }

  lemma LeastFirst(f: Finding, t: seq<Finding>)
    requires Sorted(t) && forall x :: x in t ==> KeyLe(OrderKey(f), OrderKey(x))
    ensures Sorted([f] + t)
  {
    forall i, j | 0 <= i < j < |t| + 1 ensures KeyLe(OrderKey(([f] + t)[i]), OrderKey(([f] + t)[j])) {
      if i == 0 { assert t[j - 1] in t; }
    }
  }

  lemma {:induction false} OrderingRearranges(findings: seq<Finding>)
    ensures multiset(OrderFindings(findings)) == multiset(findings)
  {
    if findings != [] {
      OrderingRearranges(findings[1..]);
      InsertAdds(findings[0], OrderFindings(findings[1..]));
      assert findings == [findings[0]] + findings[1..];
    }
  }

  /** Ordering loses and invents nothing, and its output is in key order. */
  lemma {:induction false} OrderingSorts(findings: seq<Finding>)
    ensures multiset(OrderFindings(findings)) == multiset(findings)
    ensures Sorted(OrderFindings(findings))
  {
    OrderingRearranges(findings);
    if findings != [] {
      OrderingSorts(findings[1..]);
      InsertKeepsOrder(findings[0], OrderFindings(findings[1..]));
    }
  }

  /** The findings that carry one key, in sequence order. */
  function WithKey(findings: seq<Finding>, k: Key): seq<Finding> {
    if findings == [] then []
    else if OrderKey(findings[0]) == k then [findings[0]] + WithKey(findings[1..], k)
    else WithKey(findings[1..], k)
  }

  lemma {:induction false} InsertIsStable(f: Finding, s: seq<Finding>, k: Key)
    ensures WithKey(Insert(f, s), k) == (if OrderKey(f) == k then [f] else []) + WithKey(s, k)
  {
    if s == [] {
    } else if KeyLe(OrderKey(f), OrderKey(s[0])) {
      assert ([f] + s)[1..] == s;
    } else {
      InsertIsStable(f, s[1..], k);
      assert ([s[0]] + Insert(f, s[1..]))[1..] == Insert(f, s[1..]);
      KeyLeIsTotal(OrderKey(f), OrderKey(s[0]));
    }
  }

  /** Findings with equal keys keep their input order. */
  lemma {:induction false} OrderingIsStable(findings: seq<Finding>, k: Key)
    ensures WithKey(OrderFindings(findings), k) == WithKey(findings, k)
  {
    if findings != [] {
      OrderingIsStable(findings[1..], k);
      InsertIsStable(findings[0], OrderFindings(findings[1..]), k);
    }
  }

  // ------------------------------------------------------------------ the rows

  function RowOf(f: Finding, resultId: nat, org: Option<nat>): FindingRow {
    FindingRow(org, resultId, f.checkId, f.severity, f.title, f.description,
               f.affectedResource, f.remediation, f.evidence, f.externalReferences)
  }

  /** `finding_rows`: the stored rows, in stored order. */
  function FindingRows(findings: seq<Finding>, resultId: nat, org: Option<nat>): seq<FindingRow> {
    var ordered := OrderFindings(findings);
    seq(|ordered|, i requires 0 <= i < |ordered| => RowOf(ordered[i], resultId, org))
  }

  /** No two findings share a key unless they are the same finding. */
  ghost predicate KeysTellApart(findings: seq<Finding>) {
    forall a, b :: a in findings && b in findings && OrderKey(a) == OrderKey(b) ==> a == b
  }

  /** What a caller can check: no optional text is present but empty. */
  predicate NoEmptyText(f: Finding) {
    f.affectedResource != Some("") && f.remediation != Some("")
  }

  lemma RankIsInjective(s: Severity, t: Severity)
    requires Rank(s) == Rank(t)
    ensures s == t
  {
    assert Rank(s)[0] == Rank(t)[0];
  }

  /** Equal in every field, reading an absent text as an empty one. */
  predicate SameButForEmpty(a: Finding, b: Finding) {
    && a.severity == b.severity && a.checkId == b.checkId && a.title == b.title && a.description == b.description
    && GetOr(a.affectedResource, "") == GetOr(b.affectedResource, "")
    && GetOr(a.remediation, "") == GetOr(b.remediation, "")
    && a.evidence == b.evidence && a.externalReferences == b.externalReferences
  }

  /** The key loses nothing but the difference between absent and empty text. */
  lemma KeysAgreeExactlyWhen(a: Finding, b: Finding)
    ensures OrderKey(a) == OrderKey(b) <==> SameButForEmpty(a, b)
  {
    var x, y := OrderKey(a), OrderKey(b);
    if x == y {
      assert x[0] == y[0] && x[1] == y[1] && x[2] == y[2] && x[3] == y[3];
      assert x[4] == y[4] && x[5] == y[5] && x[6] == y[6] && x[7] == y[7];
      RankIsInjective(a.severity, b.severity);
      JsonText.DumpsIsInjective(a.externalReferences, b.externalReferences);
    }
  }

  /** No finding occurs beside a twin that has an empty text where it has none. */
  ghost predicate NoEmptyTwins(findings: seq<Finding>) {
    forall a, b :: a in findings && b in findings && SameButForEmpty(a, b) ==> a == b
  }

  lemma TwinsShareKeys(findings: seq<Finding>)
    ensures KeysTellApart(findings) <==> NoEmptyTwins(findings)
  {
    forall a, b ensures OrderKey(a) == OrderKey(b) <==> SameButForEmpty(a, b) {
      KeysAgreeExactlyWhen(a, b);
    }
  }

  lemma HeadIsLeast(a: seq<Finding>, x: Finding)
    requires Sorted(a) && x in a
    ensures KeyLe(OrderKey(a[0]), OrderKey(x))
  {
    var i :| 0 <= i < |a| && a[i] == x;
    KeyLeIsTotal(OrderKey(x), OrderKey(x));
  }

  lemma {:induction false} SortedIsUnique(a: seq<Finding>, b: seq<Finding>)
    requires Sorted(a) && Sorted(b) && multiset(a) == multiset(b) && KeysTellApart(a)
    ensures a == b
  {
    assert |a| == |multiset(a)| == |multiset(b)| == |b|;
    if a != [] {
      assert a[0] in multiset(b) && b[0] in multiset(a);
      HeadIsLeast(a, b[0]);
      HeadIsLeast(b, a[0]);
      KeyLeIsTotal(OrderKey(a[0]), OrderKey(b[0]));
      assert a[0] == b[0];
      TailsAgree(a, b);
      SortedIsUnique(a[1..], b[1..]);
      assert a == [a[0]] + a[1..] && b == [b[0]] + b[1..];
    }
  }

  lemma TailsAgree(a: seq<Finding>, b: seq<Finding>)
    requires a != [] && b != [] && a[0] == b[0] && multiset(a) == multiset(b) && KeysTellApart(a)
    ensures multiset(a[1..]) == multiset(b[1..]) && KeysTellApart(a[1..])
  {
    assert a == [a[0]] + a[1..] && b == [b[0]] + b[1..];
    assert multiset(a[1..]) == multiset(a) - multiset{a[0]} == multiset(b[1..]);
    forall x | x in a[1..] ensures x in a {}
  }

  ghost predicate OrderFree(findings: seq<Finding>, resultId: nat, org: Option<nat>) {
    forall other :: multiset(other) == multiset(findings) ==>
      FindingRows(other, resultId, org) == FindingRows(findings, resultId, org)
  }

  /** Equal row lists come from equal ordered findings: the mapping loses nothing. */
  lemma RowsDetermineOrder(a: seq<Finding>, b: seq<Finding>, resultId: nat, org: Option<nat>)
    requires FindingRows(a, resultId, org) == FindingRows(b, resultId, org)
    ensures OrderFindings(a) == OrderFindings(b)
  {
    var x, y := OrderFindings(a), OrderFindings(b);
    var rx, ry := FindingRows(a, resultId, org), FindingRows(b, resultId, org);
    assert |x| == |rx| == |ry| == |y|;
    forall i | 0 <= i < |x| ensures x[i] == y[i] {
      assert rx[i] == RowOf(x[i], resultId, org) && ry[i] == RowOf(y[i], resultId, org);
    }
  }

  lemma DistinctKeysFixTheRows(findings: seq<Finding>, other: seq<Finding>)
    requires KeysTellApart(findings) && multiset(other) == multiset(findings)
    ensures OrderFindings(other) == OrderFindings(findings)
  {
    OrderingSorts(findings);
    OrderingSorts(other);
    var a := OrderFindings(findings);
    forall x | x in a ensures x in findings { assert x in multiset(a); }
    SortedIsUnique(a, OrderFindings(other));
  }

  /** Two findings with one key are stored in the order they arrived in. */
  lemma SharedKeyKeepsArrivalOrder(a: Finding, b: Finding, rest: seq<Finding>)
    requires OrderKey(a) == OrderKey(b) && a != b
    ensures OrderFindings([a, b] + rest) != OrderFindings([b, a] + rest)
  {
    var k, one, two := OrderKey(a), [a, b] + rest, [b, a] + rest;
    OrderingIsStable(one, k);
    OrderingIsStable(two, k);
    assert WithKey(one, k)[0] == a && WithKey(two, k)[0] == b;
  }

  /** The stored rows are independent of the order the engine produced the
      findings in exactly when no two distinct findings are equal up to an empty
      resource or remediation in place of an absent one. */
  lemma RowsIgnoreOrderExactlyWhen(findings: seq<Finding>, resultId: nat, org: Option<nat>)
    ensures OrderFree(findings, resultId, org) <==> NoEmptyTwins(findings)
  {
    TwinsShareKeys(findings);
    if KeysTellApart(findings) {
      forall other | multiset(other) == multiset(findings)
        ensures FindingRows(other, resultId, org) == FindingRows(findings, resultId, org)
      {
        DistinctKeysFixTheRows(findings, other);
      }
    } else {
      var a, b :| a in findings && b in findings && OrderKey(a) == OrderKey(b) && a != b;
      SharedKeyBreaksTheOrder(findings, a, b, resultId, org);
    }
  }

  lemma SharedKeyBreaksTheOrder(findings: seq<Finding>, a: Finding, b: Finding, resultId: nat, org: Option<nat>)
    requires a in findings && b in findings && OrderKey(a) == OrderKey(b) && a != b
    ensures !OrderFree(findings, resultId, org)
  {
    var rest := Without(findings, a, b);
    SharedKeyKeepsArrivalOrder(a, b, rest);
    RowsTellSequencesApart([a, b] + rest, [b, a] + rest, resultId, org);
    SomeArrivalDiffers(findings, [a, b] + rest, [b, a] + rest, resultId, org);
  }

  lemma RowsTellSequencesApart(one: seq<Finding>, two: seq<Finding>, resultId: nat, org: Option<nat>)
    requires OrderFindings(one) != OrderFindings(two)
    ensures FindingRows(one, resultId, org) != FindingRows(two, resultId, org)
  {
    if FindingRows(one, resultId, org) == FindingRows(two, resultId, org) {
      RowsDetermineOrder(one, two, resultId, org);
    }
  }

  lemma SomeArrivalDiffers(findings: seq<Finding>, one: seq<Finding>, two: seq<Finding>, resultId: nat, org: Option<nat>)
    requires multiset(one) == multiset(findings) == multiset(two)
    requires FindingRows(one, resultId, org) != FindingRows(two, resultId, org)
    ensures !OrderFree(findings, resultId, org)
  {
    assert FindingRows(one, resultId, org) != FindingRows(findings, resultId, org)
        || FindingRows(two, resultId, org) != FindingRows(findings, resultId, org);
  }

  lemma WithoutOne(findings: seq<Finding>, a: Finding) returns (rest: seq<Finding>)
    requires a in findings
    ensures multiset(findings) == multiset(rest) + multiset{a}
  {
    var i :| 0 <= i < |findings| && findings[i] == a;
    rest := findings[..i] + findings[i + 1..];
    assert findings == findings[..i] + [a] + findings[i + 1..];
  }

  lemma Without(findings: seq<Finding>, a: Finding, b: Finding) returns (rest: seq<Finding>)
    requires a in findings && b in findings && a != b
    ensures multiset(findings) == multiset(rest) + multiset{a, b}
  {
    var others := WithoutOne(findings, a);
    assert b in multiset(findings);
    rest := WithoutOne(others, b);
  }

  /** An unchanged re-run stores the same rows in the same sequence: under every
      permutation, provided no optional text is present but empty. */
  lemma RerunStoresTheSameRows(findings: seq<Finding>, other: seq<Finding>, resultId: nat, org: Option<nat>)
    requires forall f :: f in findings ==> NoEmptyText(f)
    requires multiset(other) == multiset(findings)
    ensures FindingRows(other, resultId, org) == FindingRows(findings, resultId, org)
  {
    assert NoEmptyTwins(findings);
    RowsIgnoreOrderExactlyWhen(findings, resultId, org);
  }

  lemma TwinsBreakTheOrder(a: Finding, b: Finding, resultId: nat, org: Option<nat>)
    requires SameButForEmpty(a, b) && a != b
    ensures |[a, b]| == 2 && !OrderFree([a, b], resultId, org)
  {
    assert a in [a, b] && b in [a, b];
    RowsIgnoreOrderExactlyWhen([a, b], resultId, org);
  }

  /** A pair the key cannot tell apart: one rule, no resource against an empty one. */
  lemma EmptyTextBreaksTheOrder(resultId: nat, org: Option<nat>)
    ensures exists findings :: |findings| == 2 && !OrderFree(findings, resultId, org)
  {
    var a := Finding("dnssec.leaf", Info, "t", "", None, None, None, []);
    var b := a.(affectedResource := Some(""));
    TwinsBreakTheOrder(a, b, resultId, org);
  }
}
