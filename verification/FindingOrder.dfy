/** What a stored result shows: the order of its rows, spelled out field by field,
    and that nothing was lost or counted twice. */
module FindingOrder {
  import opened Options
  import JsonText
  import opened Findings

  // ---------------------------------------------------------------- text and lists

  /** Dictionary order of texts by code point: the first difference decides, and a
      proper beginning comes first. */
  predicate Precedes(a: string, b: string) {
    || (|a| < |b| && b[..|a|] == a)
    || exists k :: 0 <= k < |a| && DiffersAt(a, b, k)
  }

  predicate DiffersAt(a: string, b: string, k: nat)
    requires k < |a|
  {
    k < |b| && a[..k] == b[..k] && a[k] < b[k]
  }

  lemma {:induction false} TextLeMeans(a: string, b: string)
    ensures TextLe(a, b) <==> a == b || Precedes(a, b)
  {
    if a != "" && b != "" {
      TextLeMeans(a[1..], b[1..]);
      assert a == [a[0]] + a[1..] && b == [b[0]] + b[1..];
      if a[0] == b[0] {
        SameHead(a, b);
      } else if a[0] < b[0] {
        assert DiffersAt(a, b, 0);
      } else {
        HigherHead(a, b);
      }
    }
  }

  lemma HigherHead(a: string, b: string)
    requires a != "" && b != "" && b[0] < a[0]
    ensures !Precedes(a, b)
  {
  }

  lemma SameHead(a: string, b: string)
    requires a != "" && b != "" && a[0] == b[0]
    ensures Precedes(a, b) <==> Precedes(a[1..], b[1..])
  {
    var x, y := a[1..], b[1..];
    assert a == [a[0]] + x && b == [a[0]] + y;
    if |a| < |b| && b[..|a|] == a {
      assert y[..|x|] == b[..|a|][1..] == x;
    }
    if |x| < |y| && y[..|x|] == x {
      assert b[..|a|] == [a[0]] + y[..|x|];
    }
    if k :| 0 <= k < |a| && DiffersAt(a, b, k) {
      assert k > 0;
      assert x[..k - 1] == a[..k][1..] == b[..k][1..] == y[..k - 1];
      assert DiffersAt(x, y, k - 1);
    }
    if k :| 0 <= k < |x| && DiffersAt(x, y, k) {
      assert a[..k + 1] == [a[0]] + x[..k] && b[..k + 1] == [a[0]] + y[..k];
      assert DiffersAt(a, b, k + 1);
    }
  }

  // ------------------------------------------------------------------- the order

  /** The bands, most severe first. */
  predicate MoreSevere(s: Severity, t: Severity) {
    match s
    case Critical => t != Critical
    case High => t == Medium || t == Low || t == Info
    case Medium => t == Low || t == Info
    case Low => t == Info
    case Info => false
  }

  /** One row may stand before another: by severity, then check id, resource with
      absence first, title, description, remediation, evidence and references. */
  predicate MayPrecede(a: FindingRow, b: FindingRow) {
    var resA, resB := GetOr(a.affectedResource, ""), GetOr(b.affectedResource, "");
    var remA, remB := GetOr(a.remediation, ""), GetOr(b.remediation, "");
    var evA, evB := GetOr(a.evidence, ""), GetOr(b.evidence, "");
    var refA, refB := JsonText.Dumps(a.externalReferences), JsonText.Dumps(b.externalReferences);
    if a.severity != b.severity then MoreSevere(a.severity, b.severity)
    else if a.checkId != b.checkId then Precedes(a.checkId, b.checkId)
    else if resA != resB then Precedes(resA, resB)
    else if a.title != b.title then Precedes(a.title, b.title)
    else if a.description != b.description then Precedes(a.description, b.description)
    else if remA != remB then Precedes(remA, remB)
    else if evA != evB then Precedes(evA, evB)
    else refA == refB || Precedes(refA, refB)
  }

  lemma RankIsSeverity(s: Severity, t: Severity)
    ensures s != t ==> Rank(s) != Rank(t) && (TextLe(Rank(s), Rank(t)) <==> MoreSevere(s, t))
  {
    assert Rank(s)[1..] == "" && Rank(t)[1..] == "";
  }

  lemma KeyLeStep(a: Key, b: Key)
    requires a != [] && b != []
    ensures KeyLe(a, b) <==> if a[0] != b[0] then Precedes(a[0], b[0]) else KeyLe(a[1..], b[1..])
  {
    TextLeMeans(a[0], b[0]);
  }

  /** The last four fields. */
  lemma TailMeans(a: Finding, b: Finding)
    requires KeyLe(OrderKey(a)[4..], OrderKey(b)[4..])
    ensures var x, y := OrderKey(a)[4..], OrderKey(b)[4..];
      if x[0] != y[0] then Precedes(x[0], y[0])
      else if x[1] != y[1] then Precedes(x[1], y[1])
      else if x[2] != y[2] then Precedes(x[2], y[2])
      else x[3] == y[3] || Precedes(x[3], y[3])
  {
    var x, y := OrderKey(a)[4..], OrderKey(b)[4..];
    KeyLeStep(x, y);
    KeyLeStep(x[1..], y[1..]);
    KeyLeStep(x[2..], y[2..]);
    KeyLeStep(x[3..], y[3..]);
    assert x[1..][1..] == x[2..] && y[1..][1..] == y[2..] && x[2..][1..] == x[3..] && y[2..][1..] == y[3..];
  }

  lemma KeyLeMeans(a: Finding, b: Finding, id: nat, org: Option<nat>)
    requires KeyLe(OrderKey(a), OrderKey(b))
    ensures MayPrecede(RowOf(a, id, org), RowOf(b, id, org))
  {
    var x, y := OrderKey(a), OrderKey(b);
    RankIsSeverity(a.severity, b.severity);
    TextLeMeans(x[0], y[0]);
    KeyLeStep(x, y);
    KeyLeStep(x[1..], y[1..]);
    KeyLeStep(x[2..], y[2..]);
    KeyLeStep(x[3..], y[3..]);
    assert x[1..][1..] == x[2..] && y[1..][1..] == y[2..] && x[2..][1..] == x[3..] && y[2..][1..] == y[3..];
    assert x[3..][1..] == x[4..] && y[3..][1..] == y[4..];
    if x[..4] == y[..4] {
      assert x[..4][0] == x[0] && x[..4][1] == x[1] && x[..4][2] == x[2] && x[..4][3] == x[3];
      TailMeans(a, b);
    }
  }

  /** The stored rows are in that order: severity never rises from row to row, and
      within one severity the fields ascend, one after the other. */
  lemma RowsAreInOrder(findings: seq<Finding>, id: nat, org: Option<nat>, i: nat, j: nat)
    requires i < j < |findings|
    ensures var rows := FindingRows(findings, id, org); |rows| == |findings| && MayPrecede(rows[i], rows[j])
  {
    OrderingSorts(findings);
    var ordered := OrderFindings(findings);
    assert |multiset(ordered)| == |ordered| && |multiset(findings)| == |findings|;
    KeyLeMeans(ordered[i], ordered[j], id, org);
  }

  // ------------------------------------------------------------- nothing is lost

  /** The finding a stored row carries. */
  function Read(row: FindingRow): Finding {
    Finding(row.checkId, row.severity, row.title, row.description, row.affectedResource, row.remediation,
            row.evidence, row.externalReferences)
  }

  function ReadAll(rows: seq<FindingRow>): seq<Finding> {
    seq(|rows|, i requires 0 <= i < |rows| => Read(rows[i]))
  }

  /** How many findings carry a severity. */
  function BandSize(findings: seq<Finding>, s: Severity): nat {
    |set i: nat | i < |findings| && findings[i].severity == s|
  }

  lemma {:induction false} CountIsBandSize(findings: seq<Finding>, s: Severity)
    ensures Count(findings, s) == BandSize(findings, s)
  {
    if findings != [] {
      var n := |findings| - 1;
      var rest, last := findings[..n], findings[n];
      CountIsBandSize(rest, s);
      CountSplit(rest, [last], s);
      assert findings == rest + [last];
      BandOneMore(rest, last, s);
    }
  }

  lemma BandOneMore(rest: seq<Finding>, last: Finding, s: Severity)
    ensures BandSize(rest + [last], s) == BandSize(rest, s) + (if last.severity == s then 1 else 0)
  {
    var n := |rest|;
    var before := set i: nat | i < n && rest[i].severity == s;
    var after := set i: nat | i < n + 1 && (rest + [last])[i].severity == s;
    assert after == before + (if last.severity == s then {n} else {});
  }

  lemma RowsReadBack(findings: seq<Finding>, id: nat, org: Option<nat>)
    ensures multiset(ReadAll(FindingRows(findings, id, org))) == multiset(findings)
  {
    OrderingSorts(findings);
    assert ReadAll(FindingRows(findings, id, org)) == OrderFindings(findings);
  }
}
