/** The executable-test catalog: what a scan of one module runs. */
module Catalog {

  datatype ScanModule = Email | Web | File | Pqc | Dnssec

  datatype Classification = NonIntrusive | Intrusive | NotApplicable

  datatype CatalogEntry = CatalogEntry(
    testKey: string, scanModule: ScanModule, classification: Classification)

  const CATALOG_SIZE := 10

  /** The catalog, row by row. */
  function CatalogRow(i: nat): CatalogEntry
    requires i < CATALOG_SIZE
  {
    match i
    case 0 => CatalogEntry("email.mailvalidator", Email, NonIntrusive)
    case 1 => CatalogEntry("web.headers", Web, NonIntrusive)
    case 2 => CatalogEntry("web.tls", Web, NonIntrusive)
    case 3 => CatalogEntry("web.subdomain_enumeration", Web, NonIntrusive)
    case 4 => CatalogEntry("file.hashlookup", File, NotApplicable)
    case 5 => CatalogEntry("file.pandora", File, NotApplicable)
    case 6 => CatalogEntry("file.metadata", File, NotApplicable)
    case 7 => CatalogEntry("file.mime_check", File, NotApplicable)
    case 8 => CatalogEntry("pqc.quantumvalidator", Pqc, NonIntrusive)
    case _ => CatalogEntry("dnssec.chainvalidator", Dnssec, NonIntrusive)
  }

  function ExecutableTests(): seq<CatalogEntry> {
    seq(CATALOG_SIZE, i requires 0 <= i < CATALOG_SIZE => CatalogRow(i))
  }

  /** The rows of `entries` that belong to `m`, in catalog order. */
  function Matching(entries: seq<CatalogEntry>, m: ScanModule): seq<CatalogEntry> {
    if entries == [] then []
    else if entries[0].scanModule == m then [entries[0]] + Matching(entries[1..], m)
    else Matching(entries[1..], m)
  }

  /** `tests_for_module`: what one requested module fans out into. */
  function TestsForModule(m: ScanModule): seq<CatalogEntry> {
    Matching(ExecutableTests(), m)
  }

  lemma {:induction false} MatchingMembers(entries: seq<CatalogEntry>, m: ScanModule, e: CatalogEntry)
    ensures e in Matching(entries, m) <==> e in entries && e.scanModule == m
  {
    if entries != [] {
      MatchingMembers(entries[1..], m, e);
      assert e in entries <==> e == entries[0] || e in entries[1..];
    }
  }

  /** Where each module's first test stands, and how tests are classified. */
  lemma CatalogRows()
    ensures |ExecutableTests()| == 10
    ensures ExecutableTests()[0].scanModule == Email && ExecutableTests()[1].scanModule == Web
    ensures ExecutableTests()[4].scanModule == File && ExecutableTests()[8].scanModule == Pqc
    ensures ExecutableTests()[9].scanModule == Dnssec
    ensures forall i :: 0 <= i < |ExecutableTests()| ==>
      (ExecutableTests()[i].classification == NotApplicable <==> ExecutableTests()[i].scanModule == File)
  {
  }

  function FirstRow(m: ScanModule): nat {
    match m case Email => 0 case Web => 1 case File => 4 case Pqc => 8 case Dnssec => 9
  }

  lemma FanOutOf(entries: seq<CatalogEntry>, m: ScanModule, first: nat)
    requires first < |entries| && entries[first].scanModule == m
    requires forall i :: 0 <= i < |entries| ==>
      (entries[i].classification == NotApplicable <==> entries[i].scanModule == File)
    ensures Matching(entries, m) != []
    ensures forall e :: e in Matching(entries, m) <==> e in entries && e.scanModule == m
    ensures forall e :: e in Matching(entries, m) ==> (e.classification == NotApplicable <==> m == File)
  {
    forall e
      ensures e in Matching(entries, m) <==> e in entries && e.scanModule == m
    {
      MatchingMembers(entries, m, e);
    }
    assert entries[first] in Matching(entries, m);
  }

  /** A requested module never fans out into nothing, every row it does fan out
      into is its own, and `not_applicable` marks exactly the file tests. */
  lemma FanOut(m: ScanModule)
    ensures TestsForModule(m) != []
    ensures forall e :: e in TestsForModule(m) <==> e in ExecutableTests() && e.scanModule == m
    ensures forall e :: e in TestsForModule(m) ==> (e.classification == NotApplicable <==> m == File)
  {
    CatalogRows();
    FanOutOf(ExecutableTests(), m, FirstRow(m));
  }

  lemma {:induction false} MatchingAppend(a: seq<CatalogEntry>, b: seq<CatalogEntry>, m: ScanModule)
    ensures Matching(a + b, m) == Matching(a, m) + Matching(b, m)
  {
    if a == [] {
      assert a + b == b;
    } else {
      assert (a + b)[1..] == a[1..] + b;
      MatchingAppend(a[1..], b, m);
    }
  }

  /** A fan-out keeps catalog order: `at` gives the positions of its tests, each of
      the module's once. */
  lemma {:induction false} MatchingInOrder(entries: seq<CatalogEntry>, m: ScanModule) returns (at: seq<nat>)
    ensures |at| == |Matching(entries, m)|
    ensures forall k :: 0 <= k < |at| ==> at[k] < |entries| && Matching(entries, m)[k] == entries[at[k]]
    ensures forall j, k :: 0 <= j < k < |at| ==> at[j] < at[k]
    ensures forall i: nat :: i in at <==> i < |entries| && entries[i].scanModule == m
  {
    at := [];
    if entries != [] {
      var n := |entries| - 1;
      var rest, last := entries[..n], entries[n];
      at := MatchingInOrder(rest, m);
      MatchingAppend(rest, [last], m);
      assert entries == rest + [last];
      assert Matching([last], m) == if last.scanModule == m then [last] else [];
      if last.scanModule == m {
        at := at + [n];
      }
    }
  }
}
