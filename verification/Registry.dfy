/** Entry-point discovery and the validated module roster. */
module Registry {
  import opened Options

  datatype TestDeclaration = TestDeclaration(testKey: string, testVersion: string)

  datatype Descriptor = Descriptor(queue: string, tests: seq<TestDeclaration>)

  datatype LoadedModule = LoadedModule(entryPoint: string, descriptor: Descriptor) {
    predicate Declares(key: string) {
      exists i :: 0 <= i < |descriptor.tests| && descriptor.tests[i].testKey == key
    }

    /** The first declaration of `key`, as the planner looks it up. */
    function Declaration(key: string): (t: TestDeclaration)
      requires Declares(key)
      ensures t in descriptor.tests && t.testKey == key
    {
      FirstDeclaration(descriptor.tests, key)
    }
  }

  function FirstDeclaration(tests: seq<TestDeclaration>, key: string): (t: TestDeclaration)
    requires exists i :: 0 <= i < |tests| && tests[i].testKey == key
    ensures t in tests && t.testKey == key
  {
    if tests[0].testKey == key then tests[0]
    else
      assert exists i :: 0 <= i < |tests[1..]| && tests[1..][i].testKey == key by {
        var i :| 0 <= i < |tests| && tests[i].testKey == key;
        assert tests[1..][i - 1].testKey == key;
      }
      FirstDeclaration(tests[1..], key)
  }

  datatype RegistryError =
    | RegisteredTwice(entryPoint: string)
    | FailedToLoad(entryPoint: string)
    | NotAModule(entryPoint: string)
    | NoDescriptor(entryPoint: string)
    | KeyClaimedTwice(key: string, claimant: string, entryPoint: string)
    | NoImplementation(key: string)

  datatype Result<+T> = Success(value: T) | Failure(error: RegistryError)

  datatype Roster = Roster(entries: seq<LoadedModule>) {

    /** The module implementing `key`: the first entry that declares it. */
    function ByTestKey(key: string): (r: Result<LoadedModule>)
      ensures r.Success? ==> r.value in entries && r.value.Declares(key)
      ensures r.Failure? ==>
        r.error == NoImplementation(key) && forall e :: e in entries ==> !e.Declares(key)
      decreases |entries|
    {
      if entries == [] then Failure(NoImplementation(key))
      else if entries[0].Declares(key) then Success(entries[0])
      else
        assert forall e :: e in entries ==> e == entries[0] || e in entries[1..];
        Roster(entries[1..]).ByTestKey(key)
    }

    /** The egress queue `key` is routed to. */
    function QueueFor(key: string): Option<string> {
      match ByTestKey(key)
      case Success(m) => Some(m.descriptor.queue)
      case Failure(_) => None
    }
  }

  // ---------------------------------------------------------------- discovery

  /** What loading one entry point produces. */
  datatype Loaded = LoadRaises | WrongProtocol | WrongDescriptor | Implementation(descriptor: Descriptor)

  datatype EntryPoint = EntryPoint(name: string, loaded: Loaded)

  /** One claim on a test key: entry `i`, its `j`-th declaration. */
  ghost predicate IsClaim(found: seq<EntryPoint>, i: int, j: int) {
    0 <= i < |found| && found[i].loaded.Implementation? && 0 <= j < |found[i].loaded.descriptor.tests|
  }

  ghost function ClaimedKey(found: seq<EntryPoint>, i: int, j: int): string
    requires IsClaim(found, i, j)
  {
    found[i].loaded.descriptor.tests[j].testKey
  }

  /** A population discovery accepts: every entry loads as a module, names are
      unique, and no test key is claimed twice anywhere. */
  ghost predicate Acceptable(found: seq<EntryPoint>) {
    && (forall i :: 0 <= i < |found| ==> found[i].loaded.Implementation?)
    && (forall i, k :: 0 <= i < k < |found| ==> found[i].name != found[k].name)
    && (forall i, j, k, l :: IsClaim(found, i, j) && IsClaim(found, k, l) && (i, j) != (k, l)
          ==> ClaimedKey(found, i, j) != ClaimedKey(found, k, l))
  }

  /** The roster an accepted population becomes, in entry-point order. */
  function RosterOf(found: seq<EntryPoint>): Roster
    requires forall i :: 0 <= i < |found| ==> found[i].loaded.Implementation?
  {
    Roster(seq(|found|, i requires 0 <= i < |found| => LoadedModule(found[i].name, found[i].loaded.descriptor)))
  }

  /** The entry point an error blames. */
  function Offender(e: RegistryError): string {
    match e
    case RegisteredTwice(n) => n
    case FailedToLoad(n) => n
    case NotAModule(n) => n
    case NoDescriptor(n) => n
    case KeyClaimedTwice(_, _, n) => n
    case NoImplementation(_) => ""
  }

  /** The error names entry `n` and says what is wrong with it: its name, its loading,
      or a key an earlier entry, or itself, already declared. */
  ghost predicate Blames(e: RegistryError, found: seq<EntryPoint>, n: nat)
    requires n < |found|
  {
    && Offender(e) == found[n].name
    && match e
       case RegisteredTwice(_) => exists i :: 0 <= i < n && found[i].name == found[n].name
       case FailedToLoad(_) => found[n].loaded.LoadRaises?
       case NotAModule(_) => found[n].loaded.WrongProtocol?
       case NoDescriptor(_) => found[n].loaded.WrongDescriptor?
       case KeyClaimedTwice(key, claimant, _) =>
         exists i, j, l :: i <= n && IsClaim(found, i, j) && IsClaim(found, n, l) && (i, j) != (n, l)
           && ClaimedKey(found, i, j) == key && ClaimedKey(found, n, l) == key && claimant == found[i].name
       case NoImplementation(_) => false
  }

  /** Entry `n` is the first that makes the population unacceptable, and is blamed. */
  ghost predicate FirstOffence(found: seq<EntryPoint>, n: nat, e: RegistryError) {
    n < |found| && Acceptable(found[..n]) && !Acceptable(found[..n + 1]) && Blames(e, found, n)
  }

  /** Load and validate the whole entry-point group. It succeeds exactly on an
      acceptable population; otherwise the error names the first entry that
      makes the population unacceptable, and what is wrong with it. */
  method Discover(found: seq<EntryPoint>) returns (r: Result<Roster>)
    ensures r.Success? <==> Acceptable(found)
    ensures r.Success? ==> r.value == RosterOf(found)
    ensures r.Failure? ==> exists n :: 0 <= n < |found| && FirstOffence(found, n, r.error)
  {
    var entries: seq<LoadedModule> := [];
    var seenNames: set<string> := {};
    var seenKeys: map<string, string> := map[];
    for n := 0 to |found|
      invariant Acceptable(found[..n])
      invariant entries == RosterOf(found[..n]).entries
      invariant forall s :: s in seenNames <==> exists i :: 0 <= i < n && found[i].name == s
      invariant Seen(found, n, 0, seenKeys)
    {
      var entryPoint := found[n];
      if entryPoint.name in seenNames {
        RepeatedName(found, n);
        return Failure(RegisteredTwice(entryPoint.name));
      }
      seenNames := seenNames + {entryPoint.name};
      if !entryPoint.loaded.Implementation? {
        var error := LoadError(entryPoint);
        BrokenEntry(found, n, error);
        return Failure(error);
      }
      var tests := entryPoint.loaded.descriptor.tests;
      NothingNew(found, n);
      for m := 0 to |tests|
        invariant Seen(found, n, m, seenKeys) && DistinctClaims(found, n, m)
      {
        if tests[m].testKey in seenKeys {
          var error := KeyClaimedTwice(tests[m].testKey, seenKeys[tests[m].testKey], entryPoint.name);
          RepeatedKey(found, n, m, seenKeys, error);
          return Failure(error);
        }
        SeenOneMore(found, n, m, seenKeys);
        seenKeys := seenKeys[tests[m].testKey := entryPoint.name];
      }
      entries := entries + [LoadedModule(entryPoint.name, entryPoint.loaded.descriptor)];
      AcceptOneMore(found, n);
      SeenTheEntry(found, n, seenKeys);
    }
    assert found[..|found|] == found;
    r := Success(Roster(entries));
  }

  /** What loading an entry that is no module raises. */
  function LoadError(e: EntryPoint): RegistryError
    requires !e.loaded.Implementation?
  {
    match e.loaded
    case LoadRaises => FailedToLoad(e.name)
    case WrongProtocol => NotAModule(e.name)
    case WrongDescriptor => NoDescriptor(e.name)
  }

  /** The recorded keys are exactly the claims passed, each with its claimant. */
  ghost predicate Seen(found: seq<EntryPoint>, n: nat, m: nat, keys: map<string, string>) {
    && (forall k :: k in keys ==> exists i, j ::
          ClaimBefore(found, n, m, i, j) && ClaimedKey(found, i, j) == k && keys[k] == found[i].name)
    && (forall i, j :: ClaimBefore(found, n, m, i, j) ==> ClaimedKey(found, i, j) in keys)
  }

  lemma SeenOneMore(found: seq<EntryPoint>, n: nat, m: nat, keys: map<string, string>)
    requires IsClaim(found, n, m) && Seen(found, n, m, keys) && DistinctClaims(found, n, m)
    requires ClaimedKey(found, n, m) !in keys
    ensures Seen(found, n, m + 1, keys[ClaimedKey(found, n, m) := found[n].name])
    ensures DistinctClaims(found, n, m + 1)
  {
    var key := ClaimedKey(found, n, m);
    var more := keys[key := found[n].name];
    assert ClaimBefore(found, n, m + 1, n, m);
    forall k | k in more
      ensures exists i, j :: ClaimBefore(found, n, m + 1, i, j) && ClaimedKey(found, i, j) == k && more[k] == found[i].name
    {
      if k != key {
        var i, j :| ClaimBefore(found, n, m, i, j) && ClaimedKey(found, i, j) == k && keys[k] == found[i].name;
        assert ClaimBefore(found, n, m + 1, i, j);
      }
    }
    forall i, j | ClaimBefore(found, n, m + 1, i, j)
      ensures ClaimBefore(found, n, m, i, j) || (i == n && j == m)
    {
    }
  }

  lemma SeenTheEntry(found: seq<EntryPoint>, n: nat, keys: map<string, string>)
    requires n < |found| && found[n].loaded.Implementation?
    requires Seen(found, n, |found[n].loaded.descriptor.tests|, keys)
    ensures Seen(found, n + 1, 0, keys)
  {
    var m := |found[n].loaded.descriptor.tests|;
    forall i, j ensures ClaimBefore(found, n + 1, 0, i, j) <==> ClaimBefore(found, n, m, i, j) {
    }
  }

  lemma NothingNew(found: seq<EntryPoint>, n: nat)
    requires n < |found| && Acceptable(found[..n])
    ensures DistinctClaims(found, n, 0)
  {
    var p := found[..n];
    forall i, j, k, l | ClaimBefore(found, n, 0, i, j) && ClaimBefore(found, n, 0, k, l) && (i, j) != (k, l)
      ensures ClaimedKey(found, i, j) != ClaimedKey(found, k, l)
    {
      assert IsClaim(p, i, j) && IsClaim(p, k, l);
      assert ClaimedKey(p, i, j) == ClaimedKey(found, i, j) && ClaimedKey(p, k, l) == ClaimedKey(found, k, l);
    }
  }

  lemma BrokenEntry(found: seq<EntryPoint>, n: nat, e: RegistryError)
    requires n < |found| && Acceptable(found[..n]) && !found[n].loaded.Implementation? && e == LoadError(found[n])
    ensures FirstOffence(found, n, e) && !Acceptable(found)
  {
    assert !found[..n + 1][n].loaded.Implementation?;
  }

  /** Claims the discovery loops have passed: all of the first `n` entries and
      the first `m` declarations of entry `n`. */
  ghost predicate ClaimBefore(found: seq<EntryPoint>, n: nat, m: nat, i: int, j: int) {
    IsClaim(found, i, j) && (i < n || (i == n && j < m))
  }

  ghost predicate DistinctClaims(found: seq<EntryPoint>, n: nat, m: nat) {
    forall i, j, k, l ::
      ClaimBefore(found, n, m, i, j) && ClaimBefore(found, n, m, k, l) && (i, j) != (k, l)
      ==> ClaimedKey(found, i, j) != ClaimedKey(found, k, l)
  }

  lemma UnacceptablePrefix(found: seq<EntryPoint>, n: nat)
    requires n < |found| && !Acceptable(found[..n + 1])
    ensures !Acceptable(found)
  {
    var p := found[..n + 1];
    if Acceptable(found) {
      forall i, j, k, l | IsClaim(p, i, j) && IsClaim(p, k, l) && (i, j) != (k, l)
        ensures ClaimedKey(p, i, j) != ClaimedKey(p, k, l)
      {
        assert IsClaim(found, i, j) && IsClaim(found, k, l);
        assert ClaimedKey(found, i, j) != ClaimedKey(found, k, l);
      }
      assert Acceptable(p);
    }
  }

  lemma RepeatedName(found: seq<EntryPoint>, n: nat)
    requires n < |found| && Acceptable(found[..n]) && exists i :: 0 <= i < n && found[i].name == found[n].name
    ensures FirstOffence(found, n, RegisteredTwice(found[n].name)) && !Acceptable(found)
  {
    var i :| 0 <= i < n && found[i].name == found[n].name;
    var p := found[..n + 1];
    assert p[i].name == p[n].name;
    UnacceptablePrefix(found, n);
  }

  lemma RepeatedKey(found: seq<EntryPoint>, n: nat, m: nat, keys: map<string, string>, e: RegistryError)
    requires IsClaim(found, n, m) && Acceptable(found[..n]) && Seen(found, n, m, keys)
    requires ClaimedKey(found, n, m) in keys
    requires var key := ClaimedKey(found, n, m); e == KeyClaimedTwice(key, keys[key], found[n].name)
    ensures FirstOffence(found, n, e) && !Acceptable(found)
  {
    var key := ClaimedKey(found, n, m);
    var i, j :| ClaimBefore(found, n, m, i, j) && ClaimedKey(found, i, j) == key && keys[key] == found[i].name;
    var p := found[..n + 1];
    assert IsClaim(p, i, j) && IsClaim(p, n, m);
    assert ClaimedKey(p, i, j) == ClaimedKey(p, n, m);
    UnacceptablePrefix(found, n);
  }

  lemma AcceptOneMore(found: seq<EntryPoint>, n: nat)
    requires n < |found| && Acceptable(found[..n]) && found[n].loaded.Implementation?
    requires forall i :: 0 <= i < n ==> found[i].name != found[n].name
    requires DistinctClaims(found, n, |found[n].loaded.descriptor.tests|)
    ensures Acceptable(found[..n + 1])
    ensures RosterOf(found[..n + 1]).entries
         == RosterOf(found[..n]).entries + [LoadedModule(found[n].name, found[n].loaded.descriptor)]
  {
    var p, m := found[..n + 1], |found[n].loaded.descriptor.tests|;
    forall i | 0 <= i < |p| ensures p[i].loaded.Implementation? {
      if i < n { assert found[..n][i].loaded.Implementation?; }
    }
    forall i, k | 0 <= i < k < |p| ensures p[i].name != p[k].name {
      if k < n { assert found[..n][i].name != found[..n][k].name; }
    }
    forall i, j, k, l | IsClaim(p, i, j) && IsClaim(p, k, l) && (i, j) != (k, l)
      ensures ClaimedKey(p, i, j) != ClaimedKey(p, k, l)
    {
      assert ClaimBefore(found, n, m, i, j) && ClaimBefore(found, n, m, k, l);
    }
  }

  // -------------------------------------------------------- order independence

  /** `order` is a bijection on the positions 0..n. */
  ghost predicate IsRearrangement(order: seq<nat>, n: nat) {
    && |order| == n
    && (forall p: nat :: p < n ==> p in order)
    && (forall i :: 0 <= i < n ==> order[i] < n)
    && (forall i, j :: 0 <= i < j < n ==> order[i] != order[j])
  }

  function Rearranged(found: seq<EntryPoint>, order: seq<nat>): seq<EntryPoint>
    requires forall i :: 0 <= i < |order| ==> order[i] < |found|
  {
    seq(|order|, i requires 0 <= i < |order| => found[order[i]])
  }

  /** An accepted population is accepted in every order. */
  lemma AcceptedInAnyOrder(found: seq<EntryPoint>, order: seq<nat>)
    requires Acceptable(found) && IsRearrangement(order, |found|)
    ensures Acceptable(Rearranged(found, order))
  {
    var other := Rearranged(found, order);
    forall i, k | 0 <= i < k < |other| ensures other[i].name != other[k].name {
      assert order[i] < order[k] || order[k] < order[i];
    }
    forall i, j, k, l | IsClaim(other, i, j) && IsClaim(other, k, l) && (i, j) != (k, l)
      ensures ClaimedKey(other, i, j) != ClaimedKey(other, k, l)
    {
      assert IsClaim(found, order[i], j) && IsClaim(found, order[k], l);
      assert (order[i], j) != (order[k], l);
      assert ClaimedKey(found, order[i], j) != ClaimedKey(found, order[k], l);
    }
  }

  /** At most one entry of an accepted roster declares a key. */
  lemma UniqueClaimant(found: seq<EntryPoint>, key: string, a: LoadedModule, b: LoadedModule)
    requires Acceptable(found)
    requires a in RosterOf(found).entries && a.Declares(key)
    requires b in RosterOf(found).entries && b.Declares(key)
    ensures a == b
  {
    var entries := RosterOf(found).entries;
    var i :| 0 <= i < |entries| && entries[i] == a;
    var k :| 0 <= k < |entries| && entries[k] == b;
    var j :| 0 <= j < |a.descriptor.tests| && a.descriptor.tests[j].testKey == key;
    var l :| 0 <= l < |b.descriptor.tests| && b.descriptor.tests[l].testKey == key;
    assert IsClaim(found, i, j) && IsClaim(found, k, l);
    assert ClaimedKey(found, i, j) == ClaimedKey(found, k, l);
  }

  /** Resolution does not depend on the order entry points were listed in: on an
      accepted population every rearrangement resolves every key to the same
      module, or refuses it everywhere. */
  lemma ResolutionIgnoresOrder(found: seq<EntryPoint>, order: seq<nat>, key: string)
    requires Acceptable(found) && IsRearrangement(order, |found|)
    ensures Acceptable(Rearranged(found, order))
    ensures RosterOf(Rearranged(found, order)).ByTestKey(key) == RosterOf(found).ByTestKey(key)
  {
    AcceptedInAnyOrder(found, order);
    var other := Rearranged(found, order);
    var a, b := RosterOf(found), RosterOf(other);
    forall e | e in b.entries ensures e in a.entries {
      var i :| 0 <= i < |b.entries| && b.entries[i] == e;
      assert a.entries[order[i]] == e;
    }
    forall e | e in a.entries ensures e in b.entries {
      var p :| 0 <= p < |a.entries| && a.entries[p] == e;
      assert p in order;
      var i :| 0 <= i < |order| && order[i] == p;
      assert b.entries[i] == e;
    }
    if a.ByTestKey(key).Success? && b.ByTestKey(key).Success? {
      UniqueClaimant(found, key, a.ByTestKey(key).value, b.ByTestKey(key).value);
    }
  }
}
