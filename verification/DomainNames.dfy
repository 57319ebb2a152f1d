/** Names as label lists, and which names a domain proof covers. */
module DomainNames {

  datatype Scope = Exact | Zone

  // -------------------------------------------------------------- cleaning up

  predicate IsSpace(c: char) {
    || '\t' <= c <= '\r' || '\U{1C}' <= c <= ' ' || c == '\U{85}' || c == '\U{A0}' || c == '\U{1680}'
    || '\U{2000}' <= c <= '\U{200A}' || c == '\U{2028}' || c == '\U{2029}' || c == '\U{202F}'
    || c == '\U{205F}' || c == '\U{3000}'
  }

  function StripLeft(s: string): string {
    if s != "" && IsSpace(s[0]) then StripLeft(s[1..]) else s
  }

  function StripRight(s: string): string {
    if s != "" && IsSpace(s[|s| - 1]) then StripRight(s[..|s| - 1]) else s
  }

  /** Lower case of the ASCII letters; host names at this point are A-labels. */
  function Lower(s: string): string {
    seq(|s|, i requires 0 <= i < |s| => if 'A' <= s[i] <= 'Z' then s[i] - 'A' + 'a' else s[i])
  }

  /** One trailing dot is the root label; a second is malformed and stays. */
  function DropRootDot(s: string): string {
    if s != "" && s[|s| - 1] == '.' then s[..|s| - 1] else s
  }

  // ---------------------------------------------------------- labels and names

  function Split(s: string): (r: seq<string>)
    ensures |r| > 0
  {
    if s == "" then [""]
    else
      var rest := Split(s[1..]);
      if s[0] == '.' then [""] + rest else [[s[0]] + rest[0]] + rest[1..]
  }

  function Join(labels: seq<string>): string {
    if |labels| == 0 then ""
    else if |labels| == 1 then labels[0]
    else labels[0] + "." + Join(labels[1..])
  }

  /** The labels of a name, or none at all when it is not a usable name. */
  function Labels(name: string): seq<string> {
    var cleaned := Lower(DropRootDot(StripLeft(StripRight(name))));
    if cleaned == "" || "" in Split(cleaned) then [] else Split(cleaned)
  }

  /** Whether a proof over one name, at a scope, covers another name. */
  function Covers(proof: string, scope: Scope, target: string): bool {
    var p, t := Labels(proof), Labels(target);
    if p == [] || t == [] then false
    else match scope
      case Exact => p == t
      case Zone => LastLabels(t, |p|) == p
  }

  /** The last `n` labels, or all of them when there are fewer. */
  function LastLabels(labels: seq<string>, n: nat): seq<string> {
    if n <= |labels| then labels[|labels| - n..] else labels
  }

  // ------------------------------------------------------ splitting and joining

  predicate DotFree(part: string) {
    '.' !in part
  }

  lemma {:induction false} SplitConcat(a: string, b: string)
    ensures Split(a + "." + b) == Split(a) + Split(b)
  {
    var whole := a + "." + b;
    if a == "" {
      assert whole[1..] == b;
    } else {
      assert whole[1..] == a[1..] + "." + b;
      SplitConcat(a[1..], b);
    }
  }

  lemma {:induction false} SplitDotFree(a: string)
    requires DotFree(a)
    ensures Split(a) == [a]
  {
    if a != "" {
      SplitDotFree(a[1..]);
      assert [a[0]] + a[1..] == a;
    }
  }

  lemma {:induction false} SplitGivesDotFree(s: string)
    ensures forall i :: 0 <= i < |Split(s)| ==> DotFree(Split(s)[i])
  {
    if s != "" {
      SplitGivesDotFree(s[1..]);
    }
  }

  lemma {:induction false} SplitOfJoin(labels: seq<string>)
    requires labels != [] && forall i :: 0 <= i < |labels| ==> DotFree(labels[i])
    ensures Split(Join(labels)) == labels
  {
    SplitDotFree(labels[0]);
    if |labels| > 1 {
      SplitOfJoin(labels[1..]);
      SplitConcat(labels[0], Join(labels[1..]));
    }
  }

  lemma {:induction false} JoinOfSplit(s: string)
    ensures Join(Split(s)) == s
  {
    if s != "" {
      var rest := Split(s[1..]);
      JoinOfSplit(s[1..]);
      if s[0] != '.' {
        assert ([[s[0]] + rest[0]] + rest[1..])[1..] == rest[1..];
      } else {
        assert ([""] + rest)[1..] == rest;
      }
    }
  }

  lemma {:induction false} JoinConcat(a: seq<string>, b: seq<string>)
    requires a != [] && b != []
    ensures Join(a + b) == Join(a) + "." + Join(b)
  {
    if |a| == 1 {
      assert (a + b)[1..] == b;
    } else {
      assert (a + b)[1..] == a[1..] + b;
      JoinConcat(a[1..], b);
    }
  }

  // --------------------------------------------- what covering means on strings

  predicate EndsWith(s: string, suffix: string) {
    |suffix| <= |s| && s[|s| - |suffix|..] == suffix
  }

  /** The name a usable spelling stands for. */
  function Spelled(name: string): string {
    Join(Labels(name))
  }

  lemma LabelsAreDotFree(name: string)
    ensures forall i :: 0 <= i < |Labels(name)| ==> DotFree(Labels(name)[i])
  {
    SplitGivesDotFree(Lower(DropRootDot(StripLeft(StripRight(name)))));
  }

  /** Ending in the same labels is ending in the same dot-bounded text. */
  lemma SameEndingExactlyWhen(p: seq<string>, t: seq<string>)
    requires p != [] && t != []
    requires forall i :: 0 <= i < |p| ==> DotFree(p[i])
    requires forall i :: 0 <= i < |t| ==> DotFree(t[i])
    ensures LastLabels(t, |p|) == p <==> Join(t) == Join(p) || EndsWith(Join(t), "." + Join(p))
  {
    SplitOfJoin(p);
    SplitOfJoin(t);
    if EndsWith(Join(t), "." + Join(p)) {
      var x := Join(t)[..|Join(t)| - |Join(p)| - 1];
      assert Join(t) == x + "." + Join(p);
      SplitConcat(x, Join(p));
      assert t == Split(x) + p;
    }
    if |p| < |t| && t[|t| - |p|..] == p {
      JoinedEnding(t[..|t| - |p|], p);
      assert t == t[..|t| - |p|] + p;
    }
  }

  lemma JoinedEnding(x: seq<string>, p: seq<string>)
    requires x != [] && p != []
    ensures EndsWith(Join(x + p), "." + Join(p))
  {
    JoinConcat(x, p);
    assert Join(x) + "." + Join(p) == Join(x) + ("." + Join(p));
  }

  /** The label test is the dot-bounded suffix test, on any two spellings: a zone
      proof covers its own name and the names that end in a dot plus its name. */
  lemma CoversExactlyWhen(proof: string, scope: Scope, target: string)
    ensures Covers(proof, scope, target)
       <==> (&& Labels(proof) != [] && Labels(target) != []
             && (|| Spelled(target) == Spelled(proof)
                 || (scope == Zone && EndsWith(Spelled(target), "." + Spelled(proof)))))
  {
    var p, t := Labels(proof), Labels(target);
    LabelsAreDotFree(proof);
    LabelsAreDotFree(target);
    if p != [] && t != [] {
      SplitOfJoin(p);
      SplitOfJoin(t);
      SameEndingExactlyWhen(p, t);
    }
  }

  /** A canonical value: what the API boundary stores for an asset. */
  predicate Canonical(name: string) {
    && name != "" && "" !in Split(name)
    && forall i :: 0 <= i < |name| ==> !IsSpace(name[i]) && !('A' <= name[i] <= 'Z')
  }

  lemma TrailingDotLeavesAnEmptyLabel(name: string)
    requires name != "" && name[|name| - 1] == '.'
    ensures "" in Split(name)
  {
    var rest := name[..|name| - 1];
    assert name == rest + "." + "";
    SplitConcat(rest, "");
    assert Split(name)[|Split(rest)|] == "";
  }

  lemma CanonicalLabels(name: string)
    requires Canonical(name)
    ensures Labels(name) == Split(name) && Spelled(name) == name
  {
    JoinOfSplit(name);
    if name[|name| - 1] == '.' {
      TrailingDotLeavesAnEmptyLabel(name);
    }
    assert Lower(name) == name;
  }

  /** Sharing a string ending is not enough: without a dot in between, a longer
      name is outside the zone. */
  lemma NoDotNoCoverage(x: string, proof: string)
    requires Canonical(proof) && Canonical(x + proof) && x != "" && x[|x| - 1] != '.'
    ensures !Covers(proof, Zone, x + proof)
  {
    CoversExactlyWhen(proof, Zone, x + proof);
    CanonicalLabels(proof);
    CanonicalLabels(x + proof);
    assert (x + proof)[|x + proof| - |proof| - 1] == x[|x| - 1];
    assert ("." + proof)[0] == '.';
  }

  lemma SharedEnding(p: seq<string>, q: seq<string>, t: seq<string>)
    requires |p| <= |q| && LastLabels(t, |q|) == q
    ensures LastLabels(t, |p|) == LastLabels(q, |p|)
  {
    assert t[|t| - |p|..] == t[|t| - |q|..][|q| - |p|..];
  }

  /** Zone coverage is a partial order on canonical names: */
  lemma ZoneCoverageIsReflexive(a: string)
    requires Canonical(a)
    ensures Covers(a, Zone, a)
  {
    CanonicalLabels(a);
  }

  lemma ZoneCoverageIsAntisymmetric(a: string, b: string)
    requires Canonical(a) && Canonical(b) && Covers(a, Zone, b) && Covers(b, Zone, a)
    ensures a == b
  {
    CanonicalLabels(a);
    CanonicalLabels(b);
  }

  lemma ZoneCoverageIsTransitive(a: string, b: string, c: string)
    requires Covers(a, Zone, b) && Covers(b, Zone, c)
    ensures Covers(a, Zone, c)
  {
    SharedEnding(Labels(a), Labels(b), Labels(c));
  }

  /** Two zone proofs that cover one name are nested. */
  lemma CoveringZonesAreNested(a: string, b: string, target: string)
    requires Covers(a, Zone, target) && Covers(b, Zone, target)
    ensures Covers(a, Zone, b) || Covers(b, Zone, a)
  {
    if |Labels(a)| <= |Labels(b)| {
      SharedEnding(Labels(a), Labels(b), Labels(target));
    } else {
      SharedEnding(Labels(b), Labels(a), Labels(target));
    }
  }

  // ------------------------------------------------------- spellings of one name

  /** The same text but for the case of ASCII letters. */
  predicate SameButForCase(s: string, t: string) {
    |s| == |t| && forall i :: 0 <= i < |s| ==>
      || s[i] == t[i]
      || ('A' <= s[i] <= 'Z' && t[i] as int == s[i] as int + 32)
      || ('A' <= t[i] <= 'Z' && s[i] as int == t[i] as int + 32)
  }

  lemma {:induction false} CaseSurvivesStripRight(s: string, t: string)
    requires SameButForCase(s, t)
    ensures SameButForCase(StripRight(s), StripRight(t))
  {
    if s != "" && IsSpace(s[|s| - 1]) {
      CaseSurvivesStripRight(s[..|s| - 1], t[..|t| - 1]);
    }
  }

  lemma {:induction false} CaseSurvivesStripLeft(s: string, t: string)
    requires SameButForCase(s, t)
    ensures SameButForCase(StripLeft(s), StripLeft(t))
  {
    if s != "" && IsSpace(s[0]) {
      CaseSurvivesStripLeft(s[1..], t[1..]);
    }
  }

  lemma LowerForgetsCase(s: string, t: string)
    requires SameButForCase(s, t)
    ensures Lower(s) == Lower(t)
  {
  }

  /** Case does not matter to a name. */
  lemma LabelsIgnoreCase(s: string, t: string)
    requires SameButForCase(s, t)
    ensures Labels(s) == Labels(t)
  {
    CaseSurvivesStripRight(s, t);
    CaseSurvivesStripLeft(StripRight(s), StripRight(t));
    var x, y := StripLeft(StripRight(s)), StripLeft(StripRight(t));
    assert SameButForCase(DropRootDot(x), DropRootDot(y));
    LowerForgetsCase(DropRootDot(x), DropRootDot(y));
  }

  lemma {:induction false} SpaceInFront(c: char, s: string)
    requires IsSpace(c)
    ensures StripLeft(StripRight([c] + s)) == StripLeft(StripRight(s))
  {
    if s == "" {
      assert [c] + s == [c] && [c][..0] == "";
      assert StripRight([c]) == StripRight([c][..0]);
    } else {
      var n := |s| - 1;
      assert ([c] + s)[..|s|] == [c] + s[..n] && ([c] + s)[|s|] == s[n];
      if IsSpace(s[n]) {
        SpaceInFront(c, s[..n]);
      } else {
        assert ([c] + s)[1..] == s;
      }
    }
  }

  /** Neither do blanks around it. */
  lemma LabelsIgnoreBlanks(s: string, c: char)
    requires c == ' ' || c == '\t' || c == '\n'
    ensures Labels([c] + s) == Labels(s) && Labels(s + [c]) == Labels(s)
  {
    SpaceInFront(c, s);
    assert (s + [c])[..|s|] == s;
  }

  lemma NothingToStrip(s: string)
    requires s != "" && !IsSpace(s[0]) && !IsSpace(s[|s| - 1])
    ensures StripLeft(StripRight(s)) == s
  {
  }

  /** One trailing dot is the root and does not matter; two make no name. */
  lemma LabelsIgnoreTheRoot(s: string)
    requires s != "" && !IsSpace(s[0]) && !IsSpace(s[|s| - 1]) && s[|s| - 1] != '.'
    ensures Labels(s + ".") == Labels(s)
    ensures Labels(s + "..") == []
  {
    NothingToStrip(s);
    NothingToStrip(s + ".");
    NothingToStrip(s + "..");
    assert (s + ".")[..|s|] == s;
    assert (s + "..")[..|s| + 1] == s + ".";
    var low := Lower(s + ".");
    assert low[|low| - 1] == '.';
    TrailingDotLeavesAnEmptyLabel(low);
  }

  /** A usable name has no empty label and no upper-case letter. */
  lemma LabelsAreClean(s: string, i: nat)
    requires i < |Labels(s)|
    ensures Labels(s)[i] != "" && forall k :: 0 <= k < |Labels(s)[i]| ==> !('A' <= Labels(s)[i][k] <= 'Z')
  {
    var cleaned := Lower(DropRootDot(StripLeft(StripRight(s))));
    SplitKeepsCharacters(cleaned, i);
    assert Labels(s)[i] in Labels(s);
    forall k | 0 <= k < |Labels(s)[i]| ensures !('A' <= Labels(s)[i][k] <= 'Z') {
      assert Labels(s)[i][k] in cleaned;
    }
  }

  lemma {:induction false} SplitKeepsCharacters(s: string, i: nat)
    requires i < |Split(s)|
    ensures forall c :: c in Split(s)[i] ==> c in s
  {
    if s != "" {
      var rest := Split(s[1..]);
      if s[0] == '.' {
        if i > 0 {
          SplitKeepsCharacters(s[1..], i - 1);
        }
      } else {
        SplitKeepsCharacters(s[1..], i);
      }
    }
  }
}
