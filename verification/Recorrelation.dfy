/** Correlating what is correlated already, as the workflow does after discovery: exactly when that changes nothing. */
module Recorrelation {
  import opened Prelude
  import opened Cwe
  import opened Findings
  import opened Sorting
  import opened Grouping
  import opened Correlator
  import Masking

  // ----- Sorted sets are normal forms -----

  ghost predicate StrictlySorted(s: seq<string>) {
    forall i, j :: 0 <= i < j < |s| ==> TextLeq(s[i], s[j]) && s[i] != s[j]
  }

  lemma {:induction false} InsertTextStrict(x: string, s: seq<string>)
    requires StrictlySorted(s)
    ensures StrictlySorted(InsertText(x, s))
  {
    if s != [] && x != s[0] {
      if TextLeq(x, s[0]) {
        forall j | 0 <= j < |s| ensures TextLeq(x, s[j]) && x != s[j] {
          TextOrder(x, s[0], s[j]);
          TextOrder(s[0], x, x);
        }
      } else {
        var rest := InsertText(x, s[1..]);
        InsertTextStrict(x, s[1..]);
        InsertTextMembers(x, s[1..]);
        TextOrder(x, s[0], s[0]);
        forall j | 0 <= j < |rest| ensures TextLeq(s[0], rest[j]) && s[0] != rest[j] {
          assert rest[j] in rest;
          assert rest[j] == x || rest[j] in s[1..];
        }
      }
    }
  }

  lemma {:induction false} SortedSetStrict(s: seq<string>)
    ensures StrictlySorted(SortedSet(s))
  {
    if s != [] {
      SortedSetStrict(s[1..]);
      InsertTextStrict(s[0], SortedSet(s[1..]));
    }
  }

  lemma {:induction false} WithoutStrict(s: seq<string>, x: string)
    requires StrictlySorted(s)
    ensures StrictlySorted(Without(s, x))
  {
    if s != [] {
      var rest := Without(s[1..], x);
      WithoutStrict(s[1..], x);
      forall j | 0 <= j < |rest| ensures TextLeq(s[0], rest[j]) && s[0] != rest[j] {
        assert rest[j] in s[1..];
      }
    }
  }

  /** A strictly sorted list is determined by its elements. */
  lemma {:induction false} StrictlySortedUnique(a: seq<string>, b: seq<string>)
    requires StrictlySorted(a) && StrictlySorted(b) && forall x :: x in a <==> x in b
    ensures a == b
  {
    assert a != [] ==> a[0] in b;
    assert b != [] ==> b[0] in a;
    if a != [] && b != [] {
      HeadIsLeast(a, b[0]);
      HeadIsLeast(b, a[0]);
      TextOrder(a[0], b[0], b[0]);
      forall x ensures x in a[1..] <==> x in b[1..] {
        TailMembers(a, x);
        TailMembers(b, x);
      }
      StrictlySortedUnique(a[1..], b[1..]);
    }
  }

  lemma {:induction false} HeadIsLeast(a: seq<string>, x: string)
    requires StrictlySorted(a) && x in a
    ensures TextLeq(a[0], x)
  {
    TextOrder(x, x, x);
  }

  lemma {:induction false} TailMembers(a: seq<string>, x: string)
    requires StrictlySorted(a) && a != []
    ensures x in a[1..] <==> x in a && x != a[0]
  {
    assert a == [a[0]] + a[1..];
  }

  // ----- Merging a merge alone -----

  /** A finding that a merge of well-formed findings made. */
  ghost predicate IsMerge(m: Finding) {
    exists group :: group != [] && (forall f :: f in group ==> WellFormed(f)) && m == Merge(group)
  }

  lemma {:induction false} MergedParts(group: seq<Finding>)
    requires group != [] && forall f :: f in group ==> WellFormed(f)
    ensures var m := Merge(group);
            && (m.cwe == None || Present(m.cwe)) && (m.owasp == None || Truthy(m.owasp))
            && StrictlySorted(m.mergedRuleIds) && m.ruleId !in m.mergedRuleIds && m.endLine == Some(EndOf(m))
  {
    var sorted := StableSort(group, RankLeq);
    SortMultiset(group, RankLeq);
    SortMembers(group, RankLeq);
    FirstOrNone(sorted);
    SortedSetStrict(RuleIds(sorted));
    WithoutStrict(SortedSet(RuleIds(sorted)), sorted[0].ruleId);
    MaxEndPositive(sorted);
  }

  lemma {:induction false} FirstOrNone(group: seq<Finding>)
    ensures FirstCwe(group) == None || Present(FirstCwe(group))
    ensures FirstOwasp(group) == None || Truthy(FirstOwasp(group))
  {
    if group != [] {
      FirstOrNone(group[1..]);
    }
  }

  lemma {:induction false} MaxEndPositive(group: seq<Finding>)
    requires group != [] && forall f :: f in group ==> WellFormed(f)
    ensures 1 <= MaxEnd(group)
  {
    assert WellFormed(group[0]);
    if |group| > 1 {
      MaxEndPositive(group[1..]);
    }
  }

  lemma {:induction false} MergeOfOne(m: Finding)
    ensures Merge([m]) == Combine([m])
  {
    Masking.SortOne(m, RankLeq);
  }

  lemma {:induction false} LoneCombine(m: Finding)
    requires m.cwe == None || Present(m.cwe)
    requires m.owasp == None || Truthy(m.owasp)
    requires m.endLine == Some(EndOf(m)) && Combine([m]).alsoDetectedBy == []
    requires Without(SortedSet(RuleIds([m])), m.ruleId) == m.mergedRuleIds
    ensures Combine([m]) == m.(alsoDetectedBy := [])
  {
    var one := [m];
    assert one[1..] == [];
    assert FirstCwe(one[1..]) == None && FirstOwasp(one[1..]) == None;
    assert FirstCwe(one) == m.cwe && FirstOwasp(one) == m.owasp;
  }

  /** Merged alone, a merge loses its other scanners and nothing else. */
  lemma {:induction false} LoneMerge(m: Finding)
    requires IsMerge(m)
    ensures Merge([m]) == m.(alsoDetectedBy := [])
  {
    var group :| group != [] && (forall f :: f in group ==> WellFormed(f)) && m == Merge(group);
    MergedParts(group);
    LoneMergeForgets(m);
    LoneRules(m);
    MergeOfOne(m);
    LoneCombine(m);
  }

  lemma {:induction false} LoneRules(m: Finding)
    requires StrictlySorted(m.mergedRuleIds) && m.ruleId !in m.mergedRuleIds
    ensures Without(SortedSet(RuleIds([m])), m.ruleId) == m.mergedRuleIds
  {
    var rules := RuleIds([m]);
    assert RuleIds([m][1..]) == [];
    assert rules == [m.ruleId] + m.mergedRuleIds;
    SortedSetMembers(rules);
    SortedSetStrict(rules);
    WithoutStrict(SortedSet(rules), m.ruleId);
    StrictlySortedUnique(Without(SortedSet(rules), m.ruleId), m.mergedRuleIds);
  }

  lemma {:induction false} OutputsAreMerges(raw: seq<Finding>, m: Finding)
    requires (forall f :: f in raw ==> WellFormed(f)) && m in Correlated(raw)
    ensures IsMerge(m)
  {
    var k := Masking.RunOfOutput(raw, m);
    var run := ProximityRuns(raw)[k];
    ByPlaceElements(raw);
    forall x | x in run ensures WellFormed(x) && x in ByPlace(raw) {
      FlattenIndex(ProximityRuns(raw), k, x);
    }
    if |run| == 1 {
      var group := WithFp(raw, run[0].fingerprint);
      assert run[0] in run;
      ByPlaceIsMerge(raw, run[0]);
      WithFpMembers(raw, run[0].fingerprint);
      assert group != [] && (forall f :: f in group ==> WellFormed(f)) && m == Merge(group);
    } else {
      assert run != [] && (forall f :: f in run ==> WellFormed(f)) && m == Merge(run);
    }
  }

  // ----- The first pass over a list without repeated fingerprints -----

  lemma {:induction false} FirstSeenOfDistinct(s: seq<Finding>)
    requires DistinctBy(s, Fp)
    ensures FirstSeen(s) == Fingerprints(s)
  {
    if s != [] {
      var n := |s| - 1;
      FirstSeenOfDistinct(s[..n]);
      assert Fingerprints(s) == Fingerprints(s[..n]) + [s[n].fingerprint];
      forall i | 0 <= i < n ensures Fingerprints(s[..n])[i] != s[n].fingerprint {
        assert Fp(s[i]) != Fp(s[n]);
      }
    }
  }

  lemma {:induction false} LoneFpGroup(s: seq<Finding>, i: nat)
    requires DistinctBy(s, Fp) && i < |s|
    ensures WithFp(s, s[i].fingerprint) == [s[i]]
  {
    WithFpMembers(s, s[i].fingerprint);
    LoneGroup(s, Fp, s[i].fingerprint);
    var group := WithFp(s, s[i].fingerprint);
    assert s[i] in group;
    assert group == [group[0]];
  }

  /** How many findings come out of the first pass. */
  lemma {:induction false} ByPlaceSize(s: seq<Finding>)
    requires DistinctBy(s, Fp)
    ensures |ByPlace(s)| == |s|
  {
    FirstSeenKeys(s);
    FirstSeenOfDistinct(s);
    SortMultiset(MergeAll(s, FirstSeen(s)), PlaceLeq);
  }

  /** If merging changes no finding alone, the first pass only sorts. */
  lemma {:induction false} FirstPassSorts(s: seq<Finding>)
    requires DistinctBy(s, Fp) && forall m :: m in s ==> Merge([m]) == m
    ensures ByPlace(s) == StableSort(s, PlaceLeq)
  {
    FirstSeenKeys(s);
    FirstSeenOfDistinct(s);
    var merged := MergeAll(s, FirstSeen(s));
    forall i | 0 <= i < |s| ensures merged[i] == s[i] {
      MergeAllElement(s, FirstSeen(s), i);
      LoneFpGroup(s, i);
    }
    assert merged == s;
  }

  // ----- The second pass without neighbours -----

  /** No two neighbours of the list are the same issue. */
  ghost predicate NoNeighbours(s: seq<Finding>) {
    forall i, next :: 0 <= i < next < |s| && next == i + 1 ==> !SameIssue(s[i], s[next])
  }

  function Singles<T>(s: seq<T>): (r: seq<seq<T>>)
    ensures |r| == |s| && forall i :: 0 <= i < |s| ==> r[i] == [s[i]]
  {
    seq(|s|, i requires 0 <= i < |s| => [s[i]])
  }

  lemma {:induction false} FlattenSingles<T>(s: seq<T>)
    ensures Flatten(Singles(s)) == s
  {
    if s != [] {
      var n := |s| - 1;
      assert Singles(s) == Singles(s[..n]) + [[s[n]]];
      FlattenSnoc(Singles(s[..n]), [s[n]]);
      FlattenSingles(s[..n]);
    }
  }

  lemma {:induction false} RunsOfStrangers(s: seq<Finding>, runs: seq<seq<Finding>>)
    requires MaximalRuns(runs, s, SameIssue) && NoNeighbours(s)
    ensures runs == Singles(s)
  {
    var singles := Singles(s);
    FlattenSingles(s);
    forall r | 0 <= r < |singles| - 1 ensures !SameIssue(Last(singles[r]), singles[r + 1][0]) {
      assert !SameIssue(s[r], s[r + 1]);
    }
    MaximalRunsUnique(runs, singles, s, SameIssue);
  }

  lemma {:induction false} FlattenSize<T>(runs: seq<seq<T>>)
    requires forall r :: 0 <= r < |runs| ==> runs[r] != []
    ensures |runs| <= |Flatten(runs)|
    ensures |runs| == |Flatten(runs)| ==> runs == Singles(Flatten(runs))
  {
    if runs != [] {
      FlattenSize(runs[1..]);
      var rest := Flatten(runs[1..]);
      if |runs| == |Flatten(runs)| {
        assert runs[0] == [runs[0][0]] && Flatten(runs) == [runs[0][0]] + rest;
        assert Singles(Flatten(runs)) == [runs[0]] + Singles(rest);
        assert runs == [runs[0]] + runs[1..];
      }
    }
  }

  lemma {:induction false} SinglesAreStrangers(s: seq<Finding>)
    requires MaximalRuns(Singles(s), s, SameIssue)
    ensures NoNeighbours(s)
  {
    forall i, next | 0 <= i < next < |s| && next == i + 1 ensures !SameIssue(s[i], s[next]) {
      assert !SameIssue(Last(Singles(s)[i]), Singles(s)[i + 1][0]);
    }
  }

  lemma {:induction false} FinishSingles(s: seq<Finding>)
    ensures FinishAll(Singles(s)) == s
  {
  }

  // ----- The order survives both sorts -----

  lemma {:induction false} PlaceIsPreorder()
    ensures TotalPreorder(PlaceLeq)
  {
    forall f: Finding, g: Finding ensures PlaceLeq(f, g) || PlaceLeq(g, f) {
      TextOrder(f.file, g.file, g.file);
      TextOrder(FamilyText(f.cwe), FamilyText(g.cwe), FamilyText(g.cwe));
    }
    forall f: Finding, g: Finding, h: Finding | PlaceLeq(f, g) && PlaceLeq(g, h) ensures PlaceLeq(f, h) {
      PlaceTransitive(f, g, h);
    }
  }

  lemma {:induction false} PlaceTransitive(f: Finding, g: Finding, h: Finding)
    requires PlaceLeq(f, g) && PlaceLeq(g, h)
    ensures PlaceLeq(f, h)
  {
    TextOrder(f.file, g.file, h.file);
    TextOrder(h.file, g.file, f.file);
    if f.file == g.file == h.file {
      TextOrder(FamilyText(f.cwe), FamilyText(g.cwe), FamilyText(h.cwe));
      TextOrder(FamilyText(h.cwe), FamilyText(g.cwe), FamilyText(f.cwe));
    }
  }

  lemma {:induction false} RunsInOrder<T(!new)>(runs: seq<seq<T>>, leq: (T, T) -> bool, k: nat, l: nat)
    requires SortedBy(Flatten(runs), leq) && (forall r :: 0 <= r < |runs| ==> runs[r] != []) && k < l < |runs|
    ensures leq(runs[k][0], runs[l][0])
  {
    var s, n := Flatten(runs), |runs[0]|;
    assert s == runs[0] + Flatten(runs[1..]) && s[n..] == Flatten(runs[1..]);
    if k > 0 {
      forall i, j | 0 <= i < j < |s[n..]| ensures leq(s[n..][i], s[n..][j]) {
        assert leq(s[n + i], s[n + j]);
      }
      RunsInOrder(runs[1..], leq, k - 1, l - 1);
    } else {
      assert runs[1..][l - 1] == runs[l];
      FlattenIndex(runs[1..], l - 1, runs[l][0]);
      var j :| 0 <= j < |s[n..]| && s[n..][j] == runs[l][0];
      assert leq(s[0], s[n + j]);
    }
  }

  /** An output has the file and the family of the first member of its run. */
  lemma {:induction false} OutputOfFirst(raw: seq<Finding>, k: nat)
    requires k < |ProximityRuns(raw)|
    ensures var run := ProximityRuns(raw)[k];
            Finish(run).file == run[0].file && FamilyText(Finish(run).cwe) == FamilyText(run[0].cwe)
  {
    var run := ProximityRuns(raw)[k];
    Masking.VoiceSpeaks(raw, k);
    Masking.VoiceIsMember(run);
    if |run| > 1 {
      var i :| 0 <= i < |run| && run[i] == Masking.Voice(run);
      RunsAreHomogeneous(raw, k, i);
    }
  }

  lemma {:induction false} FamiliesInOrder(raw: seq<Finding>, i: nat, j: nat)
    requires i < j < |ProximityRuns(raw)|
    ensures var f, g := Finish(ProximityRuns(raw)[i]), Finish(ProximityRuns(raw)[j]);
            f.file == g.file ==> TextLeq(FamilyText(f.cwe), FamilyText(g.cwe))
  {
    var runs: seq<seq<Finding>> := ProximityRuns(raw);
    FirstSeenKeys(raw);
    PlaceIsPreorder();
    SortSorts(MergeAll(raw, FirstSeen(raw)), PlaceLeq);
    RunsInOrder(runs, PlaceLeq, i, j);
    OutputOfFirst(raw, i);
    OutputOfFirst(raw, j);
    var family := FamilyText(runs[i][0].cwe);
    TextOrder(family, family, family);
  }

  lemma {:induction false} TiedPlaces(f: Finding, g: Finding)
    requires SeverityLeq(f, g) && SeverityLeq(g, f)
    ensures f.severity == g.severity && f.file == g.file && f.line == g.line
  {
    TextOrder(f.file, g.file, g.file);
  }

  /** Outputs that tie in severity, file and line stand in the order of their families. */
  lemma {:induction false} TiedInOrder(raw: seq<Finding>, i: nat, j: nat)
    requires i < j < |ProximityRuns(raw)|
    requires var f, g := Finish(ProximityRuns(raw)[i]), Finish(ProximityRuns(raw)[j]);
             SeverityLeq(f, g) && SeverityLeq(g, f)
    ensures PlaceLeq(Finish(ProximityRuns(raw)[i]), Finish(ProximityRuns(raw)[j]))
  {
    FamiliesInOrder(raw, i, j);
    TiedPlaces(Finish(ProximityRuns(raw)[i]), Finish(ProximityRuns(raw)[j]));
  }

  /** Sorting the result by place and then by severity again gives it back. */
  lemma {:induction false} OrderSurvives(raw: seq<Finding>)
    ensures StableSort(StableSort(Correlated(raw), PlaceLeq), SeverityLeq) == Correlated(raw)
  {
    var outs := FinishAll(ProximityRuns(raw));
    SeverityIsPreorder();
    forall i, j | 0 <= i < j < |outs| && SeverityLeq(outs[i], outs[j]) && SeverityLeq(outs[j], outs[i])
      ensures PlaceLeq(outs[i], outs[j])
    {
      TiedInOrder(raw, i, j);
    }
    ResortIsIdentity(outs, PlaceLeq, SeverityLeq);
  }

  // ----- Idempotence -----

  lemma {:induction false} QuietIsIdempotent(raw: seq<Finding>)
    requires forall f :: f in raw ==> WellFormed(f)
    requires forall m :: m in Correlated(raw) ==> m.alsoDetectedBy == []
    requires NoNeighbours(StableSort(Correlated(raw), PlaceLeq))
    ensures Correlated(Correlated(raw)) == Correlated(raw)
  {
    var first := Correlated(raw);
    var placed := StableSort(first, PlaceLeq);
    CorrelateDistinct(raw);
    MergesAlone(raw);
    FirstPassSorts(first);
    RunsOfStrangers(placed, ProximityRuns(first));
    FinishSingles(placed);
    OrderSurvives(raw);
  }

  lemma {:induction false} MergesAlone(raw: seq<Finding>)
    requires forall f :: f in raw ==> WellFormed(f)
    requires forall m :: m in Correlated(raw) ==> m.alsoDetectedBy == []
    ensures forall m :: m in Correlated(raw) ==> Merge([m]) == m
  {
    forall m: Finding | m in Correlated(raw) ensures Merge([m]) == m {
      OutputsAreMerges(raw, m);
      LoneMerge(m);
    }
  }

  /** If nothing changes, every run of the second correlation is one finding. */
  lemma {:induction false} IdempotentRuns(raw: seq<Finding>)
    requires forall f :: f in raw ==> WellFormed(f)
    requires Correlated(Correlated(raw)) == Correlated(raw)
    ensures ProximityRuns(Correlated(raw)) == Singles(ByPlace(Correlated(raw)))
  {
    var first := Correlated(raw);
    var runs := ProximityRuns(first);
    CorrelateDistinct(raw);
    ByPlaceSize(first);
    SortMultiset(FinishAll(runs), SeverityLeq);
    FlattenSize(runs);
  }

  lemma {:induction false} IdempotentIsQuiet(raw: seq<Finding>)
    requires forall f :: f in raw ==> WellFormed(f)
    requires Correlated(Correlated(raw)) == Correlated(raw)
    ensures forall m :: m in Correlated(raw) ==> m.alsoDetectedBy == []
    ensures NoNeighbours(StableSort(Correlated(raw), PlaceLeq))
  {
    var first := Correlated(raw);
    var placed := ByPlace(first);
    IdempotentRuns(raw);
    CorrelateDistinct(raw);
    FinishSingles(placed);
    SortMembers(placed, SeverityLeq);
    forall m: Finding | m in first ensures m.alsoDetectedBy == [] {
      LoneGroupForgets(first, m);
    }
    MergesAlone(raw);
    FirstPassSorts(first);
    SinglesAreStrangers(placed);
  }

  /** Correlating again changes nothing exactly when no finding of the result names a second scanner, and no two that
      are neighbours in the order of place have become the same issue. */
  lemma {:induction false} IdempotentExactly(raw: seq<Finding>)
    requires forall f :: f in raw ==> WellFormed(f)
    ensures Correlated(Correlated(raw)) == Correlated(raw) <==>
            && (forall m :: m in Correlated(raw) ==> m.alsoDetectedBy == [])
            && NoNeighbours(StableSort(Correlated(raw), PlaceLeq))
  {
    if Correlated(Correlated(raw)) == Correlated(raw) {
      IdempotentIsQuiet(raw);
    }
    if (forall m :: m in Correlated(raw) ==> m.alsoDetectedBy == []) &&
       NoNeighbours(StableSort(Correlated(raw), PlaceLeq))
    {
      QuietIsIdempotent(raw);
    }
  }

  lemma {:induction false} SecondScannerIsLost(raw: seq<Finding>, m: Finding)
    requires (forall f :: f in raw ==> WellFormed(f)) && m in Correlated(raw) && m.alsoDetectedBy != []
    ensures Correlated(Correlated(raw)) != Correlated(raw)
  {
    IdempotentExactly(raw);
  }

  lemma {:induction false} TwoNames(m: Finding, s: string, t: string)
    requires s in ScannersOf(m) && t in ScannersOf(m) && s != t
    ensures m.alsoDetectedBy != []
  {
  }

  /** The case arises: a finding of two scanners forgets one of them. */
  lemma {:induction false} TwoScannersExample(f: Finding, g: Finding)
    requires WellFormed(f) && WellFormed(g) && f.fingerprint != g.fingerprint
    requires Masking.Neighbours(f, g) && ScannerRank(g.scanner) < ScannerRank(f.scanner)
    ensures Correlated(Correlated([f, g])) != Correlated([f, g])
  {
    Masking.PairBecomesOne(f, g);
    OneOfTwo([f, g], f, g);
  }

  lemma {:induction false} OneOfTwo(raw: seq<Finding>, f: Finding, g: Finding)
    requires raw == [f, g] && WellFormed(f) && WellFormed(g) && f.fingerprint != g.fingerprint
    requires |Correlated(raw)| == 1 && f.scanner != g.scanner
    ensures Correlated(Correlated(raw)) != Correlated(raw)
  {
    var out := Correlated(raw)[0];
    var k := Masking.RunOfOutput(raw, out);
    BothAreNamed(raw, f, g, k);
    TwoNames(out, f.scanner, g.scanner);
    SecondScannerIsLost(raw, out);
  }

  lemma {:induction false} AllInOneRun(raw: seq<Finding>, x: Finding)
    requires (forall f :: f in raw ==> WellFormed(f)) && x in raw && |ProximityRuns(raw)| == 1
    ensures x in Members(raw, ProximityRuns(raw)[0])
  {
    var runs := ProximityRuns(raw);
    assert Flatten(runs) == runs[0] + Flatten(runs[1..]) == runs[0];
    ByPlaceElements(raw);
    MembersOf(raw, runs[0]);
    assert x.fingerprint in FpSet(ByPlace(raw));
  }

  lemma {:induction false} AsManyRuns(raw: seq<Finding>)
    ensures |Correlated(raw)| == |ProximityRuns(raw)|
  {
    SortMultiset(FinishAll(ProximityRuns(raw)), SeverityLeq);
  }

  lemma {:induction false} AloneIsNamed(raw: seq<Finding>, x: Finding, k: nat)
    requires (forall f :: f in raw ==> WellFormed(f)) && x in raw && WithFp(raw, x.fingerprint) == [x]
    requires |Correlated(raw)| == 1 && k < |ProximityRuns(raw)|
    ensures x.scanner in ScannersOf(Finish(ProximityRuns(raw)[k]))
  {
    AsManyRuns(raw);
    AllInOneRun(raw, x);
    assert Leads(raw, x);
    CorrelateNames(raw, k, x.scanner);
  }

  lemma {:induction false} BothAreNamed(raw: seq<Finding>, f: Finding, g: Finding, k: nat)
    requires raw == [f, g] && WellFormed(f) && WellFormed(g) && f.fingerprint != g.fingerprint
    requires |Correlated(raw)| == 1 && k < |ProximityRuns(raw)|
    ensures f.scanner in ScannersOf(Finish(ProximityRuns(raw)[k]))
    ensures g.scanner in ScannersOf(Finish(ProximityRuns(raw)[k]))
  {
    Masking.GroupTwo(f, g);
    assert f in raw && g in raw && forall x :: x in raw ==> WellFormed(x);
    AloneIsNamed(raw, f, k);
    AloneIsNamed(raw, g, k);
  }
}
