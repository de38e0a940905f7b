/** The finding correlator (backend/services/correlator.py): findings are grouped by fingerprint, the groups are
    sorted by place and runs of neighbours are merged. */
module Correlator {
  import opened Prelude
  import opened Text
  import opened Cwe
  import opened Findings
  import opened Sorting
  import opened Grouping

  const LINE_WINDOW := 3
  const SECRETS := Some(Numbered(798))

  /** Proximity merging is for the data-flow results of these scanners only. */
  predicate IsCodeAnalyzer(scanner: string) {
    scanner == "semgrep" || scanner == "codeql"
  }

  function ScannerRank(scanner: string): nat {
    if scanner == "codeql" then 0
    else if scanner == "semgrep" then 1
    else if scanner == "trivy" then 2
    else if scanner == "gitleaks" then 3
    else 4
  }

  predicate RankLeq(f: Finding, g: Finding) {
    var p, q := ScannerRank(f.scanner), ScannerRank(g.scanner);
    p < q || (p == q && SeverityIndex(f.severity) >= SeverityIndex(g.severity))
  }

  /** The line bounds of the finding schema. */
  predicate WellFormed(f: Finding) {
    1 <= f.line && (f.endLine.Some? ==> 1 <= f.endLine.value)
  }

  // ----- Merging a group -----

  function TopSeverity(group: seq<Finding>): Severity
    requires group != []
  {
    if |group| == 1 then group[0].severity
    else
      var rest := TopSeverity(group[1..]);
      if SeverityIndex(group[0].severity) >= SeverityIndex(rest) then group[0].severity else rest
  }

  function LongestEvidence(group: seq<Finding>): string
    requires group != []
  {
    if |group| == 1 then group[0].evidence
    else
      var rest := LongestEvidence(group[1..]);
      if |group[0].evidence| >= |rest| then group[0].evidence else rest
  }

  function MaxEnd(group: seq<Finding>): int
    requires group != []
  {
    if |group| == 1 then EndOf(group[0]) else Max(EndOf(group[0]), MaxEnd(group[1..]))
  }

  function FirstCwe(group: seq<Finding>): Option<Cwe> {
    if group == [] then None else if Present(group[0].cwe) then group[0].cwe else FirstCwe(group[1..])
  }

  function FirstOwasp(group: seq<Finding>): Option<string> {
    if group == [] then None else if Truthy(group[0].owasp) then group[0].owasp else FirstOwasp(group[1..])
  }

  function Scanners(group: seq<Finding>): seq<string> {
    if group == [] then [] else [group[0].scanner] + Scanners(group[1..])
  }

  function RuleIds(group: seq<Finding>): seq<string> {
    if group == [] then [] else [group[0].ruleId] + group[0].mergedRuleIds + RuleIds(group[1..])
  }

  function Without(s: seq<string>, x: string): (r: seq<string>)
    ensures forall y :: y in r <==> y in s && y != x
  {
    if s == [] then [] else (if s[0] != x then [s[0]] else []) + Without(s[1..], x)
  }

  function Combine(group: seq<Finding>): Finding
    requires group != []
  {
    var primary := group[0];
    primary.(severity := TopSeverity(group),
             cwe := if Present(primary.cwe) then primary.cwe else FirstCwe(group),
             owasp := if Truthy(primary.owasp) then primary.owasp else FirstOwasp(group),
             alsoDetectedBy := Without(SortedSet(Scanners(group)), primary.scanner),
             mergedRuleIds := Without(SortedSet(RuleIds(group)), primary.ruleId),
             evidence := LongestEvidence(group),
             endLine := Some(MaxEnd(group)))
  }

  function Merge(group: seq<Finding>): Finding
    requires group != []
  {
    SortMultiset(group, RankLeq);
    Combine(StableSort(group, RankLeq))
  }

  function RulesOf(f: Finding): set<string> {
    {f.ruleId} + set r | r in f.mergedRuleIds
  }

  function FpSet(group: seq<Finding>): set<string> {
    set f | f in group :: f.fingerprint
  }

  function SeverityOf(f: Finding): int {
    SeverityIndex(f.severity)
  }

  function EvidenceLength(f: Finding): int {
    |f.evidence|
  }

  /** The largest measure in a group. */
  function Peak(group: seq<Finding>, measure: Finding -> int): int
    requires group != []
  {
    if |group| == 1 then measure(group[0]) else Max(Peak(group[..|group| - 1], measure), measure(group[|group| - 1]))
  }

  function AllRules(group: seq<Finding>): set<string> {
    if group == [] then {} else AllRules(group[..|group| - 1]) + RulesOf(group[|group| - 1])
  }

  function AllEvidence(group: seq<Finding>): set<string> {
    if group == [] then {} else AllEvidence(group[..|group| - 1]) + {group[|group| - 1].evidence}
  }

  /** `m` stands for all of `members`: it has the largest severity, extent and evidence among them, its evidence
      and fingerprint are those of members, and it knows exactly their rules. */
  predicate Summary(m: Finding, members: seq<Finding>) {
    && members != [] && WellFormed(m)
    && SeverityOf(m) == Peak(members, SeverityOf)
    && EvidenceLength(m) == Peak(members, EvidenceLength)
    && EndOf(m) == Peak(members, EndOf)
    && RulesOf(m) == AllRules(members)
    && m.evidence in AllEvidence(members)
    && m.fingerprint in FpSet(members)
  }

  lemma {:induction false} PeakIsMax(group: seq<Finding>, measure: Finding -> int)
    requires group != []
    ensures forall f :: f in group ==> measure(f) <= Peak(group, measure)
    ensures exists f :: f in group && measure(f) == Peak(group, measure)
  {
    var last := group[|group| - 1];
    assert last in group;
    if |group| > 1 {
      var init := group[..|group| - 1];
      PeakIsMax(init, measure);
      assert group == init + [last];
      var f :| f in init && measure(f) == Peak(init, measure);
      assert f in group;
    }
  }

  lemma {:induction false} AllRulesMembers(group: seq<Finding>)
    ensures forall r :: r in AllRules(group) <==> exists f :: f in group && r in RulesOf(f)
  {
    if group != [] {
      var init, last := group[..|group| - 1], group[|group| - 1];
      AllRulesMembers(init);
      assert group == init + [last];
      assert last in group && forall f :: f in init ==> f in group;
    }
  }

  lemma {:induction false} AllEvidenceMembers(group: seq<Finding>)
    ensures forall e :: e in AllEvidence(group) <==> exists f :: f in group && f.evidence == e
  {
    if group != [] {
      var init, last := group[..|group| - 1], group[|group| - 1];
      AllEvidenceMembers(init);
      assert group == init + [last];
      assert last in group && forall f :: f in init ==> f in group;
    }
  }

  lemma {:induction false} ConcatSummary(a: seq<Finding>, b: seq<Finding>, measure: Finding -> int)
    requires a != [] && b != []
    ensures Peak(a + b, measure) == Max(Peak(a, measure), Peak(b, measure))
    ensures AllRules(a + b) == AllRules(a) + AllRules(b)
    ensures AllEvidence(a + b) == AllEvidence(a) + AllEvidence(b)
  {
    var n := |b| - 1;
    assert (a + b)[..|a| + n] == a + b[..n];
    if n > 0 {
      ConcatSummary(a, b[..n], measure);
    } else {
      assert a + b[..n] == a;
    }
  }

  lemma {:induction false} CombinePeaks(group: seq<Finding>)
    requires group != []
    ensures SeverityIndex(TopSeverity(group)) == Peak(group, SeverityOf)
    ensures |LongestEvidence(group)| == Peak(group, EvidenceLength)
    ensures MaxEnd(group) == Peak(group, EndOf)
    ensures LongestEvidence(group) in AllEvidence(group)
  {
    if |group| > 1 {
      assert group == [group[0]] + group[1..];
      CombinePeaks(group[1..]);
      ConcatSummary([group[0]], group[1..], SeverityOf);
      ConcatSummary([group[0]], group[1..], EvidenceLength);
      ConcatSummary([group[0]], group[1..], EndOf);
    }
  }

  lemma {:induction false} RuleIdsAreAllRules(group: seq<Finding>)
    ensures forall r :: r in RuleIds(group) <==> r in AllRules(group)
  {
    if |group| == 1 {
      assert group[1..] == [] && group[..0] == [];
    } else if |group| > 1 {
      assert group == [group[0]] + group[1..];
      RuleIdsAreAllRules(group[1..]);
      RuleIdsAreAllRules([group[0]]);
      assert [group[0]][1..] == [];
      ConcatSummary([group[0]], group[1..], EndOf);
    }
  }

  lemma {:induction false} ScannersMembers(group: seq<Finding>)
    ensures forall s :: s in Scanners(group) <==> exists f :: f in group && f.scanner == s
  {
    if group != [] {
      ScannersMembers(group[1..]);
      forall s ensures s in Scanners(group) <==> exists f :: f in group && f.scanner == s {
        if s in Scanners(group[1..]) {
          var f :| f in group[1..] && f.scanner == s;
          assert f in group;
        } else if s == group[0].scanner {
          assert group[0] in group;
        }
      }
    }
  }

  /** Merging a group gives a summary of it. */
  lemma {:induction false} MergeSummarizes(group: seq<Finding>)
    requires group != [] && forall f :: f in group ==> WellFormed(f)
    ensures Summary(Merge(group), group)
  {
    SortMultiset(group, RankLeq);
    SortMembers(group, RankLeq);
    CombineSummarizes(StableSort(group, RankLeq));
    SameMembersSummary(Merge(group), StableSort(group, RankLeq), group);
  }

  lemma {:induction false} FirstCwePresent(group: seq<Finding>)
    ensures Present(FirstCwe(group)) <==> exists f :: f in group && Present(f.cwe)
    ensures Present(FirstCwe(group)) ==> exists f :: f in group && f.cwe == FirstCwe(group)
  {
    if group != [] {
      FirstCwePresent(group[1..]);
      assert group[0] in group && forall f :: f in group[1..] ==> f in group;
      forall f | f in group && Present(f.cwe) ensures Present(FirstCwe(group)) {
        assert f == group[0] || f in group[1..];
      }
    }
  }

  /** A merge has a CWE exactly if some member has one, and then it is that of a member. */
  lemma {:induction false} MergeKeepsCwe(group: seq<Finding>)
    requires group != []
    ensures Present(Merge(group).cwe) <==> exists f :: f in group && Present(f.cwe)
    ensures Present(Merge(group).cwe) ==> exists f :: f in group && f.cwe == Merge(group).cwe
  {
    var sorted := StableSort(group, RankLeq);
    SortMultiset(group, RankLeq);
    SortMembers(group, RankLeq);
    FirstCwePresent(sorted);
    assert sorted[0] in sorted;
  }

  /** A merge lists, besides its own scanner, exactly the scanners of its members. */
  lemma {:induction false} MergeListsScanners(group: seq<Finding>, scanner: string)
    requires group != []
    ensures scanner in Merge(group).alsoDetectedBy <==>
            scanner != Merge(group).scanner && exists f :: f in group && f.scanner == scanner
  {
    var sorted := StableSort(group, RankLeq);
    SortMultiset(group, RankLeq);
    SortMembers(group, RankLeq);
    ScannersMembers(sorted);
    SortedSetMembers(Scanners(sorted));
    if exists f :: f in group && f.scanner == scanner {
      var f :| f in group && f.scanner == scanner;
      assert f in sorted;
    }
  }

  lemma {:induction false} PrimaryIsBest(group: seq<Finding>, f: Finding)
    requires f in group
    ensures StableSort(group, RankLeq) != [] && RankLeq(StableSort(group, RankLeq)[0], f)
  {
    var sorted := StableSort(group, RankLeq);
    SortMembers(group, RankLeq);
    RankIsPreorder();
    SortSorts(group, RankLeq);
    var k :| 0 <= k < |sorted| && sorted[k] == f;
    assert k == 0 || RankLeq(sorted[0], sorted[k]);
  }

  /** A merge keeps the identity of a best-ranked member: the richest scanner, then the highest severity. */
  lemma {:induction false} MergeKeepsBestRanked(group: seq<Finding>)
    requires group != []
    ensures exists p :: p in group && SameIdentity(Merge(group), p) &&
              forall f :: f in group ==>
                || ScannerRank(p.scanner) < ScannerRank(f.scanner)
                || (ScannerRank(p.scanner) == ScannerRank(f.scanner) &&
                    SeverityIndex(p.severity) >= SeverityIndex(f.severity))
  {
    var sorted := StableSort(group, RankLeq);
    SortMultiset(group, RankLeq);
    SortMembers(group, RankLeq);
    assert sorted[0] in sorted;
    forall f | f in group ensures RankLeq(sorted[0], f) {
      PrimaryIsBest(group, f);
    }
  }

  /** The fields that a merge takes from its primary unchanged. */
  predicate SameIdentity(m: Finding, p: Finding) {
    && m.id == p.id && m.scanner == p.scanner && m.ruleId == p.ruleId && m.file == p.file && m.line == p.line
    && m.title == p.title && m.symbol == p.symbol && m.fingerprint == p.fingerprint && m.cve == p.cve
    && m.package == p.package && m.analysis == p.analysis && m.prScope == p.prScope
    && (Present(p.cwe) ==> m.cwe == p.cwe)
  }

  lemma {:induction false} RankIsPreorder()
    ensures TotalPreorder(RankLeq)
  {
  }

  lemma {:induction false} CombineSummarizes(group: seq<Finding>)
    requires group != [] && forall f :: f in group ==> WellFormed(f)
    ensures Summary(Combine(group), group)
  {
    CombinePeaks(group);
    RuleIdsAreAllRules(group);
    SortedSetMembers(RuleIds(group));
    PeakIsMax(group, EndOf);
    assert group[0] in group;
    assert RulesOf(Combine(group)) == AllRules(group);
  }

  /** A summary depends on which findings are members, not on their order. */
  lemma {:induction false} SameMembersSummary(m: Finding, a: seq<Finding>, b: seq<Finding>)
    requires Summary(m, a) && forall f :: f in a <==> f in b
    ensures Summary(m, b)
  {
    assert a[0] in b;
    SamePeak(a, b, SeverityOf);
    SamePeak(a, b, EvidenceLength);
    SamePeak(a, b, EndOf);
    AllRulesMembers(a);
    AllRulesMembers(b);
    AllEvidenceMembers(a);
    AllEvidenceMembers(b);
  }

  lemma {:induction false} SamePeak(a: seq<Finding>, b: seq<Finding>, measure: Finding -> int)
    requires a != [] && b != [] && forall f :: f in a <==> f in b
    ensures Peak(a, measure) == Peak(b, measure)
  {
    PeakIsMax(a, measure);
    PeakIsMax(b, measure);
  }

  // ----- Grouping by fingerprint -----

  function Fp(f: Finding): string {
    f.fingerprint
  }

  /** The keys of the dictionary, in insertion order. */
  function FirstSeen(findings: seq<Finding>): seq<string> {
    if findings == [] then []
    else
      var seen := FirstSeen(findings[..|findings| - 1]);
      var fp := findings[|findings| - 1].fingerprint;
      if fp in seen then seen else seen + [fp]
  }

  function WithFp(findings: seq<Finding>, fp: string): seq<Finding> {
    WithKey(findings, Fp, fp)
  }

  lemma {:induction false} WithFpMembers(findings: seq<Finding>, fp: string)
    ensures forall f :: f in WithFp(findings, fp) <==> f in findings && f.fingerprint == fp
  {
    WithKeyMembers(findings, Fp, fp);
  }

  lemma {:induction false} FirstSeenKeys(findings: seq<Finding>)
    ensures forall fp :: fp in FirstSeen(findings) <==> exists f :: f in findings && f.fingerprint == fp
    ensures Distinct(FirstSeen(findings))
    ensures forall fp :: fp in FirstSeen(findings) <==> WithFp(findings, fp) != []
  {
    if findings != [] {
      var init, last := findings[..|findings| - 1], findings[|findings| - 1];
      FirstSeenKeys(init);
      assert findings == init + [last];
      forall fp ensures fp in FirstSeen(findings) <==> exists f :: f in findings && f.fingerprint == fp {
        if fp in FirstSeen(init) {
          var f :| f in init && f.fingerprint == fp;
          assert f in findings;
        } else if fp == last.fingerprint {
          assert last in findings;
        }
      }
    }
  }

  function MergeAll(findings: seq<Finding>, keys: seq<string>): (r: seq<Finding>)
    requires forall fp :: fp in keys ==> WithFp(findings, fp) != []
    ensures |r| == |keys|
  {
    if keys == [] then []
    else MergeAll(findings, keys[..|keys| - 1]) + [Merge(WithFp(findings, keys[|keys| - 1]))]
  }

  lemma {:induction false} MergeAllElement(findings: seq<Finding>, keys: seq<string>, i: nat)
    requires forall fp :: fp in keys ==> WithFp(findings, fp) != []
    requires i < |keys|
    ensures MergeAll(findings, keys)[i] == Merge(WithFp(findings, keys[i]))
  {
    if i < |keys| - 1 {
      MergeAllElement(findings, keys[..|keys| - 1], i);
    }
  }

  /** The merge of a fingerprint group carries that fingerprint. */
  lemma {:induction false} MergeFingerprint(findings: seq<Finding>, fp: string)
    requires WithFp(findings, fp) != []
    ensures Merge(WithFp(findings, fp)).fingerprint == fp
  {
    var group := WithFp(findings, fp);
    WithFpMembers(findings, fp);
    SortMultiset(group, RankLeq);
    SortMembers(group, RankLeq);
    assert StableSort(group, RankLeq)[0] in StableSort(group, RankLeq);
  }

  // ----- Sorting by place, and runs of neighbours -----

  function FamilyText(cwe: Option<Cwe>): string {
    match Family(cwe)
    case None => ""
    case Some(Named(text)) => text
    case Some(Numbered(n)) => "CWE-" + Decimal(n)
  }

  predicate PlaceLeq(f: Finding, g: Finding) {
    if f.file != g.file then TextLeq(f.file, g.file)
    else if FamilyText(f.cwe) != FamilyText(g.cwe) then TextLeq(FamilyText(f.cwe), FamilyText(g.cwe))
    else f.line <= g.line
  }

  /** The order of the result: most severe first, then by file and line. */
  predicate SeverityLeq(f: Finding, g: Finding) {
    if f.severity != g.severity then SeverityIndex(f.severity) > SeverityIndex(g.severity)
    else if f.file != g.file then TextLeq(f.file, g.file)
    else f.line <= g.line
  }

  lemma {:induction false} TextOrder(a: string, b: string, c: string)
    ensures TextLeq(a, b) || TextLeq(b, a)
    ensures TextLeq(a, b) && TextLeq(b, a) ==> a == b
    ensures TextLeq(a, b) && TextLeq(b, c) ==> TextLeq(a, c)
  {
    TextTotal(a, b);
    if TextLeq(a, b) && TextLeq(b, c) {
      TextTransitive(a, b, c);
    }
  }

  lemma {:induction false} SeverityIsPreorder()
    ensures TotalPreorder(SeverityLeq)
  {
    forall f, g ensures SeverityLeq(f, g) || SeverityLeq(g, f) {
      TextOrder(f.file, g.file, g.file);
    }
    forall f, g, h | SeverityLeq(f, g) && SeverityLeq(g, h) ensures SeverityLeq(f, h) {
      TextOrder(f.file, g.file, h.file);
      TextOrder(h.file, g.file, f.file);
    }
  }

  predicate SameIssue(last: Finding, f: Finding) {
    && Present(f.cwe) && last.file == f.file && Family(last.cwe) == Family(f.cwe)
    && Family(f.cwe) != SECRETS
    && IsCodeAnalyzer(f.scanner) && IsCodeAnalyzer(last.scanner)
    && f.line - EndOf(last) <= LINE_WINDOW
  }

  function Finish(run: seq<Finding>): Finding
    requires run != []
  {
    if |run| > 1 then Merge(run) else run[0]
  }

  function FinishAll(runs: seq<seq<Finding>>): (r: seq<Finding>)
    requires forall k :: 0 <= k < |runs| ==> runs[k] != []
    ensures |r| == |runs| && forall k :: 0 <= k < |r| ==> r[k] == Finish(runs[k])
  {
    if runs == [] then []
    else FinishAll(runs[..|runs| - 1]) + [Finish(runs[|runs| - 1])]
  }

  function ByPlace(findings: seq<Finding>): seq<Finding> {
    FirstSeenKeys(findings);
    StableSort(MergeAll(findings, FirstSeen(findings)), PlaceLeq)
  }

  function ProximityRuns(findings: seq<Finding>): (runs: seq<seq<Finding>>)
    ensures MaximalRuns(runs, ByPlace(findings), SameIssue)
  {
    RunsAreMaximal(ByPlace(findings), SameIssue);
    RunsOf(ByPlace(findings), SameIssue)
  }

  function Correlated(findings: seq<Finding>): seq<Finding> {
    StableSort(FinishAll(ProximityRuns(findings)), SeverityLeq)
  }

  method Correlate(findings: seq<Finding>) returns (result: seq<Finding>)
    ensures result == Correlated(findings)
  {
    var byFp: map<string, seq<Finding>> := map[];
    var keys: seq<string> := [];
    for i := 0 to |findings|
      invariant keys == FirstSeen(findings[..i])
      invariant forall fp :: fp in byFp <==> fp in keys
      invariant forall fp :: fp in byFp ==> byFp[fp] == WithFp(findings[..i], fp)
    {
      var f := findings[i];
      assert findings[..i + 1][..i] == findings[..i];
      FirstSeenKeys(findings[..i]);
      if f.fingerprint in byFp {
        byFp := byFp[f.fingerprint := byFp[f.fingerprint] + [f]];
      } else {
        keys, byFp := keys + [f.fingerprint], byFp[f.fingerprint := [f]];
      }
    }
    assert findings[..|findings|] == findings;
    FirstSeenKeys(findings);
    var merged := MergeGroups(findings, keys, byFp);
    merged := StableSort(merged, PlaceLeq);
    var out := Group(merged);
    RunsAreMaximal(merged, SameIssue);
    result := StableSort(FinishAll(out), SeverityLeq);
  }

  method MergeGroups(ghost findings: seq<Finding>, keys: seq<string>, byFp: map<string, seq<Finding>>)
    returns (merged: seq<Finding>)
    requires forall fp :: fp in keys ==> fp in byFp && byFp[fp] == WithFp(findings, fp) != []
    ensures merged == MergeAll(findings, keys)
  {
    merged := [];
    for i := 0 to |keys|
      invariant merged == MergeAll(findings, keys[..i])
    {
      assert keys[..i + 1][..i] == keys[..i];
      merged := merged + [Merge(byFp[keys[i]])];
    }
    assert keys[..|keys|] == keys;
  }

  /** The second pass: neighbours in place order join the current run or start a new one. */
  method Group(merged: seq<Finding>) returns (out: seq<seq<Finding>>)
    ensures out == RunsOf(merged, SameIssue)
  {
    out := [];
    for i := 0 to |merged|
      invariant out == RunsOf(merged[..i], SameIssue)
    {
      var f := merged[i];
      assert merged[..i + 1][..i] == merged[..i];
      if out != [] && SameIssue(Last(Last(out)), f) {
        out := out[|out| - 1 := Last(out) + [f]];
        assert out == RunsOf(merged[..i + 1], SameIssue);
      } else {
        out := out + [[f]];
      }
    }
    assert merged[..|merged|] == merged;
  }

  // ----- Every input belongs to exactly one output -----

  /** The input findings behind a list of merged findings. */
  function Members(findings: seq<Finding>, merged: seq<Finding>): seq<Finding> {
    if merged == [] then []
    else Members(findings, merged[..|merged| - 1]) + WithFp(findings, merged[|merged| - 1].fingerprint)
  }

  lemma {:induction false} MembersOf(findings: seq<Finding>, merged: seq<Finding>)
    ensures forall f :: f in Members(findings, merged) <==>
              f in findings && exists m :: m in merged && m.fingerprint == f.fingerprint
  {
    if merged != [] {
      var init, last := merged[..|merged| - 1], merged[|merged| - 1];
      MembersOf(findings, init);
      WithFpMembers(findings, last.fingerprint);
      assert merged == init + [last];
      assert last in merged && forall m :: m in init ==> m in merged;
    }
  }

  lemma {:induction false} MembersAreGroups(findings: seq<Finding>, merged: seq<Finding>)
    ensures Members(findings, merged) == Groups(findings, Fp, Fingerprints(merged))
  {
    if merged != [] {
      MembersAreGroups(findings, merged[..|merged| - 1]);
      assert Fingerprints(merged)[..|merged| - 1] == Fingerprints(merged[..|merged| - 1]);
    }
  }

  lemma {:induction false} MembersCover(findings: seq<Finding>, merged: seq<Finding>)
    requires DistinctBy(merged, Fp) && forall f :: f in findings ==> f.fingerprint in FpSet(merged)
    ensures multiset(Members(findings, merged)) == multiset(findings)
  {
    MembersAreGroups(findings, merged);
    var keys := Fingerprints(merged);
    forall i, j | 0 <= i < j < |keys| ensures keys[i] != keys[j] {
      assert Fp(merged[i]) != Fp(merged[j]);
    }
    forall f | f in findings ensures Fp(f) in keys {
      var m :| m in merged && m.fingerprint == f.fingerprint;
      var i :| 0 <= i < |merged| && merged[i] == m;
      assert keys[i] == f.fingerprint;
    }
    GroupsCover(findings, Fp, keys);
  }

  /** One merged finding per fingerprint, each summing up its fingerprint group. */
  lemma {:induction false} MergedElements(findings: seq<Finding>, keys: seq<string>, merged: seq<Finding>)
    requires forall f :: f in findings ==> WellFormed(f)
    requires keys == FirstSeen(findings)
    requires forall fp :: fp in keys ==> WithFp(findings, fp) != []
    requires merged == MergeAll(findings, keys)
    ensures DistinctBy(merged, Fp)
    ensures forall m :: m in merged ==> Summary(m, WithFp(findings, m.fingerprint))
    ensures forall f :: f in findings ==> f.fingerprint in FpSet(merged)
  {
    FirstSeenKeys(findings);
    forall i | 0 <= i < |keys|
      ensures merged[i].fingerprint == keys[i] && Summary(merged[i], WithFp(findings, keys[i]))
    {
      MergeAllElement(findings, keys, i);
      MergeFingerprint(findings, keys[i]);
      WithFpMembers(findings, keys[i]);
      MergeSummarizes(WithFp(findings, keys[i]));
    }
    forall f | f in findings ensures f.fingerprint in FpSet(merged) {
      assert f.fingerprint in keys;
      var i :| 0 <= i < |keys| && keys[i] == f.fingerprint;
      assert merged[i] in merged;
    }
  }

  lemma {:induction false} ByPlaceElements(findings: seq<Finding>)
    requires forall f :: f in findings ==> WellFormed(f)
    ensures DistinctBy(ByPlace(findings), Fp)
    ensures forall m :: m in ByPlace(findings) ==> Summary(m, WithFp(findings, m.fingerprint))
    ensures forall f :: f in findings ==> f.fingerprint in FpSet(ByPlace(findings))
  {
    FirstSeenKeys(findings);
    var keys := FirstSeen(findings);
    var merged := MergeAll(findings, keys);
    MergedElements(findings, keys, merged);
    SortDistinct(merged, PlaceLeq, Fp);
    SortMembers(merged, PlaceLeq);
    assert FpSet(merged) == FpSet(ByPlace(findings));
  }

  /** A measure that every merged finding takes from its group has the same peak over the run and over the
      inputs behind it; rules and evidence likewise. */
  lemma {:induction false} PeakOfMembers(findings: seq<Finding>, run: seq<Finding>, measure: Finding -> int)
    requires run != []
    requires forall x :: x in run ==>
               WithFp(findings, x.fingerprint) != [] && measure(x) == Peak(WithFp(findings, x.fingerprint), measure)
    ensures Members(findings, run) != [] && Peak(Members(findings, run), measure) == Peak(run, measure)
  {
    var init, last := run[..|run| - 1], run[|run| - 1];
    assert last in run && forall x :: x in init ==> x in run;
    if init == [] {
      assert Members(findings, run) == WithFp(findings, last.fingerprint);
    } else {
      PeakOfMembers(findings, init, measure);
      ConcatSummary(Members(findings, init), WithFp(findings, last.fingerprint), measure);
    }
  }

  lemma {:induction false} RulesOfMembers(findings: seq<Finding>, run: seq<Finding>)
    requires forall x :: x in run ==>
               && WithFp(findings, x.fingerprint) != []
               && RulesOf(x) == AllRules(WithFp(findings, x.fingerprint))
               && x.evidence in AllEvidence(WithFp(findings, x.fingerprint))
    ensures AllRules(Members(findings, run)) == AllRules(run)
    ensures AllEvidence(run) <= AllEvidence(Members(findings, run))
  {
    if run != [] {
      var init, last := run[..|run| - 1], run[|run| - 1];
      assert last in run && forall x :: x in init ==> x in run;
      RulesOfMembers(findings, init);
      if Members(findings, init) == [] {
        assert Members(findings, run) == WithFp(findings, last.fingerprint);
      } else {
        ConcatSummary(Members(findings, init), WithFp(findings, last.fingerprint), EndOf);
      }
    }
  }

  /** Summaries compose: a summary of summaries sums up everything behind them. */
  lemma {:induction false} SummaryComposes(findings: seq<Finding>, m: Finding, run: seq<Finding>)
    requires Summary(m, run)
    requires forall x :: x in run ==> Summary(x, WithFp(findings, x.fingerprint))
    ensures Summary(m, Members(findings, run))
  {
    PeakOfMembers(findings, run, SeverityOf);
    PeakOfMembers(findings, run, EvidenceLength);
    PeakOfMembers(findings, run, EndOf);
    RulesOfMembers(findings, run);
    var x :| x in run && x.fingerprint == m.fingerprint;
    MembersOf(findings, run);
    WithFpMembers(findings, x.fingerprint);
    assert x.fingerprint in FpSet(WithFp(findings, x.fingerprint));
  }

  lemma {:induction false} FinishSummarizes(findings: seq<Finding>, run: seq<Finding>)
    requires run != []
    requires forall x :: x in run ==> Summary(x, WithFp(findings, x.fingerprint))
    ensures Summary(Finish(run), Members(findings, run))
  {
    if |run| > 1 {
      MergeSummarizes(run);
      SummaryComposes(findings, Finish(run), run);
    } else {
      LoneMembers(findings, run);
      assert run[0] in run && Finish(run) == run[0];
    }
  }

  lemma {:induction false} LoneMembers(findings: seq<Finding>, run: seq<Finding>)
    requires |run| == 1
    ensures Members(findings, run) == WithFp(findings, run[0].fingerprint)
  {
    assert Members(findings, run[..0]) == [];
  }

  lemma {:induction false} FlattenIndex<T>(runs: seq<seq<T>>, k: nat, x: T)
    requires k < |runs| && x in runs[k]
    ensures x in Flatten(runs)
  {
    if k > 0 {
      FlattenIndex(runs[1..], k - 1, x);
    }
  }

  lemma {:induction false} RunsDistinct<T, K>(runs: seq<seq<T>>, key: T -> K, k: nat, l: nat, x: T, y: T)
    requires DistinctBy(Flatten(runs), key)
    requires k < l < |runs| && x in runs[k] && y in runs[l]
    ensures key(x) != key(y)
  {
    var s, n := Flatten(runs), |runs[0]|;
    assert s[n..] == Flatten(runs[1..]);
    forall i, j | 0 <= i < j < |s[n..]| ensures key(s[n..][i]) != key(s[n..][j]) {
      assert s[n..][i] == s[n + i] && s[n..][j] == s[n + j];
    }
    if k > 0 {
      RunsDistinct(runs[1..], key, k - 1, l - 1, x, y);
    } else {
      FlattenIndex(runs[1..], l - 1, y);
      var i :| 0 <= i < n && runs[0][i] == x;
      var j :| 0 <= j < |s[n..]| && s[n..][j] == y;
      assert s[i] == x && s[n + j] == y;
    }
  }

  /** The inputs are partitioned into the runs: counted with multiplicity nothing is lost or duplicated, no
      fingerprint occurs in two runs, and each run becomes one output that sums up all of its inputs. */
  lemma {:induction false} CorrelatePartitions(findings: seq<Finding>)
    requires forall f :: f in findings ==> WellFormed(f)
    ensures var runs := ProximityRuns(findings);
            && multiset(Members(findings, Flatten(runs))) == multiset(findings)
            && multiset(Correlated(findings)) == multiset(FinishAll(runs))
            && (forall k :: 0 <= k < |runs| ==> Summary(Finish(runs[k]), Members(findings, runs[k])))
            && (forall k, l :: 0 <= k < l < |runs| ==>
                  FpSet(Members(findings, runs[k])) !! FpSet(Members(findings, runs[l])))
  {
    var runs := ProximityRuns(findings);
    ByPlaceElements(findings);
    MembersCover(findings, ByPlace(findings));
    SortMultiset(FinishAll(runs), SeverityLeq);
    forall k | 0 <= k < |runs| ensures Summary(Finish(runs[k]), Members(findings, runs[k])) {
      forall x | x in runs[k] ensures x in ByPlace(findings) {
        FlattenIndex(runs, k, x);
      }
      FinishSummarizes(findings, runs[k]);
    }
    forall k, l | 0 <= k < l < |runs|
      ensures FpSet(Members(findings, runs[k])) !! FpSet(Members(findings, runs[l]))
    {
      MembersOf(findings, runs[k]);
      MembersOf(findings, runs[l]);
      forall fp | fp in FpSet(Members(findings, runs[k])) && fp in FpSet(Members(findings, runs[l])) ensures false {
        var x: Finding :| x in runs[k] && x.fingerprint == fp;
        var y: Finding :| y in runs[l] && y.fingerprint == fp;
        RunsDistinct(runs, Fp, k, l, x, y);
      }
    }
  }

  lemma {:induction false} OutputsDistinct(findings: seq<Finding>)
    requires forall f :: f in findings ==> WellFormed(f)
    ensures DistinctBy(FinishAll(ProximityRuns(findings)), Fp)
  {
    var runs := ProximityRuns(findings);
    CorrelatePartitions(findings);
    var out := FinishAll(runs);
    forall k, l | 0 <= k < l < |out| ensures Fp(out[k]) != Fp(out[l]) {
      var f :| f in Members(findings, runs[k]) && f.fingerprint == Finish(runs[k]).fingerprint;
      var g :| g in Members(findings, runs[l]) && g.fingerprint == Finish(runs[l]).fingerprint;
    }
  }

  lemma {:induction false} DistinctPrints(findings: seq<Finding>)
    requires DistinctBy(findings, Fp)
    ensures Distinct(Fingerprints(findings))
  {
    forall i, j | 0 <= i < j < |findings| ensures Fingerprints(findings)[i] != Fingerprints(findings)[j] {
      assert Fp(findings[i]) != Fp(findings[j]);
    }
  }

  /** Output fingerprints are pairwise distinct, whatever the input; this is what the remediation run needs. */
  lemma {:induction false} CorrelateDistinct(findings: seq<Finding>)
    requires forall f :: f in findings ==> WellFormed(f)
    ensures DistinctBy(Correlated(findings), Fp) && Distinct(Fingerprints(Correlated(findings)))
  {
    OutputsDistinct(findings);
    SortDistinct(FinishAll(ProximityRuns(findings)), SeverityLeq, Fp);
    DistinctPrints(Correlated(findings));
  }

  /** The result is ordered by severity, then file, then line. */
  lemma {:induction false} CorrelateSorts(findings: seq<Finding>, i: nat, j: nat)
    requires i < j < |Correlated(findings)|
    ensures var f, g := Correlated(findings)[i], Correlated(findings)[j];
            && SeverityIndex(f.severity) >= SeverityIndex(g.severity)
            && (f.severity == g.severity ==> TextLeq(f.file, g.file))
            && (f.severity == g.severity && f.file == g.file ==> f.line <= g.line)
  {
    SeverityIsPreorder();
    SortSorts(FinishAll(ProximityRuns(findings)), SeverityLeq);
    var f, g := Correlated(findings)[i], Correlated(findings)[j];
    assert SeverityLeq(f, g);
    TextOrder(f.file, g.file, g.file);
  }

  lemma {:induction false} SameRules(a: seq<Finding>, b: seq<Finding>)
    requires multiset(a) == multiset(b)
    ensures AllRules(a) == AllRules(b)
  {
    AllRulesMembers(a);
    AllRulesMembers(b);
    forall f ensures f in a <==> f in b {
      assert f in multiset(a) <==> f in multiset(b);
    }
  }

  lemma {:induction false} AllRulesIsUnion(group: seq<Finding>)
    ensures AllRules(group) == UnionOf(group, RulesOf)
  {
    if group != [] {
      AllRulesIsUnion(group[..|group| - 1]);
    }
  }

  lemma {:induction false} OutputsKeepRules(outs: seq<Finding>, runs: seq<seq<Finding>>)
    requires |outs| == |runs|
    requires forall k :: 0 <= k < |runs| ==> RulesOf(outs[k]) == AllRules(runs[k])
    ensures AllRules(outs) == AllRules(Flatten(runs))
  {
    forall k | 0 <= k < |runs| ensures RulesOf(outs[k]) == UnionOf(runs[k], RulesOf) {
      AllRulesIsUnion(runs[k]);
    }
    AllRulesIsUnion(outs);
    AllRulesIsUnion(Flatten(runs));
    UnionFlatten(outs, runs, RulesOf);
  }

  /** The rules known to the output are exactly the rules of the input. */
  lemma {:induction false} CorrelateConservesRules(findings: seq<Finding>)
    requires forall f :: f in findings ==> WellFormed(f)
    ensures AllRules(Correlated(findings)) == AllRules(findings)
  {
    var runs := ProximityRuns(findings);
    CorrelatePartitions(findings);
    ByPlaceElements(findings);
    forall k | 0 <= k < |runs| ensures RulesOf(Finish(runs[k])) == AllRules(runs[k]) {
      forall x | x in runs[k] ensures x in ByPlace(findings) {
        FlattenIndex(runs, k, x);
      }
      RulesOfMembers(findings, runs[k]);
    }
    OutputsKeepRules(FinishAll(runs), runs);
    RulesOfMembers(findings, ByPlace(findings));
    SameRules(Members(findings, Flatten(runs)), findings);
    SameRules(Correlated(findings), FinishAll(runs));
  }

  /** A run with several members has one file, one CWE family that is not the one of secrets, and findings of
      code analyzers only: secrets and other scanners' findings are never merged by proximity. */
  lemma {:induction false} RunsAreHomogeneous(findings: seq<Finding>, k: nat, i: nat)
    requires k < |ProximityRuns(findings)| && 1 < |ProximityRuns(findings)[k]| && i < |ProximityRuns(findings)[k]|
    ensures var run := ProximityRuns(findings)[k];
            && run[i].file == run[0].file && Family(run[i].cwe) == Family(run[0].cwe)
            && Family(run[i].cwe) != SECRETS && Family(run[i].cwe) != None
            && IsCodeAnalyzer(run[i].scanner)
            && (i > 0 ==> run[i].line - EndOf(run[i - 1]) <= LINE_WINDOW)
  {
    var run := ProximityRuns(findings)[k];
    assert SameIssue(run[0], run[0 + 1]);
    if i > 0 {
      RunsAreHomogeneous(findings, k, i - 1);
      assert SameIssue(run[i - 1], run[i - 1 + 1]);
    }
  }

  // ----- What a merge forgets -----

  function ScannersOf(f: Finding): set<string> {
    {f.scanner} + set s | s in f.alsoDetectedBy
  }

  /** A merge names every scanner behind its group exactly when no member brings a scanner, found in an earlier
      merge, that is not the scanner of some member. */
  lemma {:induction false} MergeKeepsScanners(group: seq<Finding>)
    requires group != []
    ensures (forall f :: f in group ==> ScannersOf(f) <= ScannersOf(Merge(group))) <==>
            (forall f, s :: f in group && s in f.alsoDetectedBy ==> exists g :: g in group && g.scanner == s)
  {
    var sorted := StableSort(group, RankLeq);
    SortMultiset(group, RankLeq);
    SortMembers(group, RankLeq);
    ScannersMembers(sorted);
    SortedSetMembers(Scanners(sorted));
    assert sorted[0] in sorted;
    assert forall s :: s in ScannersOf(Merge(group)) <==> s in Scanners(sorted);
    assert forall s :: s in Scanners(sorted) <==> exists g :: g in group && g.scanner == s by {
      forall s ensures s in Scanners(sorted) <==> exists g :: g in group && g.scanner == s {
        if g :| g in group && g.scanner == s {
          assert g in sorted;
        }
      }
    }
    if forall f, s :: f in group && s in f.alsoDetectedBy ==> exists g :: g in group && g.scanner == s {
      forall f | f in group ensures ScannersOf(f) <= ScannersOf(Merge(group)) {
        forall s | s in ScannersOf(f) ensures s in ScannersOf(Merge(group)) {
          assert s == f.scanner || s in f.alsoDetectedBy;
        }
      }
    }
    if forall f :: f in group ==> ScannersOf(f) <= ScannersOf(Merge(group)) {
      forall f, s | f in group && s in f.alsoDetectedBy ensures exists g :: g in group && g.scanner == s {
        assert s in ScannersOf(f);
      }
    }
  }

  /** A merge names exactly the scanners of its members. */
  lemma {:induction false} MergeNames(group: seq<Finding>, s: string)
    requires group != []
    ensures s in ScannersOf(Merge(group)) <==> exists f :: f in group && f.scanner == s
  {
    MergeListsScanners(group, s);
    MergeKeepsBestRanked(group);
  }

  lemma {:induction false} ByPlaceIsMerge(findings: seq<Finding>, x: Finding)
    requires x in ByPlace(findings)
    ensures WithFp(findings, x.fingerprint) != [] && x == Merge(WithFp(findings, x.fingerprint))
  {
    FirstSeenKeys(findings);
    var keys := FirstSeen(findings);
    var merged := MergeAll(findings, keys);
    SortMembers(merged, PlaceLeq);
    var i :| 0 <= i < |merged| && merged[i] == x;
    MergeAllElement(findings, keys, i);
    MergeFingerprint(findings, keys[i]);
  }

  /** The finding's scanner is the richest of its fingerprint group. */
  predicate Leads(findings: seq<Finding>, g: Finding) {
    forall h :: h in WithFp(findings, g.fingerprint) ==> ScannerRank(g.scanner) <= ScannerRank(h.scanner)
  }

  /** The merge of a fingerprint group has the scanner of a leading member, and of a code analyzer only that one. */
  lemma {:induction false} LeadersSpeak(findings: seq<Finding>, x: Finding)
    requires WithFp(findings, x.fingerprint) != [] && x == Merge(WithFp(findings, x.fingerprint))
    ensures exists g :: g in WithFp(findings, x.fingerprint) && g.scanner == x.scanner && Leads(findings, g)
    ensures forall g :: g in WithFp(findings, x.fingerprint) && Leads(findings, g) && IsCodeAnalyzer(x.scanner) ==>
              g.scanner == x.scanner
  {
    var group := WithFp(findings, x.fingerprint);
    MergeKeepsBestRanked(group);
    WithFpMembers(findings, x.fingerprint);
    var p :| p in group && SameIdentity(x, p) &&
             forall f :: f in group ==> ScannerRank(p.scanner) < ScannerRank(f.scanner)
                                        || (ScannerRank(p.scanner) == ScannerRank(f.scanner) &&
                                            SeverityIndex(p.severity) >= SeverityIndex(f.severity));
    assert Leads(findings, p);
    forall g | g in group && Leads(findings, g) && IsCodeAnalyzer(x.scanner) ensures g.scanner == x.scanner {
      assert ScannerRank(g.scanner) <= ScannerRank(p.scanner);
    }
  }

  lemma {:induction false} RunNames(findings: seq<Finding>, k: nat, s: string)
    requires k < |ProximityRuns(findings)| && 1 < |ProximityRuns(findings)[k]|
    ensures var run := ProximityRuns(findings)[k];
            (exists x :: x in run && x.scanner == s) <==>
            exists g :: g in Members(findings, run) && g.scanner == s && Leads(findings, g)
  {
    var run := ProximityRuns(findings)[k];
    MembersOf(findings, run);
    forall x | x in run
      ensures WithFp(findings, x.fingerprint) != [] && x == Merge(WithFp(findings, x.fingerprint))
      ensures IsCodeAnalyzer(x.scanner)
    {
      FlattenIndex(ProximityRuns(findings), k, x);
      ByPlaceIsMerge(findings, x);
      var i :| 0 <= i < |run| && run[i] == x;
      RunsAreHomogeneous(findings, k, i);
    }
    if x :| x in run && x.scanner == s {
      LeadersSpeak(findings, x);
      WithFpMembers(findings, x.fingerprint);
      var g :| g in WithFp(findings, x.fingerprint) && g.scanner == x.scanner && Leads(findings, g);
      assert g in Members(findings, run);
    }
    if g :| g in Members(findings, run) && g.scanner == s && Leads(findings, g) {
      var x :| x in run && x.fingerprint == g.fingerprint;
      WithFpMembers(findings, x.fingerprint);
      LeadersSpeak(findings, x);
      assert x.scanner == s;
    }
  }

  /** Which scanners an output names: those of the inputs behind it if they share one fingerprint, and otherwise only
      those that lead their fingerprint group. */
  lemma {:induction false} CorrelateNames(findings: seq<Finding>, k: nat, s: string)
    requires k < |ProximityRuns(findings)|
    ensures var run := ProximityRuns(findings)[k];
            s in ScannersOf(Finish(run)) <==>
            exists g :: g in Members(findings, run) && g.scanner == s && (|run| == 1 || Leads(findings, g))
  {
    var run := ProximityRuns(findings)[k];
    if |run| == 1 {
      FlattenIndex(ProximityRuns(findings), k, run[0]);
      ByPlaceIsMerge(findings, run[0]);
      LoneMembers(findings, run);
      MergeNames(WithFp(findings, run[0].fingerprint), s);
    } else {
      MergeNames(run, s);
      RunNames(findings, k, s);
    }
  }

  /** An output names every scanner behind its inputs exactly when each of those scanners reported one of them itself
      and, if several fingerprints were merged, leads a fingerprint group. */
  lemma {:induction false} CorrelateKeepsScanners(findings: seq<Finding>, k: nat)
    requires k < |ProximityRuns(findings)|
    ensures var run, members := ProximityRuns(findings)[k], Members(findings, ProximityRuns(findings)[k]);
            (forall f :: f in members ==> ScannersOf(f) <= ScannersOf(Finish(run))) <==>
            (forall f, s :: f in members && s in ScannersOf(f) ==>
               exists g :: g in members && g.scanner == s && (|run| == 1 || Leads(findings, g)))
  {
    var run := ProximityRuns(findings)[k];
    forall s ensures s in ScannersOf(Finish(run)) <==>
        exists g :: g in Members(findings, run) && g.scanner == s && (|run| == 1 || Leads(findings, g))
    {
      CorrelateNames(findings, k, s);
    }
  }

  lemma {:induction false} LoneMergeForgets(m: Finding)
    ensures Merge([m]).alsoDetectedBy == []
  {
    assert [m][1..] == [];
    assert StableSort([m][1..], RankLeq) == [];
    assert StableSort([m], RankLeq) == [m];
    var s := m.scanner;
    assert [s][1..] == [];
    assert Scanners([m][1..]) == [];
    assert Scanners([m]) == [s] + [] == [s];
    assert SortedSet([s][1..]) == [];
    assert SortedSet([s]) == [s];
    assert Without([s][1..], s) == [];
    assert Without([s], s) == [] + [] == [];
  }

  /** Among findings with distinct fingerprints every group is a finding alone. */
  lemma {:induction false} LoneGroupForgets(findings: seq<Finding>, x: Finding)
    requires DistinctBy(findings, Fp) && x in ByPlace(findings)
    ensures x.alsoDetectedBy == []
  {
    FirstSeenKeys(findings);
    var keys := FirstSeen(findings);
    var merged := MergeAll(findings, keys);
    SortMembers(merged, PlaceLeq);
    var i :| 0 <= i < |merged| && merged[i] == x;
    MergeAllElement(findings, keys, i);
    var group := WithFp(findings, keys[i]);
    LoneGroup(findings, Fp, keys[i]);
    assert group != [] && group == [group[0]];
    LoneMergeForgets(group[0]);
  }

  /** Correlating again, as the workflow does after discovery, forgets the other scanners: every finding of the first
      result that the second merges with nothing leaves without them. */
  lemma {:induction false} RecorrelationForgetsScanners(raw: seq<Finding>, k: nat)
    requires forall f :: f in raw ==> WellFormed(f)
    requires k < |ProximityRuns(Correlated(raw))| && |ProximityRuns(Correlated(raw))[k]| == 1
    ensures var out := Finish(ProximityRuns(Correlated(raw))[k]);
            out.alsoDetectedBy == [] && out in Correlated(Correlated(raw))
  {
    var first := Correlated(raw);
    var runs := ProximityRuns(first);
    CorrelateDistinct(raw);
    FlattenIndex(runs, k, runs[k][0]);
    LoneGroupForgets(first, runs[k][0]);
    assert FinishAll(runs)[k] in FinishAll(runs);
    SortMembers(FinishAll(runs), SeverityLeq);
  }
}
