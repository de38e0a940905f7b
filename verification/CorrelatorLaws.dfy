/** What the correlator does with findings, without the functions that do it (backend/services/correlator.py): which
    member a merge speaks for, what it lists, and which neighbours are joined. */
module CorrelatorLaws {
  import opened Prelude
  import opened Text
  import opened Cwe
  import opened Findings
  import opened Sorting
  import opened Correlator

  // ----- Ranks -----

  /** The severities in order, and the scanners from the richest data flow on. */
  const SEVERITIES: seq<Severity> := [Info, Low, Medium, High, Critical]
  const RANKING := ["codeql", "semgrep", "trivy", "gitleaks"]

  /** The scanner is listed, and the other one neither before it nor in its place. */
  predicate Ahead(scanner: string, other: string) {
    exists i :: 0 <= i < |RANKING| && RANKING[i] == scanner && forall j :: 0 <= j <= i ==> RANKING[j] != other
  }

  /** `p` is at least as good a witness as `f`: no scanner is ahead of its own, and with equal scanners it is not less
      severe. */
  predicate Preferred(p: Finding, f: Finding) {
    && !Ahead(f.scanner, p.scanner)
    && (Ahead(p.scanner, f.scanner) ||
        exists i, j :: 0 <= i <= j < |SEVERITIES| && SEVERITIES[i] == f.severity && SEVERITIES[j] == p.severity)
  }

  lemma {:induction false} SeverityIsPlace(s: Severity)
    ensures SeverityIndex(s) < |SEVERITIES| && SEVERITIES[SeverityIndex(s)] == s
    ensures forall i :: 0 <= i < |SEVERITIES| && SEVERITIES[i] == s ==> i == SeverityIndex(s)
  {
  }

  lemma {:induction false} RankIsPlace(scanner: string)
    ensures ScannerRank(scanner) <= |RANKING|
    ensures ScannerRank(scanner) < |RANKING| ==> RANKING[ScannerRank(scanner)] == scanner
    ensures forall i :: 0 <= i < |RANKING| && RANKING[i] == scanner ==> i == ScannerRank(scanner)
  {
    assert RANKING[0] == "codeql" && RANKING[1] == "semgrep" && RANKING[2] == "trivy" && RANKING[3] == "gitleaks";
  }

  lemma {:induction false} RankIsAhead(scanner: string, other: string)
    ensures ScannerRank(scanner) < ScannerRank(other) <==> Ahead(scanner, other)
  {
    RankIsPlace(scanner);
    RankIsPlace(other);
  }

  lemma {:induction false} RankIsPreferred(p: Finding, f: Finding)
    ensures RankLeq(p, f) <==> Preferred(p, f)
  {
    RankIsAhead(p.scanner, f.scanner);
    RankIsAhead(f.scanner, p.scanner);
    SeverityIsPlace(p.severity);
    SeverityIsPlace(f.severity);
  }

  // ----- What a merge is -----

  /** A merge has the identity of a member that is preferred to all. */
  lemma {:induction false} MergeTakesPreferred(group: seq<Finding>)
    requires group != []
    ensures exists p :: p in group && SameIdentity(Merge(group), p) && forall f :: f in group ==> Preferred(p, f)
  {
    var sorted := StableSort(group, RankLeq);
    SortMultiset(group, RankLeq);
    SortMembers(group, RankLeq);
    assert sorted[0] in sorted;
    forall f | f in group ensures Preferred(sorted[0], f) {
      PrimaryIsBest(group, f);
      RankIsPreferred(sorted[0], f);
    }
  }

  /** `has` holds of a member that is preferred to all others it holds of. */
  ghost predicate BestWith(group: seq<Finding>, has: Finding -> bool, f: Finding) {
    f in group && has(f) && forall g :: g in group && has(g) ==> Preferred(f, g)
  }

  lemma {:induction false} FirstIsBest(group: seq<Finding>, sorted: seq<Finding>, has: Finding -> bool, i: nat)
    requires sorted == StableSort(group, RankLeq) && i < |sorted|
    requires has(sorted[i]) && forall j :: 0 <= j < i ==> !has(sorted[j])
    ensures BestWith(group, has, sorted[i])
  {
    SortMembers(group, RankLeq);
    RankIsPreorder();
    SortSorts(group, RankLeq);
    assert sorted[i] in sorted;
    forall g | g in group && has(g) ensures Preferred(sorted[i], g) {
      assert g in sorted;
      var k :| 0 <= k < |sorted| && sorted[k] == g;
      assert k == i || RankLeq(sorted[i], sorted[k]);
      RankIsPreferred(sorted[i], g);
    }
  }

  lemma {:induction false} FirstCweAt(s: seq<Finding>)
    ensures FirstCwe(s).None? ==> forall i :: 0 <= i < |s| ==> !Present(s[i].cwe)
    ensures FirstCwe(s).Some? ==>
              exists i :: 0 <= i < |s| && Present(s[i].cwe) && s[i].cwe == FirstCwe(s) &&
                forall j :: 0 <= j < i ==> !Present(s[j].cwe)
  {
    if s != [] {
      FirstCweAt(s[1..]);
      if !Present(s[0].cwe) && FirstCwe(s).Some? {
        var i :| 0 <= i < |s[1..]| && Present(s[1..][i].cwe) && s[1..][i].cwe == FirstCwe(s) &&
                 forall j :: 0 <= j < i ==> !Present(s[1..][j].cwe);
        assert s[i + 1] == s[1..][i];
      }
    }
  }

  lemma {:induction false} FirstOwaspAt(s: seq<Finding>)
    ensures FirstOwasp(s).None? ==> forall i :: 0 <= i < |s| ==> !Truthy(s[i].owasp)
    ensures FirstOwasp(s).Some? ==>
              exists i :: 0 <= i < |s| && Truthy(s[i].owasp) && s[i].owasp == FirstOwasp(s) &&
                forall j :: 0 <= j < i ==> !Truthy(s[j].owasp)
  {
    if s != [] {
      FirstOwaspAt(s[1..]);
      if !Truthy(s[0].owasp) && FirstOwasp(s).Some? {
        var i :| 0 <= i < |s[1..]| && Truthy(s[1..][i].owasp) && s[1..][i].owasp == FirstOwasp(s) &&
                 forall j :: 0 <= j < i ==> !Truthy(s[1..][j].owasp);
        assert s[i + 1] == s[1..][i];
      }
    }
  }

  /** The CWE of a merge is that of the preferred member among those that have one. */
  lemma {:induction false} MergeTakesCwe(group: seq<Finding>)
    requires group != []
    ensures Merge(group).cwe.None? ==> forall f :: f in group ==> Family(f.cwe).None?
    ensures Merge(group).cwe.Some? ==>
              exists f :: BestWith(group, (x: Finding) => Family(x.cwe).Some?, f) && f.cwe == Merge(group).cwe
  {
    var sorted := StableSort(group, RankLeq);
    SortMultiset(group, RankLeq);
    SortMembers(group, RankLeq);
    FirstCweAt(sorted);
    if FirstCwe(sorted).Some? {
      var i :| 0 <= i < |sorted| && Present(sorted[i].cwe) && sorted[i].cwe == FirstCwe(sorted) &&
               forall j :: 0 <= j < i ==> !Present(sorted[j].cwe);
      FirstIsBest(group, sorted, (x: Finding) => Family(x.cwe).Some?, i);
    }
  }

  /** The same for its OWASP category. */
  lemma {:induction false} MergeTakesOwasp(group: seq<Finding>)
    requires group != []
    ensures Merge(group).owasp.None? ==> forall f :: f in group ==> f.owasp == None || f.owasp == Some("")
    ensures Merge(group).owasp.Some? ==>
              exists f :: BestWith(group, (x: Finding) => Truthy(x.owasp), f) && f.owasp == Merge(group).owasp
  {
    var sorted := StableSort(group, RankLeq);
    SortMultiset(group, RankLeq);
    SortMembers(group, RankLeq);
    FirstOwaspAt(sorted);
    if FirstOwasp(sorted).Some? {
      var i :| 0 <= i < |sorted| && Truthy(sorted[i].owasp) && sorted[i].owasp == FirstOwasp(sorted) &&
               forall j :: 0 <= j < i ==> !Truthy(sorted[j].owasp);
      FirstIsBest(group, sorted, (x: Finding) => Truthy(x.owasp), i);
    }
  }

  /** In order, without repetition. */
  ghost predicate Ascending(s: seq<string>) {
    forall i, j :: 0 <= i < j < |s| ==> TextLeq(s[i], s[j]) && s[i] != s[j]
  }

  lemma {:induction false} ConsAscends(first: string, rest: seq<string>)
    requires Ascending(rest) && forall y :: y in rest ==> TextLeq(first, y) && first != y
    ensures Ascending([first] + rest)
  {
    var all := [first] + rest;
    forall i, j | 0 <= i < j < |all| ensures TextLeq(all[i], all[j]) && all[i] != all[j] {
      assert all[j] == rest[j - 1] && rest[j - 1] in rest;
    }
  }

  lemma {:induction false} TailAscends(s: seq<string>)
    requires Ascending(s) && s != []
    ensures Ascending(s[1..]) && forall y :: y in s[1..] ==> TextLeq(s[0], y) && s[0] != y
  {
    forall i, j | 0 <= i < j < |s[1..]| ensures TextLeq(s[1..][i], s[1..][j]) && s[1..][i] != s[1..][j] {
      assert s[1..][i] == s[i + 1] && s[1..][j] == s[j + 1];
    }
    forall y | y in s[1..] ensures TextLeq(s[0], y) && s[0] != y {
      var j :| 0 <= j < |s[1..]| && s[1..][j] == y;
      assert y == s[j + 1];
    }
  }

  lemma {:induction false} InsertAscends(x: string, s: seq<string>)
    requires Ascending(s)
    ensures Ascending(InsertText(x, s))
  {
    if s != [] && x != s[0] {
      TailAscends(s);
      TextOrder(x, s[0], s[0]);
      if TextLeq(x, s[0]) {
        forall y | y in s ensures TextLeq(x, y) && x != y {
          TextOrder(x, s[0], y);
          TextOrder(s[0], y, s[0]);
          assert y == s[0] || y in s[1..];
        }
        ConsAscends(x, s);
      } else {
        InsertAscends(x, s[1..]);
        InsertTextMembers(x, s[1..]);
        ConsAscends(s[0], InsertText(x, s[1..]));
      }
    }
  }

  lemma {:induction false} SortedSetAscends(s: seq<string>)
    ensures Ascending(SortedSet(s))
  {
    if s != [] {
      SortedSetAscends(s[1..]);
      InsertAscends(s[0], SortedSet(s[1..]));
    }
  }

  lemma {:induction false} WithoutAscends(s: seq<string>, x: string)
    requires Ascending(s)
    ensures Ascending(Without(s, x))
  {
    if s != [] {
      TailAscends(s);
      WithoutAscends(s[1..], x);
      ConsAscends(s[0], Without(s[1..], x));
      assert [] + Without(s[1..], x) == Without(s[1..], x);
    }
  }

  /** The two lists of a merge are in order and hold exactly the other scanners and the other rules of the group. */
  lemma {:induction false} MergeLists(group: seq<Finding>, name: string)
    requires group != []
    ensures var m := Merge(group);
            && Ascending(m.alsoDetectedBy) && Ascending(m.mergedRuleIds)
            && (name in m.alsoDetectedBy <==> name != m.scanner && exists f :: f in group && f.scanner == name)
            && (name in m.mergedRuleIds <==>
                name != m.ruleId && exists f :: f in group && (f.ruleId == name || name in f.mergedRuleIds))
  {
    var sorted := StableSort(group, RankLeq);
    SortMultiset(group, RankLeq);
    SortMembers(group, RankLeq);
    MergeListsScanners(group, name);
    SortedSetAscends(Scanners(sorted));
    SortedSetAscends(RuleIds(sorted));
    WithoutAscends(SortedSet(Scanners(sorted)), sorted[0].scanner);
    WithoutAscends(SortedSet(RuleIds(sorted)), sorted[0].ruleId);
    SortedSetMembers(RuleIds(sorted));
    RuleIdsAreAllRules(sorted);
    AllRulesMembers(sorted);
  }

  // ----- Which neighbours are joined -----

  /** `g` continues what `f` reports: the same family in the same file, not a secret, at most three lines below its end,
      and both from code analyzers. */
  predicate Continues(f: Finding, g: Finding) {
    && f.file == g.file && Family(f.cwe) == Family(g.cwe) && Family(g.cwe) != None
    && Family(g.cwe) != Some(Numbered(798))
    && f.scanner in {"semgrep", "codeql"} && g.scanner in {"semgrep", "codeql"}
    && g.line <= (if f.endLine in {None, Some(0)} then f.line else f.endLine.value) + 3
  }

  lemma {:induction false} ContinuesExactly(f: Finding, g: Finding)
    ensures SameIssue(f, g) <==> Continues(f, g)
  {
    assert Present(g.cwe) <==> Family(g.cwe) != None;
    assert f.endLine in {None, Some(0)} <==> f.endLine == None || f.endLine == Some(0);
    assert EndOf(f) == if f.endLine in {None, Some(0)} then f.line else f.endLine.value;
  }

  /** In the order of places exactly the findings that continue their neighbour are joined to it. */
  lemma {:induction false} JoinsExactly(findings: seq<Finding>)
    ensures MaximalRuns(ProximityRuns(findings), ByPlace(findings), Continues)
  {
    forall f, g ensures SameIssue(f, g) <==> Continues(f, g) {
      ContinuesExactly(f, g);
    }
  }

  /** The text that a family is sorted by. */
  function Label(family: Option<Cwe>): string {
    if family.None? then "" else if family.value.Named? then family.value.text else "CWE-" + Decimal(family.value.n)
  }

  lemma {:induction false} PlaceIsPreorder()
    ensures TotalPreorder(PlaceLeq)
  {
    forall f, g ensures PlaceLeq(f, g) || PlaceLeq(g, f) {
      TextOrder(f.file, g.file, g.file);
      TextOrder(FamilyText(f.cwe), FamilyText(g.cwe), FamilyText(g.cwe));
    }
    forall f, g, h | PlaceLeq(f, g) && PlaceLeq(g, h) ensures PlaceLeq(f, h) {
      TextOrder(f.file, g.file, h.file);
      TextOrder(h.file, g.file, f.file);
      TextOrder(FamilyText(f.cwe), FamilyText(g.cwe), FamilyText(h.cwe));
      TextOrder(FamilyText(h.cwe), FamilyText(g.cwe), FamilyText(f.cwe));
    }
  }

  /** The order of places: by file, then by family, then by line. */
  lemma {:induction false} PlacesAreSorted(findings: seq<Finding>, i: nat, j: nat)
    requires i < j < |ByPlace(findings)|
    ensures var f, g := ByPlace(findings)[i], ByPlace(findings)[j];
            && TextLeq(f.file, g.file)
            && (f.file == g.file ==> TextLeq(Label(Family(f.cwe)), Label(Family(g.cwe))))
            && (f.file == g.file && Label(Family(f.cwe)) == Label(Family(g.cwe)) ==> f.line <= g.line)
  {
    PlaceIsPreorder();
    FirstSeenKeys(findings);
    SortSorts(MergeAll(findings, FirstSeen(findings)), PlaceLeq);
    var f, g := ByPlace(findings)[i], ByPlace(findings)[j];
    assert PlaceLeq(f, g);
    TextOrder(f.file, g.file, f.file);
    TextOrder(FamilyText(f.cwe), FamilyText(g.cwe), FamilyText(g.cwe));
  }
}
