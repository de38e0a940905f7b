/** What a rescan that reports one finding decides about a patch, case by case (backend/services/verification.py,
    lines 28 to 55 and 174 to 199). */
module RescanLaws {
  import opened Prelude
  import opened Cwe
  import opened Findings
  import opened Sorting
  import opened Correlator
  import opened Verification
  import Masking

  // ----- One report -----

  /** The scanners ran without error and together report just this finding. */
  ghost predicate OnlyReport(outs: seq<ScanOut>, g: Finding) {
    WellFormed(g) && RawFindings(outs) == [g] && forall out :: out in outs ==> out.error == ""
  }

  lemma {:induction false} LoneRun(m: Finding)
    ensures RunsOf([m], Correlator.SameIssue) == [[m]]
  {
    assert [m][..0] == [];
    assert RunsOf([m][..0], Correlator.SameIssue) == [];
  }

  lemma {:induction false} LoneByPlace(g: Finding)
    ensures ByPlace([g]) == [Merge([g])]
  {
    Masking.GroupOne(g, g.fingerprint);
    FirstSeenKeys([g]);
    assert [g.fingerprint][..0] == [];
    assert MergeAll([g], []) == [];
    assert MergeAll([g], [g.fingerprint]) == [Merge([g])];
    Masking.SortOne(Merge([g]), PlaceLeq);
  }

  lemma {:induction false} LoneOutput(m: Finding)
    ensures FinishAll([[m]]) == [m]
  {
    assert FinishAll([[m]])[0] == Finish([[m]][0]);
  }

  lemma {:induction false} LoneRescan(outs: seq<ScanOut>, g: Finding)
    requires OnlyReport(outs, g)
    ensures Rescan(outs) == [Merge([g])]
    ensures Masking.SamePlace(Merge([g]), g) && Merge([g]).severity == g.severity
  {
    LoneByPlace(g);
    LoneRun(Merge([g]));
    LoneOutput(Merge([g]));
    Masking.SortOne(Merge([g]), SeverityLeq);
    Masking.MergeOne(g);
  }

  lemma {:induction false} AllOfOne<T(!new)>(s: seq<T>, m: T, p: T -> bool)
    requires s == [m]
    ensures (forall x :: x in s ==> p(x)) <==> p(m)
  {
    assert m in s;
  }

  lemma {:induction false} LoneClean(outs: seq<ScanOut>, t: Finding, m: Finding, baseline: seq<Finding>)
    requires Rescan(outs) == [m] && forall out :: out in outs ==> out.error == ""
    ensures CleanScans(outs, t, baseline) <==> !SameWeakness(t, m) && !IsIntroduced(baseline, m)
  {
    AllOfOne(Rescan(outs), m, (x: Finding) => !SameWeakness(t, x));
    AllOfOne(Rescan(outs), m, (x: Finding) => !IsIntroduced(baseline, x));
  }

  lemma {:induction false} SamePlaceSameVerdict(t: Finding, m: Finding, g: Finding, baseline: seq<Finding>)
    requires Masking.SamePlace(m, g) && m.severity == g.severity
    ensures SameWeakness(t, m) <==> SameWeakness(t, g)
    ensures IsIntroduced(baseline, m) <==>
            !(g.severity == Info || g.severity == Low || IsKnown(baseline, g))
  {
    Masking.SamePlaceSameWeakness(t, m, g);
    Masking.KnownByVoice(baseline, m, g);
  }

  lemma {:induction false} PassedIsClean(outs: seq<ScanOut>, t: Finding, baseline: seq<Finding>, checks: Checks)
    ensures JudgeScans(outs, t, baseline, checks).Judged?
    ensures JudgeScans(outs, t, baseline, checks).passed <==> CleanScans(outs, t, baseline)
  {
    ScansDecide(outs, t, baseline, checks);
  }

  /** The verdict on one report. */
  lemma {:induction false} LoneVerdict(outs: seq<ScanOut>, t: Finding, g: Finding, baseline: seq<Finding>,
                                       checks: Checks)
    requires OnlyReport(outs, g)
    ensures JudgeScans(outs, t, baseline, checks).Judged?
    ensures JudgeScans(outs, t, baseline, checks).passed <==>
            !SameWeakness(t, g) && (g.severity == Info || g.severity == Low || IsKnown(baseline, g))
  {
    LoneRescan(outs, g);
    PassedIsClean(outs, t, baseline, checks);
    LoneClean(outs, t, Merge([g]), baseline);
    SamePlaceSameVerdict(t, Merge([g]), g, baseline);
  }

  // ----- The cases -----

  /** Neither finding names a package. */
  predicate NoPackage(a: Finding, b: Finding) {
    (a.package == None || a.package == Some("")) && (b.package == None || b.package == Some(""))
  }

  predicate InOneFunction(a: Finding, b: Finding) {
    a.symbol.Some? && b.symbol.Some? && a.symbol.value == b.symbol.value
  }

  /** At most eight lines apart. */
  predicate Close(a: Finding, b: Finding) {
    a.line - b.line <= 8 && b.line - a.line <= 8
  }

  /** The report `g` of the rescan stands against the finding `a`: so it does in every one of these cases, and in none
      of the others. */
  ghost predicate Stands(a: Finding, g: Finding) {
    && !(a.file != g.file) && !(Family(a.cwe) != Family(g.cwe))
    && (!NoPackage(a, g) ==> a.package == g.package && a.cve == g.cve)
    && (NoPackage(a, g) && Family(a.cwe) == Some(Numbered(798)) ==> Close(a, g) && a.symbol == g.symbol)
    && (NoPackage(a, g) && Family(a.cwe) != Some(Numbered(798)) ==> Close(a, g) || InOneFunction(a, g))
  }

  lemma {:induction false} StandsIsSame(a: Finding, g: Finding)
    ensures Stands(a, g) <==> SameWeakness(a, g)
  {
  }

  lemma {:induction false} KnownAlone(b: Finding, g: Finding)
    ensures IsKnown([b], g) <==> SameWeakness(b, g)
  {
    assert b in [b];
  }

  /** A report that the baseline knows lets the patch for `t` fail exactly if it stands against `t`. */
  lemma {:induction false} TargetDecides(outs: seq<ScanOut>, t: Finding, g: Finding, checks: Checks)
    requires OnlyReport(outs, g)
    ensures JudgeScans(outs, t, [g], checks).Judged?
    ensures JudgeScans(outs, t, [g], checks).passed <==> !Stands(t, g)
  {
    LoneVerdict(outs, t, g, [g], checks);
    StandsIsSame(t, g);
    KnownAlone(g, g);
    SameWeaknessIsTolerance(g, g);
  }

  /** A medium or worse report elsewhere lets the patch for `t` fail exactly if it stands against nothing that was
      known; one of low severity never does. */
  lemma {:induction false} BaselineDecides(outs: seq<ScanOut>, t: Finding, b: Finding, g: Finding, checks: Checks)
    requires OnlyReport(outs, g) && t.file != g.file
    ensures JudgeScans(outs, t, [b], checks).Judged?
    ensures g.severity == Info || g.severity == Low ==> JudgeScans(outs, t, [b], checks).passed
    ensures g.severity == Medium || g.severity == High || g.severity == Critical ==>
              (JudgeScans(outs, t, [b], checks).passed <==> Stands(b, g))
  {
    LoneVerdict(outs, t, g, [b], checks);
    KnownAlone(b, g);
    StandsIsSame(b, g);
    StandsIsSame(t, g);
  }

  // ----- Case by case -----

  /** The finding names a package. */
  predicate Packaged(f: Finding) {
    f.package.Some? && f.package.value != ""
  }

  /** Between files and between families nothing stands against anything. */
  lemma {:induction false} StrangersPass(outs: seq<ScanOut>, t: Finding, g: Finding, checks: Checks)
    requires OnlyReport(outs, g) && (t.file != g.file || Family(t.cwe) != Family(g.cwe))
    ensures JudgeScans(outs, t, [g], checks).Judged? && JudgeScans(outs, t, [g], checks).passed
  {
    TargetDecides(outs, t, g, checks);
  }

  /** A vulnerable package stays reported exactly under its name and advisory, on whatever line. */
  lemma {:induction false} PackageCase(outs: seq<ScanOut>, t: Finding, g: Finding, checks: Checks)
    requires OnlyReport(outs, g) && t.file == g.file && Family(t.cwe) == Family(g.cwe)
    requires Packaged(t) || Packaged(g)
    ensures JudgeScans(outs, t, [g], checks).Judged?
    ensures JudgeScans(outs, t, [g], checks).passed <==> t.package != g.package || t.cve != g.cve
  {
    TargetDecides(outs, t, g, checks);
  }

  lemma {:induction false} SecretsAreKin(n: nat)
    requires n == 798 || n == 259 || n == 321
    ensures Family(Some(Numbered(n))) == Some(Numbered(798))
  {
  }

  /** A secret is gone if the one reported is nine lines away or in another function. */
  lemma {:induction false} SecretCase(outs: seq<ScanOut>, t: Finding, g: Finding, checks: Checks, m: nat, n: nat)
    requires OnlyReport(outs, g) && t.file == g.file && !Packaged(t) && !Packaged(g)
    requires t.cwe == Some(Numbered(m)) && g.cwe == Some(Numbered(n))
    requires (m == 798 || m == 259 || m == 321) && (n == 798 || n == 259 || n == 321)
    ensures JudgeScans(outs, t, [g], checks).Judged?
    ensures JudgeScans(outs, t, [g], checks).passed <==>
            t.line >= g.line + 9 || g.line >= t.line + 9 || t.symbol != g.symbol
  {
    SecretsAreKin(m);
    SecretsAreKin(n);
    TargetDecides(outs, t, g, checks);
  }

  /** Another weakness is gone if the one reported is nine lines away and not in the same named function. */
  lemma {:induction false} CodeCase(outs: seq<ScanOut>, t: Finding, g: Finding, checks: Checks)
    requires OnlyReport(outs, g) && t.file == g.file && !Packaged(t) && !Packaged(g)
    requires Family(t.cwe) == Family(g.cwe) != Some(Numbered(798))
    ensures JudgeScans(outs, t, [g], checks).Judged?
    ensures JudgeScans(outs, t, [g], checks).passed <==>
            (t.line >= g.line + 9 || g.line >= t.line + 9) && (t.symbol == None || t.symbol != g.symbol)
  {
    TargetDecides(outs, t, g, checks);
  }

  /** And a medium or worse report elsewhere passes as known exactly in the same cases. */
  lemma {:induction false} KnownCases(outs: seq<ScanOut>, t: Finding, b: Finding, g: Finding, checks: Checks)
    requires OnlyReport(outs, g) && t.file != g.file && SeverityIndex(g.severity) >= 2
    ensures JudgeScans(outs, t, [b], checks).Judged?
    ensures b.file != g.file || Family(b.cwe) != Family(g.cwe) ==> !JudgeScans(outs, t, [b], checks).passed
    ensures b.file == g.file && Family(b.cwe) == Family(g.cwe) ==>
              (JudgeScans(outs, t, [b], checks).passed <==>
                 if Packaged(b) || Packaged(g) then b.package == g.package && b.cve == g.cve
                 else if Family(g.cwe) == Some(Numbered(798)) then
                   b.line < g.line + 9 && g.line < b.line + 9 && b.symbol == g.symbol
                 else (b.line < g.line + 9 && g.line < b.line + 9) || (b.symbol != None && b.symbol == g.symbol))
  {
    BaselineDecides(outs, t, b, g, checks);
  }

  // ----- Why a patch fails -----

  /** What a failure says is what the first check that did not agree said. */
  predicate SaysWhy(failure: Failure, run: ToolRun, hasTests: bool, requireTests: bool, f: Finding,
                    baseline: seq<Finding>)
  {
    match failure
    case NoFailure => Scanning(run, hasTests, requireTests)
    case BuildFailed(tail) => run.build.Answered? && !run.build.value.ok && tail == run.build.value.tail
    case LintFailed(tail) => Built(run) && run.lint.Answered? && !run.lint.value.clean && tail == run.lint.value.tail
    case TestsFailed(tail) =>
      Linted(run) && hasTests && run.tests.Answered? && !run.tests.value.passed && tail == run.tests.value.tail
    case NoTests => Linted(run) && !hasTests && requireTests
    case RescanFailed(errors) => Scanning(run, hasTests, requireTests) && errors == ScanErrors(run.scans.value) != map[]
    case StillReported(still) =>
      && Scanning(run, hasTests, requireTests) && ScanErrors(run.scans.value) == map[]
      && still == Persisting(f, Rescan(run.scans.value)) != []
    case NewReported(introduced) =>
      && Scanning(run, hasTests, requireTests) && ScanErrors(run.scans.value) == map[]
      && Persisting(f, Rescan(run.scans.value)) == []
      && introduced == Introduced(baseline, Rescan(run.scans.value)) != []
  }

  /** The check that is due cannot be run at all. */
  predicate Breaks(run: ToolRun, hasTests: bool, requireTests: bool) {
    || run.build.Raised? || (Built(run) && run.lint.Raised?) || (Linted(run) && hasTests && run.tests.Raised?)
    || (Linted(run) && (if hasTests then Tested(run, hasTests) else !requireTests) && run.scans.Raised?)
  }

  lemma {:induction false} ScansSayWhy(outs: seq<ScanOut>, f: Finding, baseline: seq<Finding>, checks: Checks)
    ensures var v := JudgeScans(outs, f, baseline, checks);
            && v.Judged?
            && match v.failure
               case NoFailure => true
               case RescanFailed(errors) => errors == ScanErrors(outs) != map[]
               case StillReported(still) => ScanErrors(outs) == map[] && still == Persisting(f, Rescan(outs)) != []
               case NewReported(introduced) =>
                 && ScanErrors(outs) == map[] && Persisting(f, Rescan(outs)) == []
                 && introduced == Introduced(baseline, Rescan(outs)) != []
               case _ => false
  {
  }

  lemma {:induction false} TestsSayWhy(run: ToolRun, hasTests: bool, requireTests: bool, f: Finding,
                                       baseline: seq<Finding>, checks: Checks)
    requires Linted(run)
    ensures var v := JudgeTests(run, hasTests, requireTests, f, baseline, checks);
            && (v.Crashed? <==> Breaks(run, hasTests, requireTests))
            && (v.Judged? ==> SaysWhy(v.failure, run, hasTests, requireTests, f, baseline))
  {
    if Scanning(run, hasTests, requireTests) {
      var tests := if hasTests then TestsRan(true, run.tests.value.counts, run.tests.value.timedOut) else TestsSkipped;
      ScansSayWhy(run.scans.value, f, baseline, checks.(tests := Some(tests)));
    }
  }

  /** The verdict fails for the first check that does not agree, with what it said, and crashes exactly if a check that
      is due cannot be run. */
  lemma {:induction false} FailureIsExact(run: ToolRun, hasTests: bool, requireTests: bool, f: Finding,
                                          baseline: seq<Finding>)
    ensures var v := Judge(run, hasTests, requireTests, f, baseline);
            && (v.Crashed? <==> Breaks(run, hasTests, requireTests))
            && (v.Judged? ==> SaysWhy(v.failure, run, hasTests, requireTests, f, baseline))
  {
    if Linted(run) {
      TestsSayWhy(run, hasTests, requireTests, f, baseline, Checks(Some(true), Some(true), None, None));
    }
  }

  /** The errors of a rescan name exactly the scanners that had one, with the last they gave. */
  lemma {:induction false} ErrorsAreExact(outs: seq<ScanOut>, scanner: string)
    ensures scanner in ScanErrors(outs) <==> exists out :: out in outs && out.scanner == scanner && out.error != ""
    ensures scanner in ScanErrors(outs) ==>
              exists i :: 0 <= i < |outs| && outs[i].scanner == scanner &&
                outs[i].error == ScanErrors(outs)[scanner] != "" &&
                forall j :: i < j < |outs| && outs[j].scanner == scanner ==> outs[j].error == ""
  {
    if outs != [] {
      var init, n := outs[..|outs| - 1], |outs| - 1;
      ErrorsAreExact(init, scanner);
      assert outs == init + [outs[n]] && outs[n] in outs;
      if scanner in ScanErrors(outs) && !(outs[n].scanner == scanner && outs[n].error != "") {
        var i :| 0 <= i < |init| && init[i].scanner == scanner && init[i].error == ScanErrors(init)[scanner] != "" &&
                 forall j :: i < j < |init| && init[j].scanner == scanner ==> init[j].error == "";
        assert outs[i] == init[i];
      }
    }
  }
}
