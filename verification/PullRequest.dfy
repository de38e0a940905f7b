/** The remediation branch (backend/services/pr_agent.py): one commit per changed file of every fix, on a new branch
    from the scanned commit. */
module PullRequest {
  import opened Prelude
  import opened Text
  import opened Findings
  import opened Patching
  import opened Verification
  import opened Store
  import opened Sorting

  // ----- The branch -----

  /** The files of all rows, later rows over earlier ones. */
  function Overlay(rows: seq<Row>): Tree {
    if rows == [] then map[] else Overlay(rows[..|rows| - 1]) + rows[|rows| - 1].files
  }

  datatype Pull = Pull(head: string, base: string)

  datatype Opened = NoFixes | BranchExists | OpenedPull(pull: Pull)

  function BranchName(scanId: string): string {
    "acsr/fix-" + scanId[..Min(8, |scanId|)]
  }

  lemma {:induction false} BranchIsNamed(scanId: string)
    ensures exists start :: StartOf(scanId, 8, start) && BranchName(scanId) == "acsr/fix-" + start
  {
    assert StartOf(scanId, 8, scanId[..Min(8, |scanId|)]);
  }

  class GitHub {
    var branches: map<string, Tree>
    var pulls: seq<Pull>

    constructor (branches: map<string, Tree>)
      ensures this.branches == branches && pulls == []
    {
      this.branches, pulls := branches, [];
    }

    method CreateBranch(name: string, from: Tree) returns (ok: bool)
      modifies this`branches
      ensures ok == (name !in old(branches))
      ensures branches == if ok then old(branches)[name := from] else old(branches)
    {
      ok := name !in branches;
      if ok {
        branches := branches[name := from];
      }
    }

    method CommitFile(branch: string, path: string, content: string)
      requires branch in branches
      modifies this`branches
      ensures branches == old(branches)[branch := old(branches)[branch][path := content]]
    {
      branches := branches[branch := branches[branch][path := content]];
    }

    /** The commits of one fix, in whatever order its paths come. */
    method CommitFix(branch: string, files: Tree)
      requires branch in branches
      modifies this`branches
      ensures branches == old(branches)[branch := old(branches)[branch] + files]
    {
      ghost var start := branches[branch];
      var todo := files.Keys;
      NothingCommitted(start, files);
      while todo != {}
        invariant todo <= files.Keys
        invariant branches == old(branches)[branch := start + (files - todo)]
        decreases todo
      {
        var path :| path in todo;
        OneMoreCommitted(start, files, todo, path);
        CommitFile(branch, path, files[path]);
        todo := todo - {path};
      }
      assert files - {} == files;
    }

    method CommitFixes(branch: string, fixes: seq<Row>)
      requires branch in branches
      modifies this`branches
      ensures branches == old(branches)[branch := old(branches)[branch] + Overlay(fixes)]
    {
      ghost var start := branches[branch];
      assert start + map[] == start;
      for i := 0 to |fixes|
        invariant branches == old(branches)[branch := start + Overlay(fixes[..i])]
      {
        CommitFix(branch, fixes[i].files);
        OverlaySnoc(start, fixes, i);
      }
      assert fixes[..|fixes|] == fixes;
    }

    /** The branch ends as the scanned tree overridden by the files of the fixes in order; other branches are not
        touched, and without fixes or with the branch taken nothing happens. */
    method OpenRemediationPr(baseRef: string, from: Tree, scanId: string, fixes: seq<Row>) returns (r: Opened)
      modifies this
      ensures r == if fixes == [] then NoFixes
                   else if BranchName(scanId) in old(branches) then BranchExists
                   else OpenedPull(Pull(BranchName(scanId), baseRef))
      ensures branches ==
          if r.OpenedPull? then old(branches)[BranchName(scanId) := from + Overlay(fixes)] else old(branches)
      ensures pulls == old(pulls) + if r.OpenedPull? then [r.pull] else []
    {
      if fixes == [] {
        return NoFixes;
      }
      var branch := BranchName(scanId);
      var created := CreateBranch(branch, from);
      if !created {
        return BranchExists;
      }
      CommitFixes(branch, fixes);
      pulls := pulls + [Pull(branch, baseRef)];
      return OpenedPull(Pull(branch, baseRef));
    }
  }

  lemma {:induction false} NothingCommitted(start: Tree, files: Tree)
    ensures start + (files - files.Keys) == start
  {
    assert files - files.Keys == map[];
  }

  lemma {:induction false} OneMoreCommitted(start: Tree, files: Tree, todo: set<string>, path: string)
    requires path in todo && todo <= files.Keys
    ensures (start + (files - todo))[path := files[path]] == start + (files - (todo - {path}))
  {
  }

  lemma {:induction false} OverlaySnoc(start: Tree, fixes: seq<Row>, i: nat)
    requires i < |fixes|
    ensures start + Overlay(fixes[..i]) + fixes[i].files == start + Overlay(fixes[..i + 1])
  {
    assert fixes[..i + 1][..i] == fixes[..i];
    OverrideThree(start, Overlay(fixes[..i]), fixes[i].files);
  }

  // ----- The checks in the body -----

  datatype Mark = Passed | Neutral | Failing

  function MarkIf(ok: bool): Mark {
    if ok then Passed else Failing
  }

  /** `_checks`: build, linter, tests, original finding, new findings. */
  function CheckMarks(v: Checks): seq<Mark> {
    [MarkIf(v.build == Some(true)),
     MarkIf(v.lint == Some(true)),
     if v.tests.Some? && v.tests.value.TestsRan? then MarkIf(v.tests.value.passed)
     else if v.tests.Some? && v.tests.value.TestsSkipped? then Neutral
     else Failing,
     MarkIf(v.rescan.Some? && v.rescan.value.gone == Some(true)),
     MarkIf(v.rescan.Some? && v.rescan.value.introduced == Some(0))]
  }

  /** How a check is shown: as passed, as failing, or, for tests that do not exist, neither. */
  predicate Shows(mark: Mark, passed: bool, neutral: bool) {
    (mark == Passed <==> passed) && (mark == Neutral <==> neutral) && (mark == Failing <==> !passed && !neutral)
  }

  /** Every scanner ran, and nothing of this kind is reported. */
  ghost predicate CleanOf(outs: seq<ScanOut>, rescan: seq<Finding>, bad: Finding -> bool) {
    (forall out :: out in outs ==> out.error == "") && forall x :: x in rescan ==> !bad(x)
  }

  lemma {:induction false} NonePersists(outs: seq<ScanOut>, f: Finding, rescan: seq<Finding>)
    ensures ScanErrors(outs) == map[] && Persisting(f, rescan) == [] <==>
            CleanOf(outs, rescan, (x: Finding) => SameWeakness(f, x))
  {
    NoScanErrors(outs);
    EmptyFilter(rescan, (x: Finding) => SameWeakness(f, x));
  }

  lemma {:induction false} NoneIntroduced(outs: seq<ScanOut>, baseline: seq<Finding>, rescan: seq<Finding>)
    ensures ScanErrors(outs) == map[] && Introduced(baseline, rescan) == [] <==>
            CleanOf(outs, rescan, (x: Finding) => IsIntroduced(baseline, x))
  {
    NoScanErrors(outs);
    EmptyFilter(rescan, (x: Finding) => IsIntroduced(baseline, x));
  }

  lemma {:induction false} MarksOf(c: Checks)
    ensures var marks := CheckMarks(c);
            && |marks| == 5
            && Shows(marks[0], c.build == Some(true), false) && Shows(marks[1], c.lint == Some(true), false)
            && Shows(marks[2], c.tests.Some? && c.tests.value.TestsRan? && c.tests.value.passed,
                     c.tests == Some(TestsSkipped))
            && Shows(marks[3], c.rescan.Some? && c.rescan.value.gone == Some(true), false)
            && Shows(marks[4], c.rescan.Some? && c.rescan.value.introduced == Some(0), false)
  {
  }

  lemma {:induction false} ScanChecks(outs: seq<ScanOut>, f: Finding, baseline: seq<Finding>, checks: Checks)
    ensures var v := JudgeScans(outs, f, baseline, checks);
            && v.Judged? && v.checks.build == checks.build && v.checks.lint == checks.lint
            && v.checks.tests == checks.tests && v.checks.rescan.Some?
            && (v.checks.rescan.value.gone == Some(true) <==>
                ScanErrors(outs) == map[] && Persisting(f, Rescan(outs)) == [])
            && (v.checks.rescan.value.introduced == Some(0) <==>
                ScanErrors(outs) == map[] && Introduced(baseline, Rescan(outs)) == [])
  {
  }

  /** The rescan is shown as it came out. */
  lemma {:induction false} RescanMarksAreExact(outs: seq<ScanOut>, f: Finding, baseline: seq<Finding>, checks: Checks,
                                               rescan: seq<Finding>)
    requires rescan == Rescan(outs)
    ensures JudgeScans(outs, f, baseline, checks).Judged?
    ensures var marks := CheckMarks(JudgeScans(outs, f, baseline, checks).checks);
            && Shows(marks[3], CleanOf(outs, rescan, (x: Finding) => SameWeakness(f, x)), false)
            && Shows(marks[4], CleanOf(outs, rescan, (x: Finding) => IsIntroduced(baseline, x)), false)
  {
    NonePersists(outs, f, rescan);
    NoneIntroduced(outs, baseline, rescan);
    ScanChecks(outs, f, baseline, checks);
    MarksOf(JudgeScans(outs, f, baseline, checks).checks);
  }

  /** The entries that a judgement records: an entry is there if everything before it agreed. */
  predicate Recorded(c: Checks, run: ToolRun, hasTests: bool, requireTests: bool) {
    && (c.build == Some(true) <==> Built(run)) && (c.lint == Some(true) <==> Linted(run))
    && (c.tests.Some? && c.tests.value.TestsRan? && c.tests.value.passed <==> Tested(run, hasTests))
    && (c.tests == Some(TestsSkipped) <==> Linted(run) && !hasTests)
    && (c.rescan.Some? <==> Scanning(run, hasTests, requireTests))
  }

  lemma {:induction false} TestsRecorded(run: ToolRun, hasTests: bool, requireTests: bool, f: Finding,
                                         baseline: seq<Finding>, checks: Checks)
    requires Linted(run) && checks.build == Some(true) && checks.lint == Some(true) && checks.rescan.None?
    requires JudgeTests(run, hasTests, requireTests, f, baseline, checks).Judged?
    ensures Recorded(JudgeTests(run, hasTests, requireTests, f, baseline, checks).checks, run, hasTests, requireTests)
  {
    if Scanning(run, hasTests, requireTests) {
      var tests := if hasTests then TestsRan(true, run.tests.value.counts, run.tests.value.timedOut) else TestsSkipped;
      ScanChecks(run.scans.value, f, baseline, checks.(tests := Some(tests)));
    }
  }

  /** Build, linter and tests are shown as they came out, and what was not reached as failing. */
  lemma {:induction false} MarksAreExact(run: ToolRun, hasTests: bool, requireTests: bool, f: Finding,
                                         baseline: seq<Finding>)
    requires Judge(run, hasTests, requireTests, f, baseline).Judged?
    ensures var marks := CheckMarks(Judge(run, hasTests, requireTests, f, baseline).checks);
            && |marks| == 5 && Shows(marks[0], Built(run), false) && Shows(marks[1], Linted(run), false)
            && Shows(marks[2], Tested(run, hasTests), Linted(run) && !hasTests)
            && (!Scanning(run, hasTests, requireTests) ==> marks[3] == Failing && marks[4] == Failing)
  {
    if Linted(run) {
      TestsRecorded(run, hasTests, requireTests, f, baseline, Checks(Some(true), Some(true), None, None));
    }
    MarksOf(Judge(run, hasTests, requireTests, f, baseline).checks);
  }

  /** The body never shows a failing check for a verification that passed, and when tests are required it shows all
      five as passed. */
  lemma {:induction false} VerifiedShowsNoFailure(run: ToolRun, hasTests: bool, requireTests: bool, f: Finding,
                                                  baseline: seq<Finding>)
    requires Confirmed(run, hasTests, requireTests, f, baseline)
    ensures Judge(run, hasTests, requireTests, f, baseline).Judged?
    ensures var marks := CheckMarks(Judge(run, hasTests, requireTests, f, baseline).checks);
            && Failing !in marks
            && (requireTests ==> marks == [Passed, Passed, Passed, Passed, Passed])
  {
    PassedExactly(run, hasTests, requireTests, f, baseline);
  }
}
