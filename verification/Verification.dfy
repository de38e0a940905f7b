/** The verification agent (backend/services/verification.py): a patch is accepted only if tools confirm it.
    Builds, linters, test runs and scanners are given by their answers. */
module Verification {
  import opened Prelude
  import opened Text
  import opened Cwe
  import opened Findings
  import opened Sorting
  import Correlator
  import opened Patching

  const NEARBY := 8

  // ----- The same weakness, before and after -----

  predicate Near(a: Finding, b: Finding) {
    Abs(a.line - b.line) <= NEARBY
  }

  /** `same_issue`: file, CWE family, and the package and advisory, the enclosing function or a nearby line. */
  predicate SameWeakness(a: Finding, b: Finding) {
    && a.file == b.file && Family(a.cwe) == Family(b.cwe)
    && if Truthy(a.package) || Truthy(b.package) then a.package == b.package && a.cve == b.cve
       else if Family(a.cwe) == Correlator.SECRETS then a.symbol == b.symbol && Near(a, b)
       else (a.symbol.Some? && a.symbol == b.symbol) || Near(a, b)
  }

  function Persisting(original: Finding, rescan: seq<Finding>): seq<Finding> {
    Filter(rescan, (f: Finding) => SameWeakness(original, f))
  }

  predicate IsKnown(baseline: seq<Finding>, f: Finding) {
    exists b :: b in baseline && SameWeakness(b, f)
  }

  predicate IsIntroduced(baseline: seq<Finding>, f: Finding) {
    SeverityIndex(f.severity) >= SeverityIndex(Medium) && !IsKnown(baseline, f)
  }

  function Introduced(baseline: seq<Finding>, rescan: seq<Finding>): seq<Finding> {
    Filter(rescan, (f: Finding) => IsIntroduced(baseline, f))
  }

  /** Being the same weakness is symmetric and reflexive, so a finding that a patch leaves alone is never new. */
  lemma {:induction false} SameWeaknessIsTolerance(a: Finding, b: Finding)
    ensures SameWeakness(a, b) <==> SameWeakness(b, a)
    ensures SameWeakness(a, a)
  {
  }

  lemma {:induction false} LeftAloneIsKnown(baseline: seq<Finding>, rescan: seq<Finding>)
    requires forall f :: f in rescan ==> f in baseline
    ensures Introduced(baseline, rescan) == []
  {
    forall f | f in rescan ensures !IsIntroduced(baseline, f) {
      SameWeaknessIsTolerance(f, f);
    }
    EmptyFilter(rescan, (f: Finding) => IsIntroduced(baseline, f));
  }

  // ----- Tool answers and the verdict -----

  datatype Answer<+T> = Answered(value: T) | Raised

  datatype BuildReport = BuildReport(ok: bool, tail: string)
  datatype LintReport = LintReport(clean: bool, tail: string)
  datatype TestReport = TestReport(passed: bool, counts: map<string, nat>, timedOut: bool, tail: string)
  datatype ScanOut = ScanOut(scanner: string, findings: seq<Finding>, error: string)

  datatype ToolRun = ToolRun(build: Answer<BuildReport>, lint: Answer<LintReport>, tests: Answer<TestReport>,
                             scans: Answer<seq<ScanOut>>)

  datatype TestsCheck = TestsRan(passed: bool, counts: map<string, nat>, timedOut: bool) | TestsSkipped

  datatype RescanCheck = RescanCheck(findings: nat, errors: map<string, string>, gone: Option<bool>,
      introduced: Option<nat>)

  /** The `checks` dictionary: an absent entry was not reached. */
  datatype Checks = Checks(build: Option<bool>, lint: Option<bool>, tests: Option<TestsCheck>,
      rescan: Option<RescanCheck>)

  const UNCHECKED := Checks(None, None, None, None)

  datatype Failure =
    | NoFailure
    | BuildFailed(tail: string)
    | LintFailed(tail: string)
    | TestsFailed(tail: string)
    | NoTests
    | RescanFailed(errors: map<string, string>)
    | StillReported(still: seq<Finding>)
    | NewReported(introduced: seq<Finding>)

  datatype Judgement = Judged(passed: bool, retriable: bool, checks: Checks, failure: Failure) | Crashed

  function Fail(checks: Checks, failure: Failure): Judgement {
    Judged(false, true, checks, failure)
  }

  function ScanErrors(outs: seq<ScanOut>): map<string, string> {
    if outs == [] then map[]
    else
      var last := outs[|outs| - 1];
      var errors := ScanErrors(outs[..|outs| - 1]);
      if last.error != "" then errors[last.scanner := last.error] else errors
  }

  function RawFindings(outs: seq<ScanOut>): seq<Finding> {
    if outs == [] then [] else RawFindings(outs[..|outs| - 1]) + outs[|outs| - 1].findings
  }

  function Rescan(outs: seq<ScanOut>): seq<Finding> {
    Correlator.Correlated(RawFindings(outs))
  }

  /** What the rescan decides, once build, linter and tests are fine. */
  function JudgeScans(outs: seq<ScanOut>, f: Finding, baseline: seq<Finding>, checks: Checks): Judgement {
    var errors, rescan := ScanErrors(outs), Rescan(outs);
    if errors != map[] then
      Fail(checks.(rescan := Some(RescanCheck(|rescan|, errors, None, None))), RescanFailed(errors))
    else
      var still, introduced := Persisting(f, rescan), Introduced(baseline, rescan);
      var done := checks.(rescan := Some(RescanCheck(|rescan|, errors, Some(still == []), Some(|introduced|))));
      if still != [] then Fail(done, StillReported(still))
      else if introduced != [] then Fail(done, NewReported(introduced))
      else Judged(true, true, done, NoFailure)
  }

  function JudgeTests(run: ToolRun, hasTests: bool, requireTests: bool, f: Finding, baseline: seq<Finding>,
                      checks: Checks)
    : Judgement
  {
    if hasTests && run.tests.Raised? then Crashed
    else
      var tests := if hasTests then TestsRan(run.tests.value.passed, run.tests.value.counts, run.tests.value.timedOut)
                   else TestsSkipped;
      var tested := checks.(tests := Some(tests));
      if hasTests && !run.tests.value.passed then Fail(tested, TestsFailed(run.tests.value.tail))
      else if !hasTests && requireTests then Judged(false, false, tested, NoTests)
      else if run.scans.Raised? then Crashed
      else JudgeScans(run.scans.value, f, baseline, tested)
  }

  /** Build, linter, tests and rescan, in this order, up to the first that fails. */
  function Judge(run: ToolRun, hasTests: bool, requireTests: bool, f: Finding, baseline: seq<Finding>): Judgement {
    if run.build.Raised? then Crashed
    else
      var built := UNCHECKED.(build := Some(run.build.value.ok));
      if !run.build.value.ok then Fail(built, BuildFailed(run.build.value.tail))
      else if run.lint.Raised? then Crashed
      else
        var linted := built.(lint := Some(run.lint.value.clean));
        if !run.lint.value.clean then Fail(linted, LintFailed(run.lint.value.tail))
        else JudgeTests(run, hasTests, requireTests, f, baseline, linted)
  }

  /** Every scanner ran; none of them reports the original weakness, or a medium or worse one that is unknown to
      the baseline. */
  predicate CleanScans(outs: seq<ScanOut>, f: Finding, baseline: seq<Finding>) {
    && (forall out :: out in outs ==> out.error == "")
    && (forall x :: x in Rescan(outs) ==> !SameWeakness(f, x))
    && (forall x :: x in Rescan(outs) && SeverityIndex(x.severity) >= SeverityIndex(Medium) ==> IsKnown(baseline, x))
  }

  predicate TestsFine(run: ToolRun, hasTests: bool, requireTests: bool) {
    if hasTests then run.tests.Answered? && run.tests.value.passed else !requireTests
  }

  /** Tools that agree: everything was built, linted, tested if there is anything to test, and rescanned. */
  predicate Confirmed(run: ToolRun, hasTests: bool, requireTests: bool, f: Finding, baseline: seq<Finding>) {
    && run.build.Answered? && run.build.value.ok
    && run.lint.Answered? && run.lint.value.clean
    && TestsFine(run, hasTests, requireTests)
    && run.scans.Answered? && CleanScans(run.scans.value, f, baseline)
  }

  /** The dictionary of a passed verification shows every check, and shows it passed. */
  predicate AllGreen(checks: Checks, requireTests: bool) {
    && checks.build == Some(true) && checks.lint == Some(true)
    && checks.tests.Some? && (checks.tests.value.TestsRan? ==> checks.tests.value.passed)
    && (requireTests ==> checks.tests.value.TestsRan?)
    && checks.rescan.Some? && checks.rescan.value.errors == map[]
    && checks.rescan.value.gone == Some(true) && checks.rescan.value.introduced == Some(0)
  }

  lemma {:induction false} NoScanErrors(outs: seq<ScanOut>)
    ensures ScanErrors(outs) == map[] <==> forall out :: out in outs ==> out.error == ""
  {
    if outs != [] {
      var init, last := outs[..|outs| - 1], outs[|outs| - 1];
      NoScanErrors(init);
      assert outs == init + [last];
      if last.error != "" {
        assert last.scanner in ScanErrors(outs);
      }
    }
  }

  lemma {:induction false} ScansDecide(outs: seq<ScanOut>, f: Finding, baseline: seq<Finding>, checks: Checks)
    ensures var v := JudgeScans(outs, f, baseline, checks);
            && v.Judged? && v.retriable && v.failure != NoTests && (v.passed <==> v.failure == NoFailure)
            && (v.passed <==> CleanScans(outs, f, baseline))
            && (v.passed ==>
                v.checks == checks.(rescan := Some(RescanCheck(|Rescan(outs)|, map[], Some(true), Some(0)))))
  {
    NoScanErrors(outs);
    EmptyFilter(Rescan(outs), (x: Finding) => SameWeakness(f, x));
    EmptyFilter(Rescan(outs), (x: Finding) => IsIntroduced(baseline, x));
  }

  /** A finding of the baseline that shows up again, such as one that an earlier patch fixed, counts against a later
      patch for `g` exactly if it is the same weakness as `g`; otherwise the others alone decide. */
  lemma {:induction false} BaselineFindingMayReturn(outs: seq<ScanOut>, g: Finding, f: Finding, baseline: seq<Finding>,
                                                    checks: Checks)
    requires f in Rescan(outs) && f in baseline
    ensures JudgeScans(outs, g, baseline, checks).Judged?
    ensures JudgeScans(outs, g, baseline, checks).passed <==>
            && (forall out :: out in outs ==> out.error == "") && !SameWeakness(g, f)
            && forall x :: x in Rescan(outs) && x != f ==>
                 !SameWeakness(g, x) && (SeverityIndex(x.severity) >= SeverityIndex(Medium) ==> IsKnown(baseline, x))
  {
    ScansDecide(outs, g, baseline, checks);
    SameWeaknessIsTolerance(f, f);
    assert IsKnown(baseline, f);
  }

  /** So with nothing else reported, the patch for `g` passes exactly if what came back is another weakness. */
  lemma {:induction false} FixedFindingComesBack(outs: seq<ScanOut>, g: Finding, f: Finding, baseline: seq<Finding>,
                                                 checks: Checks)
    requires Rescan(outs) == [f] && f in baseline && forall out :: out in outs ==> out.error == ""
    ensures JudgeScans(outs, g, baseline, checks).Judged?
    ensures JudgeScans(outs, g, baseline, checks).passed <==> !SameWeakness(g, f)
  {
    assert f in Rescan(outs);
    BaselineFindingMayReturn(outs, g, f, baseline, checks);
  }

  lemma {:induction false} TestsDecide(run: ToolRun, hasTests: bool, requireTests: bool, f: Finding,
                                       baseline: seq<Finding>, checks: Checks)
    requires checks.build == Some(true) && checks.lint == Some(true)
    ensures var v := JudgeTests(run, hasTests, requireTests, f, baseline, checks);
            && ((v.Judged? && v.passed) <==>
                  TestsFine(run, hasTests, requireTests) && run.scans.Answered? &&
                      CleanScans(run.scans.value, f, baseline))
            && (v.Judged? && v.passed ==> v.retriable && AllGreen(v.checks, requireTests))
            && (v.Judged? ==> (!v.retriable <==> v.failure == NoTests))
            && (v.Judged? && !v.retriable ==> !hasTests && requireTests)
            && (v.Judged? ==> (v.passed <==> v.failure == NoFailure))
  {
    if TestsFine(run, hasTests, requireTests) && run.scans.Answered? {
      var tests := if hasTests then TestsRan(true, run.tests.value.counts, run.tests.value.timedOut) else TestsSkipped;
      ScansDecide(run.scans.value, f, baseline, checks.(tests := Some(tests)));
    }
  }

  /** A patch passes exactly when the tools agree; then every check is recorded as passed. Exactly the
      absence of required tests forbids another attempt. */
  lemma {:induction false} PassedExactly(run: ToolRun, hasTests: bool, requireTests: bool, f: Finding,
                                        baseline: seq<Finding>)
    ensures var v := Judge(run, hasTests, requireTests, f, baseline);
            && ((v.Judged? && v.passed) <==> Confirmed(run, hasTests, requireTests, f, baseline))
            && (v.Judged? && v.passed ==> v.retriable && AllGreen(v.checks, requireTests))
            && (v.Judged? ==> (!v.retriable <==> v.failure == NoTests))
            && (v.Judged? && !v.retriable ==> !hasTests && requireTests)
            && (v.Judged? ==> (v.passed <==> v.failure == NoFailure))
  {
    var checks := Checks(Some(true), Some(true), None, None);
    TestsDecide(run, hasTests, requireTests, f, baseline, checks);
    if Linted(run) {
      assert Judge(run, hasTests, requireTests, f, baseline) ==
             JudgeTests(run, hasTests, requireTests, f, baseline, checks);
    }
  }

  /** What the tools said of the build, the linter, the tests and the scanners, each only if those before it agree. */
  predicate Built(run: ToolRun) {
    run.build.Answered? && run.build.value.ok
  }

  predicate Linted(run: ToolRun) {
    Built(run) && run.lint.Answered? && run.lint.value.clean
  }

  predicate Tested(run: ToolRun, hasTests: bool) {
    Linted(run) && hasTests && run.tests.Answered? && run.tests.value.passed
  }

  /** The checks reach the scanners. */
  predicate Scanning(run: ToolRun, hasTests: bool, requireTests: bool) {
    Linted(run) && (if hasTests then Tested(run, hasTests) else !requireTests) && run.scans.Answered?
  }

  // ----- Working copies -----

  predicate Ignored(name: string) {
    name == ".git" || name == "__pycache__" || name == ".venv" || name == "node_modules"
  }

  predicate AnyIgnored(names: seq<string>) {
    names != [] && (Ignored(names[0]) || AnyIgnored(names[1..]))
  }

  /** A path that a working copy leaves out. */
  predicate Hidden(path: string) {
    AnyIgnored(Segments(path))
  }

  /** A path below a directory that a working copy leaves out, so that it cannot be written there. */
  predicate BelowHidden(path: string) {
    AnyIgnored(Segments(path)[..|Segments(path)| - 1])
  }

  lemma {:induction false} AnyIgnoredExactly(names: seq<string>)
    ensures AnyIgnored(names) <==> exists name :: name in names && Ignored(name)
  {
    if names != [] {
      AnyIgnoredExactly(names[1..]);
      assert names[0] in names && forall name :: name in names <==> name == names[0] || name in names[1..];
    }
  }

  const IGNORED := {".git", "__pycache__", ".venv", "node_modules"}

  /** A path is left out exactly if one of its parts is the name of an ignored directory. */
  lemma {:induction false} HiddenExactly(path: string)
    ensures Hidden(path) <==> exists before, name, after :: IsPart(path, before, name, after) && name in IGNORED
  {
    AnyIgnoredExactly(Segments(path));
    if Hidden(path) {
      var name :| name in Segments(path) && Ignored(name);
      SegmentsExactly(path, name);
      assert name in IGNORED;
    }
    if before, name, after :| IsPart(path, before, name, after) && name in IGNORED {
      SegmentsExactly(path, name);
      assert Ignored(name);
    }
  }

  /** A path lies below an ignored directory exactly if more follows such a part. */
  lemma {:induction false} BelowHiddenExactly(path: string)
    ensures BelowHidden(path) <==>
            exists before, name, after :: IsPart(path, before, name, after) && after != "" && name in IGNORED
  {
    var inner := Segments(path)[..|Segments(path)| - 1];
    AnyIgnoredExactly(inner);
    if BelowHidden(path) {
      var name :| name in inner && Ignored(name);
      SegmentsExactly(path, name);
      assert name in IGNORED;
    }
    if before, name, after :| IsPart(path, before, name, after) && after != "" && name in IGNORED {
      SegmentsExactly(path, name);
      assert Ignored(name);
    }
  }

  function Visible(tree: Tree): Tree {
    map path | path in tree && !Hidden(path) :: tree[path]
  }

  function Copy(root: Tree, files: Tree): Option<Tree> {
    if exists path :: path in files && BelowHidden(path) then None else Some(Visible(root) + files)
  }

  lemma {:induction false} VisibleDistributes(root: Tree, files: Tree)
    ensures Visible(root + files) == Visible(root) + Visible(files)
  {
  }

  lemma {:induction false} VisibleTwice(tree: Tree)
    ensures Visible(Visible(tree)) == Visible(tree)
  {
  }

  /** Trees that look the same agree on every path a working copy holds. */
  lemma {:induction false} SeenThrough(a: Tree, b: Tree, path: string)
    requires Visible(a) == Visible(b) && !Hidden(path)
    ensures path in a <==> path in b
    ensures path in a && path in b ==> a[path] == b[path]
  {
    assert path in Visible(a) <==> path in a;
    assert path in Visible(b) <==> path in b;
    if path in a && path in b {
      assert Visible(a)[path] == a[path] && Visible(b)[path] == b[path];
    }
  }

  /** Hiding distributes over writing, so a chain of copies hides no more than one copy does. */
  lemma {:induction false} VisibleOverride(root: Tree, files: Tree)
    ensures Visible(root + files) == Visible(root) + Visible(files)
    ensures Visible(Visible(root) + files) == Visible(root + files)
  {
    VisibleDistributes(root, files);
    VisibleDistributes(Visible(root), files);
    VisibleTwice(root);
  }

  // ----- The registry and the verifier -----

  datatype Workspace = Workspace(root: Tree, changedFiles: set<string>)

  class WorkspaceRegistry {
    var workspaces: map<string, Workspace>

    constructor ()
      ensures workspaces == map[]
    {
      workspaces := map[];
    }

    method Register(wid: string, info: Workspace)
      modifies this
      ensures workspaces == old(workspaces)[wid := info]
    {
      workspaces := workspaces[wid := info];
    }

    method Drop(wid: string)
      modifies this
      ensures workspaces == old(workspaces) - {wid}
    {
      workspaces := workspaces - {wid};
    }
  }

  class Verifier {
    const registry: WorkspaceRegistry
    const requireTests: bool
    const hasTests: Tree -> bool
    var baseline: seq<Finding>
    var copies: seq<Tree>

    constructor (registry: WorkspaceRegistry, requireTests: bool, hasTests: Tree -> bool, baseline: seq<Finding>)
      ensures this.registry == registry && this.requireTests == requireTests && this.hasTests == hasTests
      ensures this.baseline == baseline && copies == []
    {
      this.registry, this.requireTests, this.hasTests, this.baseline, copies := registry, requireTests, hasTests,
          baseline, [];
    }

    /** The visible files are copied and the patch is written over them file by file, in any order; a file below an
        ignored directory cannot be written. The temporary directory is remembered in either case. */
    method MakeCopy(root: Tree, files: Tree) returns (dest: Option<Tree>)
      modifies this`copies
      ensures dest.None? <==> exists path :: path in files && BelowHidden(path)
      ensures dest.Some? ==> forall path ::
                (path in dest.value <==> path in files || (path in root && !Hidden(path))) &&
                (path in dest.value ==> dest.value[path] == if path in files then files[path] else root[path])
      ensures dest == Copy(root, files)
      ensures |copies| == |old(copies)| + 1 && copies[..|old(copies)|] == old(copies)
      ensures dest.Some? ==> copies[|old(copies)|] == dest.value
    {
      var tree := Visible(root);
      var todo := files.Keys;
      while todo != {}
        invariant todo <= files.Keys && copies == old(copies)
        invariant tree == Visible(root) + (files - todo)
        invariant forall path :: path in files && path !in todo ==> !BelowHidden(path)
        decreases todo
      {
        var path :| path in todo;
        if BelowHidden(path) {
          copies := copies + [tree];
          return None;
        }
        tree := tree[path := files[path]];
        todo := todo - {path};
      }
      assert files - {} == files;
      copies := copies + [tree];
      dest := Some(tree);
    }

    method Cleanup()
      modifies this`copies
      ensures copies == []
    {
      copies := [];
    }

    /** The verdict is on the copy that holds the patch, whatever happens to the tools, and the registry is left as
        it was found: the new id is gone and no other id is touched. */
    method Verify(f: Finding, files: Tree, current: Tree, run: ToolRun, wid: string) returns (v: Judgement,
                  root: Option<Tree>)
      requires wid !in registry.workspaces
      modifies this`copies, registry
      ensures root == Copy(current, files)
      ensures root.None? ==> v == Crashed
      ensures root.Some? ==> v == Judge(run, hasTests(root.value), requireTests, f, baseline)
      ensures registry.workspaces == old(registry.workspaces)
      ensures baseline == old(baseline)
    {
      root := MakeCopy(current, files);
      if root.None? {
        return Crashed, root;
      }
      registry.Register(wid, Workspace(root.value, files.Keys));
      v := Check(f, run, root.value);
      registry.Drop(wid);
    }

    /** The body of the `try`: the checks in their order. */
    method Check(f: Finding, run: ToolRun, root: Tree) returns (v: Judgement)
      ensures v == Judge(run, hasTests(root), requireTests, f, baseline)
    {
      var checks := UNCHECKED;
      if run.build.Raised? {
        return Crashed;
      }
      checks := checks.(build := Some(run.build.value.ok));
      if !run.build.value.ok {
        return Fail(checks, BuildFailed(run.build.value.tail));
      }
      if run.lint.Raised? {
        return Crashed;
      }
      checks := checks.(lint := Some(run.lint.value.clean));
      if !run.lint.value.clean {
        return Fail(checks, LintFailed(run.lint.value.tail));
      }
      if hasTests(root) {
        if run.tests.Raised? {
          return Crashed;
        }
        var tests := run.tests.value;
        checks := checks.(tests := Some(TestsRan(tests.passed, tests.counts, tests.timedOut)));
        if !tests.passed {
          return Fail(checks, TestsFailed(tests.tail));
        }
      } else {
        checks := checks.(tests := Some(TestsSkipped));
        if requireTests {
          return Judged(false, false, checks, NoTests);
        }
      }
      if run.scans.Raised? {
        return Crashed;
      }
      v := JudgeScans(run.scans.value, f, baseline, checks);
    }
  }
}
