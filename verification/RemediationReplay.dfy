/** The rows that a run saves, and what replaying them on a branch gives (backend/graph/remediation.py with
    backend/services/store.py and backend/services/pr_agent.py). */
module RemediationReplay {
  import opened Prelude
  import opened Findings
  import opened Sorting
  import opened Patching
  import Correlator
  import opened Verification
  import opened Store
  import PullRequest
  import opened Remediation
  import opened RemediationRuns
  import opened RemediationTrees
  import opened RemediationOutcomes
  import opened ReplayOrder

  function LogFixes(log: seq<Accepted>): seq<Fix> {
    if log == [] then []
    else LogFixes(log[..|log| - 1]) + [Fix(log[|log| - 1].finding.fingerprint, log[|log| - 1].files)]
  }

  /** Exactly the accepted patches have been saved as verified rows of this scan, in order. */
  predicate Booked(cfg: Config, before: seq<Row>, rows: seq<Row>, log: seq<Accepted>) {
    Persists(cfg) ==> ScanFixes(rows, cfg.scanId) == ScanFixes(before, cfg.scanId) + LogFixes(log)
  }

  lemma {:induction false} ScanFixesSnoc(rows: seq<Row>, row: Row, scanId: string)
    ensures AwaitsApproval(row, scanId) ==>
              ScanFixes(rows + [row], scanId) == ScanFixes(rows, scanId) + [Fix(row.fingerprint, row.files)]
    ensures !AwaitsApproval(row, scanId) ==> ScanFixes(rows + [row], scanId) == ScanFixes(rows, scanId)
  {
    assert (rows + [row])[..|rows|] == rows;
  }

  lemma {:induction false} LogFixesSnoc(log: seq<Accepted>, a: Accepted)
    ensures LogFixes(log + [a]) == LogFixes(log) + [Fix(a.finding.fingerprint, a.files)]
  {
    assert (log + [a])[..|log|] == log;
  }

  lemma {:induction false} BothGrow(cfg: Config, before: seq<Row>, rows: seq<Row>, log: seq<Accepted>, row: Row,
                                    a: Accepted)
    requires Booked(cfg, before, rows, log) && AwaitsApproval(row, cfg.scanId)
    requires row.fingerprint == a.finding.fingerprint && row.files == a.files
    ensures Booked(cfg, before, if Persists(cfg) then rows + [row] else rows, log + [a])
  {
    ScanFixesSnoc(rows, row, cfg.scanId);
    LogFixesSnoc(log, a);
  }

  lemma {:induction false} OtherRow(cfg: Config, before: seq<Row>, rows: seq<Row>, log: seq<Accepted>, row: Row)
    requires Booked(cfg, before, rows, log) && !AwaitsApproval(row, cfg.scanId)
    ensures Booked(cfg, before, rows + [row], log)
  {
    ScanFixesSnoc(rows, row, cfg.scanId);
  }

  // ----- Every step keeps the books -----

  lemma {:induction false} CheckedBooks(cfg: Config, before: seq<Row>, s: State, f: Finding, files: Tree, tree: Tree,
                                        v: Judgement, run: ToolRun)
    requires Booked(cfg, before, s.rows, s.log) && v.Judged?
    ensures var next := Checked(cfg, s, f, files, tree, v, run); Booked(cfg, before, next.rows, next.log)
  {
    var row := Row(s.nextId, cfg.scanId, f.fingerprint, s.attempt,
        if v.passed then RowVerified else RowFailedVerification,
                   if v.passed then files else map[], v.checks, None, None);
    if v.passed {
      BothGrow(cfg, before, s.rows, s.log, row, Accepted(f, files, tree, run, v.checks));
    } else {
      OtherRow(cfg, before, s.rows, s.log, row);
    }
  }

  lemma {:induction false} RecordedBooks(cfg: Config, before: seq<Row>, s: State, f: Finding, outcome: Outcome)
    requires Booked(cfg, before, s.rows, s.log)
    ensures var next := Recorded(cfg, s, f, outcome); Booked(cfg, before, next.rows, next.log)
  {
    var next := Recorded(cfg, s, f, outcome);
    if Persists(cfg) && outcome != Repaired {
      OtherRow(cfg, before, s.rows, s.log, next.rows[|s.rows|]);
    }
  }

  lemma {:induction false} ProposedLeavesBooks(cfg: Config, s: State, check: PatchCheck)
    ensures Proposed(cfg, s, check).rows == s.rows && Proposed(cfg, s, check).log == s.log
  {
  }

  lemma {:induction false} ProposeLeavesBooks(cfg: Config, s: State, o: Oracle)
    ensures Propose(cfg, s, o).rows == s.rows && Propose(cfg, s, o).log == s.log
  {
    if Target(s).Some? {
      var f := Target(s).value;
      if Truthy(f.package) {
        ProposedLeavesBooks(cfg, s, cfg.services.upgrade(s.remRoot, f, s.findings));
      } else if o.llm.Offered? {
        ProposedLeavesBooks(cfg, s, cfg.services.validate(s.remRoot, f, o.llm.proposal));
      }
    }
  }

  lemma {:induction false} VerifyBooks(cfg: Config, before: seq<Row>, s: State, o: Oracle)
    requires Booked(cfg, before, s.rows, s.log)
    ensures Booked(cfg, before, Verify(cfg, s, o).rows, Verify(cfg, s, o).log)
  {
    if Target(s).Some? && s.current.Some? && cfg.services.copy(s.remRoot, s.current.value.files).Some? {
      var f, files := Target(s).value, s.current.value.files;
      var tree := cfg.services.copy(s.remRoot, files).value;
      var v := cfg.services.judge(o.run, tree, f, s.baseline);
      if v.Judged? {
        CheckedBooks(cfg, before, s, f, files, tree, v, o.run);
      }
    }
  }

  lemma {:induction false} RecordBooks(cfg: Config, before: seq<Row>, s: State, outcome: Outcome)
    requires Booked(cfg, before, s.rows, s.log)
    ensures Booked(cfg, before, Record(cfg, s, outcome).rows, Record(cfg, s, outcome).log)
  {
    if Target(s).Some? {
      RecordedBooks(cfg, before, s, Target(s).value, outcome);
    }
  }

  lemma {:induction false} PreparedLeavesBooks(cfg: Config, s: State, targets: seq<string>, baselineTests: Answer<bool>)
    ensures Prepared(cfg, s, targets, baselineTests).rows == s.rows &&
        Prepared(cfg, s, targets, baselineTests).log == s.log
  {
  }

  lemma {:induction false} InitLeavesBooks(cfg: Config, s: State, o: Oracle)
    ensures Init(cfg, s, o).rows == s.rows && Init(cfg, s, o).log == s.log
  {
    PreparedLeavesBooks(cfg, s, Ids(cfg.services.select(s.findings)), o.baselineTests);
  }

  lemma {:induction false} NextLeavesBooks(s: State)
    ensures Next(s).rows == s.rows && Next(s).log == s.log
  {
  }

  lemma {:induction false} FinishLeavesBooks(s: State)
    ensures Finish(s).rows == s.rows && Finish(s).log == s.log
  {
  }

  lemma {:induction false} StepBooks(cfg: Config, before: seq<Row>, s: State, o: Oracle)
    requires Booked(cfg, before, s.rows, s.log)
    ensures Booked(cfg, before, Step(cfg, s, o).rows, Step(cfg, s, o).log)
  {
    match s.node
    case AtInit => InitLeavesBooks(cfg, s, o);
    case AtNext => NextLeavesBooks(s);
    case AtPropose => ProposeLeavesBooks(cfg, s, o);
    case AtVerify => VerifyBooks(cfg, before, s, o);
    case AtRecord(outcome) => RecordBooks(cfg, before, s, outcome);
    case AtFinish => FinishLeavesBooks(s);
    case AtEnd =>
    case Broken =>
  }

  /** In every state of every run exactly the accepted patches stand in the store as verified rows. */
  lemma {:induction false} RunBooks(cfg: Config, findings: seq<Finding>, root: Tree, rows: seq<Row>, nextId: nat,
                                    os: seq<Oracle>)
    ensures var s := Run(cfg, Start(findings, root, rows, nextId), os); Booked(cfg, rows, s.rows, s.log)
  {
    if os != [] {
      RunBooks(cfg, findings, root, rows, nextId, os[..|os| - 1]);
      StepBooks(cfg, rows, Run(cfg, Start(findings, root, rows, nextId), os[..|os| - 1]), os[|os| - 1]);
    }
  }

  // ----- Accepted fingerprints are distinct -----

  function LogIds(log: seq<Accepted>): seq<string> {
    if log == [] then [] else LogIds(log[..|log| - 1]) + [log[|log| - 1].finding.id]
  }

  /** The accepted findings are distinct targets. */
  lemma {:induction false} ExplainedIds(results: seq<Result>, log: seq<Accepted>)
    requires Explains(results, log) && Distinct(ResultIds(results))
    ensures Distinct(LogIds(log)) && forall id :: id in LogIds(log) ==> id in ResultIds(results)
  {
    if results != [] {
      var init, last := results[..|results| - 1], results[|results| - 1];
      PrefixOfDistinct(ResultIds(results), ResultIds(init), last.id);
      if last.outcome == Repaired {
        ExplainedIds(init, log[..|log| - 1]);
        SnocDistinct(LogIds(log[..|log| - 1]), last.id, ResultIds(init));
      } else {
        ExplainedIds(init, log);
      }
    }
  }

  lemma {:induction false} SnocDistinct(ids: seq<string>, id: string, among: seq<string>)
    requires Distinct(ids) && id !in among && forall x :: x in ids ==> x in among
    ensures Distinct(ids + [id]) && forall x :: x in ids + [id] ==> x in among + [id]
  {
    forall i | 0 <= i < |ids| ensures ids[i] != id {
      assert ids[i] in ids;
    }
  }

  lemma {:induction false} LogIdAt(log: seq<Accepted>, k: nat)
    requires k < |log|
    ensures |LogIds(log)| == |log| && LogIds(log)[k] == log[k].finding.id
    ensures |LogFixes(log)| == |log| && LogFixes(log)[k].fingerprint == log[k].finding.fingerprint
  {
    var n := |log| - 1;
    if n > 0 {
      LogIdAt(log[..n], if k < n then k else 0);
    }
  }

  lemma {:induction false} LogFingerprintsDistinct(cfg: Config, findings: seq<Finding>, log: seq<Accepted>)
    requires Vouched(cfg, findings, log) && Distinct(LogIds(log)) && DistinctBy(findings, Correlator.Fp)
    ensures DistinctBy(LogFixes(log), FixFingerprint)
  {
    if log != [] {
      LogIdAt(log, 0);
    }
    forall i, j | 0 <= i < j < |LogFixes(log)| ensures LogFixes(log)[i].fingerprint != LogFixes(log)[j].fingerprint {
      LogIdAt(log, i);
      LogIdAt(log, j);
      VouchedAt(cfg, findings, log, i);
      VouchedAt(cfg, findings, log, j);
      DifferentFingerprints(findings, log[i].finding, log[j].finding);
    }
  }

  lemma {:induction false} DifferentFingerprints(findings: seq<Finding>, f: Finding, g: Finding)
    requires DistinctBy(findings, Correlator.Fp) && f in findings && g in findings && f.id != g.id
    ensures f.fingerprint != g.fingerprint
  {
    var i :| 0 <= i < |findings| && findings[i] == f;
    var j :| 0 <= j < |findings| && findings[j] == g;
    assert Correlator.Fp(findings[i]) == f.fingerprint && Correlator.Fp(findings[j]) == g.fingerprint;
  }

  // ----- Replay -----

  lemma {:induction false} LogOverlay(log: seq<Accepted>)
    ensures LogFiles(log) == FixFiles(LogFixes(log))
  {
    if log != [] {
      var init := log[..|log| - 1];
      LogOverlay(init);
      assert LogFixes(log)[..|LogFixes(log)| - 1] == LogFixes(init);
    }
  }

  lemma {:induction false} RowFixAt(rows: seq<Row>, k: nat)
    requires k < |rows|
    ensures |RowFixes(rows)| == |rows| && RowFixes(rows)[k].fingerprint == rows[k].fingerprint
  {
    var n := |rows| - 1;
    if n > 0 {
      RowFixAt(rows[..n], if k < n then k else 0);
    }
  }

  /** Distinct fingerprints make the dictionary of the store harmless. */
  lemma {:induction false} DistinctRowsArePending(rows: seq<Row>, scanId: string)
    requires DistinctBy(RowFixes(VerifiedRows(rows, scanId)), FixFingerprint)
    ensures Pending(rows, scanId) == VerifiedRows(rows, scanId)
  {
    var verified := VerifiedRows(rows, scanId);
    forall i, j | 0 <= i < j < |verified| ensures RowFingerprint(verified[i]) != RowFingerprint(verified[j]) {
      RowFixAt(verified, i);
      RowFixAt(verified, j);
      assert FixFingerprint(RowFixes(verified)[i]) != FixFingerprint(RowFixes(verified)[j]);
    }
    DictOfDistinct(verified, RowFingerprint);
  }

  /** Replaying the pull request reproduces the verified tree: after one finished run over findings with distinct ids
      and fingerprints, for a scan without earlier verified rows, writing the files of the pending rows in order over
      the scanned tree gives the verified tree on every path that a working copy holds. */
  lemma {:induction false} ReplayReproducesTree(t: Settings, maxAttempts: int, scanId: string, findings: seq<Finding>,
                                                root: Tree, rows: seq<Row>, nextId: nat, os: seq<Oracle>)
    requires scanId != "" && VerifiedRows(rows, scanId) == []
    requires Distinct(Ids(findings)) && DistinctBy(findings, Correlator.Fp)
    requires Run(TheConfig(t, maxAttempts, true, scanId), Start(findings, root, rows, nextId), os).node == AtEnd
    ensures var s := Run(TheConfig(t, maxAttempts, true, scanId), Start(findings, root, rows, nextId), os);
            && Visible(root + PullRequest.Overlay(Pending(s.rows, scanId))) == Visible(s.remRoot)
            && PullRequest.Overlay(Pending(s.rows, scanId)) == s.finalFiles
            && DistinctBy(VerifiedRows(s.rows, scanId), RowFingerprint)
  {
    var cfg := TheConfig(t, maxAttempts, true, scanId);
    var s := Run(cfg, Start(findings, root, rows, nextId), os);
    RunTrees(cfg, findings, root, rows, nextId, os);
    EndFacts(t, cfg, findings, root, rows, nextId, os);
    RunBooks(cfg, findings, root, rows, nextId, os);
    BooksReplay(cfg, findings, root, rows, s);
  }

  lemma {:induction false} BooksReplay(cfg: Config, findings: seq<Finding>, root: Tree, rows: seq<Row>, s: State)
    requires Trees(cfg, findings, root, s) && s.node == AtEnd && Distinct(ResultIds(s.results))
    requires Persists(cfg) && Booked(cfg, rows, s.rows, s.log) && VerifiedRows(rows, cfg.scanId) == []
    requires DistinctBy(findings, Correlator.Fp) && cfg.services.copy == Copy
    ensures Visible(root + PullRequest.Overlay(Pending(s.rows, cfg.scanId))) == Visible(s.remRoot)
    ensures PullRequest.Overlay(Pending(s.rows, cfg.scanId)) == s.finalFiles
    ensures DistinctBy(VerifiedRows(s.rows, cfg.scanId), RowFingerprint)
  {
    ExplainedIds(s.results, s.log);
    LogFingerprintsDistinct(cfg, findings, s.log);
    VerifiedRowFixes(rows, cfg.scanId);
    VerifiedRowFixes(s.rows, cfg.scanId);
    assert [] + LogFixes(s.log) == LogFixes(s.log);
    DistinctRowsArePending(s.rows, cfg.scanId);
    DictKeysDistinct(VerifiedRows(s.rows, cfg.scanId), RowFingerprint);
    RowsOverlay(Pending(s.rows, cfg.scanId));
    LogOverlay(s.log);
    ExplainedFiles(s.results, s.log);
    TipIsOverlay(cfg, root, s.log);
  }

  /** For any earlier rows of the scan, those of a retried scan included, and any repeated ids or fingerprints: at a
      path that a working copy holds, the branch gets what replaying all verified fixes of the scan gives, the
      verified tree has what the fixes of this run give in their order, and the two agree exactly when these texts
      are the same. */
  lemma {:induction false} ReplayEqualsTreeExactly(
      t: Settings, maxAttempts: int, scanId: string, findings: seq<Finding>, root: Tree, rows: seq<Row>, nextId: nat,
      os: seq<Oracle>, path: string)
    requires scanId != "" && !Hidden(path)
    requires Run(TheConfig(t, maxAttempts, true, scanId), Start(findings, root, rows, nextId), os).node == AtEnd
    ensures var s := Run(TheConfig(t, maxAttempts, true, scanId), Start(findings, root, rows, nextId), os);
            var own, all := LogFixes(s.log), ScanFixes(rows, scanId) + LogFixes(s.log);
            var branch := root + PullRequest.Overlay(Pending(s.rows, scanId));
            && ScanFixes(s.rows, scanId) == all
            && ReplayGives(all, root, path, At(branch, path))
            && OrderGives(own, root, path, At(s.remRoot, path))
            && (At(branch, path) == At(s.remRoot, path) <==>
                  exists text :: ReplayGives(all, root, path, text) && OrderGives(own, root, path, text))
  {
    var cfg := TheConfig(t, maxAttempts, true, scanId);
    var s := Run(cfg, Start(findings, root, rows, nextId), os);
    RunTrees(cfg, findings, root, rows, nextId, os);
    RunBooks(cfg, findings, root, rows, nextId, os);
    PathReplays(cfg, findings, root, rows, s, path);
  }

  lemma {:induction false} PathReplays(cfg: Config, findings: seq<Finding>, root: Tree, rows: seq<Row>, s: State,
                                       path: string)
    requires Trees(cfg, findings, root, s) && Persists(cfg) && Booked(cfg, rows, s.rows, s.log)
    requires cfg.services.copy == Copy && !Hidden(path)
    ensures var own, all := LogFixes(s.log), ScanFixes(rows, cfg.scanId) + LogFixes(s.log);
            var branch := root + PullRequest.Overlay(Pending(s.rows, cfg.scanId));
            && ScanFixes(s.rows, cfg.scanId) == all
            && ReplayGives(all, root, path, At(branch, path))
            && OrderGives(own, root, path, At(s.remRoot, path))
            && (At(branch, path) == At(s.remRoot, path) <==>
                  exists text :: ReplayGives(all, root, path, text) && OrderGives(own, root, path, text))
  {
    var own, all := LogFixes(s.log), ScanFixes(rows, cfg.scanId) + LogFixes(s.log);
    var branch := root + PullRequest.Overlay(Pending(s.rows, cfg.scanId));
    PendingOverlay(s.rows, cfg.scanId);
    LogOverlay(s.log);
    TipIsOverlay(cfg, root, s.log);
    SeenThrough(s.remRoot, root + FixFiles(own), path);
    forall text
      ensures ReplayGives(all, root, path, text) <==> text == At(branch, path)
      ensures OrderGives(own, root, path, text) <==> text == At(s.remRoot, path)
    {
      ReplayOver(all, root, path, text);
      OrderOver(own, root, path, text);
    }
  }

  /** Findings that come from the correlator, analyzed or not, have distinct fingerprints. */
  lemma {:induction false} CorrelatedScanHasDistinctPrints(raw: seq<Finding>, findings: seq<Finding>)
    requires forall f :: f in raw ==> Correlator.WellFormed(f)
    requires Fingerprints(findings) == Fingerprints(Correlator.Correlated(raw))
    ensures DistinctBy(findings, Correlator.Fp)
  {
    Correlator.CorrelateDistinct(raw);
    var prints := Fingerprints(findings);
    forall i, j | 0 <= i < j < |findings| ensures Correlator.Fp(findings[i]) != Correlator.Fp(findings[j]) {
      assert prints[i] != prints[j];
    }
  }

  /** The condition is needed. When a fingerprint was verified again after another fix, as a second run of the same scan
      can do, the dictionary moves the newer row to the place of the older one: the other fix then overwrites it, and
      the replay differs from the rows in their order. */
  lemma {:induction false} RepeatedPrintReplaysOutOfOrder(a: Row, b: Row, c: Row, scanId: string, path: string)
    requires AwaitsApproval(a, scanId) && AwaitsApproval(b, scanId) && AwaitsApproval(c, scanId)
    requires a.fingerprint == c.fingerprint != b.fingerprint
    requires path in b.files && path in c.files && b.files[path] != c.files[path]
    ensures VerifiedRows([a, b, c], scanId) == [a, b, c] && Pending([a, b, c], scanId) == [c, b]
    ensures path in PullRequest.Overlay([c, b]) && PullRequest.Overlay([c, b])[path] == b.files[path]
    ensures path in PullRequest.Overlay([a, b, c]) && PullRequest.Overlay([a, b, c])[path] == c.files[path]
  {
    var keep := (r: Row) => AwaitsApproval(r, scanId);
    FilterThree(a, b, c, keep);
    DictThree(a, b, c, RowFingerprint);
    assert [c, b][..1] == [c];
  }

  lemma {:induction false} FilterThree<T>(a: T, b: T, c: T, keep: T -> bool)
    requires keep(a) && keep(b) && keep(c)
    ensures Filter([a, b, c], keep) == [a, b, c]
  {
    FilterSnoc([a, b], c, keep);
    FilterSnoc([a], b, keep);
    FilterSnoc([], a, keep);
    assert [a, b] + [c] == [a, b, c] && [a] + [b] == [a, b] && [] + [a] == [a];
  }

  lemma {:induction false} DictThree<T, K>(a: T, b: T, c: T, key: T -> K)
    requires key(a) == key(c) && key(a) != key(b)
    ensures DictValues([a, b, c], key) == [c, b]
  {
    var one, two, three := [a], [a, b], [a, b, c];
    assert three[..2] == two && two[..1] == one && one[..0] == [];
    assert DictValues([], key) == [];
    assert DictValues(one, key) == [a];
    assert DictValues(two, key) == [a, b];
    assert IndexOfKey([a, b], key, key(c)) == Some(0);
  }
}
