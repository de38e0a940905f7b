/** A whole run changes nothing but the files of the findings it repaired (backend/graph/remediation.py with the
    guardrails of backend/services/remediation.py). */
module RemediationScope {
  import opened Prelude
  import opened Findings
  import opened Patching
  import Upgrades
  import opened Verification
  import opened Store
  import opened Remediation
  import opened RemediationRuns
  import opened RemediationTrees

  /** Every patch that the services offer changes exactly the file of its finding. */
  ghost predicate OwnFileOnly(services: Services) {
    && (forall tree, f, all :: Narrow(services.upgrade(tree, f, all), f))
    && (forall tree, f, p :: Narrow(services.validate(tree, f, p), f))
  }

  predicate Narrow(check: PatchCheck, f: Finding) {
    check.ok && check.patch.Some? ==> check.patch.value.files.Keys == {f.file}
  }

  lemma {:induction false} DeployedIsNarrow(t: Settings)
    ensures OwnFileOnly(TheServices(t))
  {
    var services := TheServices(t);
    forall tree, f, all ensures Narrow(services.upgrade(tree, f, all), f) {
      UpgradeIsNarrow(t.env, tree, f, DictValues(all, IdOf));
    }
    forall tree, f, p ensures Narrow(services.validate(tree, f, p), f) {
      ValidatedIsNarrow(t.env, tree, f, p);
    }
  }

  lemma {:induction false} UpgradeIsNarrow(env: Env, tree: Tree, f: Finding, all: seq<Finding>)
    ensures Narrow(Upgrades.DependencyPatch(env, tree, f, all), f)
  {
    Upgrades.UpgradeIsExact(env, tree, f, all);
  }

  lemma {:induction false} ValidatedIsNarrow(env: Env, tree: Tree, f: Finding, p: Proposal)
    ensures Narrow(Validated(env, tree, f, p, {}), f)
  {
    if Validated(env, tree, f, p, {}).ok {
      AcceptedTouchesOnlyItsFile(env, tree, f, p);
    }
  }

  /** The current patch is for the file of the current target. */
  predicate CurrentFits(current: Option<AppliedPatch>, f: Option<Finding>) {
    current.Some? && f.Some? ==> current.value.files.Keys == {f.value.file}
  }

  predicate LogFits(log: seq<Accepted>) {
    log == [] || (log[|log| - 1].files.Keys == {log[|log| - 1].finding.file} && LogFits(log[..|log| - 1]))
  }

  predicate Fits(s: State) {
    LogFits(s.log) && (s.node == AtVerify ==> CurrentFits(s.current, Target(s)))
  }

  // ----- Every step keeps the scope -----

  lemma {:induction false} AcceptFits(cfg: Config, s: State, f: Finding, patch: AppliedPatch)
    requires Fits(s) && Target(s) == Some(f) && patch.files.Keys == {f.file}
    ensures Fits(Accept(cfg, s, patch))
  {
  }

  lemma {:induction false} RefuseFits(cfg: Config, s: State, errors: seq<PatchError>, declined: bool)
    requires Fits(s)
    ensures Fits(Refuse(cfg, s, errors, declined))
  {
  }

  lemma {:induction false} ProposedFits(cfg: Config, s: State, f: Finding, check: PatchCheck)
    requires Fits(s) && Target(s) == Some(f) && Narrow(check, f)
    ensures Fits(Proposed(cfg, s, check))
  {
    if check.ok && check.patch.Some? {
      AcceptFits(cfg, s, f, check.patch.value);
    } else {
      RefuseFits(cfg, s, check.errors, exists e :: e in check.errors && cfg.declines(e));
    }
  }

  lemma {:induction false} LlmFailedFits(s: State)
    requires Fits(s)
    ensures Fits(LlmFailed(s))
  {
  }

  lemma {:induction false} BrokenFits(s: State)
    requires Fits(s)
    ensures Fits(s.(node := Broken))
  {
  }

  lemma {:induction false} ProposeFits(cfg: Config, s: State, o: Oracle)
    requires Fits(s) && OwnFileOnly(cfg.services)
    ensures Fits(Propose(cfg, s, o))
  {
    BrokenFits(s);
    LlmFailedFits(s);
    if Target(s).Some? {
      var f := Target(s).value;
      if Truthy(f.package) {
        ProposedFits(cfg, s, f, cfg.services.upgrade(s.remRoot, f, s.findings));
      } else if o.llm.Offered? {
        ProposedFits(cfg, s, f, cfg.services.validate(s.remRoot, f, o.llm.proposal));
      }
    }
  }

  lemma {:induction false} LogFitsSnoc(log: seq<Accepted>, a: Accepted)
    requires LogFits(log) && a.files.Keys == {a.finding.file}
    ensures LogFits(log + [a])
  {
    assert (log + [a])[..|log|] == log;
  }

  lemma {:induction false} CheckedFits(cfg: Config, s: State, f: Finding, files: Tree, tree: Tree, v: Judgement,
                                       run: ToolRun)
    requires LogFits(s.log) && files.Keys == {f.file} && v.Judged?
    ensures Fits(Checked(cfg, s, f, files, tree, v, run))
  {
    LogFitsSnoc(s.log, Accepted(f, files, tree, run, v.checks));
    CheckedMovesOn(cfg, s, f, files, tree, v, run);
  }

  lemma {:induction false} CheckedMovesOn(cfg: Config, s: State, f: Finding, files: Tree, tree: Tree, v: Judgement,
                                        run: ToolRun)
    requires v.Judged?
    ensures var next := Checked(cfg, s, f, files, tree, v, run);
            next.node != AtVerify &&
                next.log == if v.passed then s.log + [Accepted(f, files, tree, run, v.checks)] else s.log
  {
  }

  lemma {:induction false} VerifyFits(cfg: Config, s: State, o: Oracle)
    requires Fits(s) && s.node == AtVerify
    ensures Fits(Verify(cfg, s, o))
  {
    BrokenFits(s);
    if Target(s).Some? && s.current.Some? && cfg.services.copy(s.remRoot, s.current.value.files).Some? {
      var f, files := Target(s).value, s.current.value.files;
      var tree := cfg.services.copy(s.remRoot, files).value;
      var v := cfg.services.judge(o.run, tree, f, s.baseline);
      if v.Judged? {
        CheckedFits(cfg, s, f, files, tree, v, o.run);
      }
    }
  }

  lemma {:induction false} InitFits(cfg: Config, s: State, targets: seq<string>, baselineTests: Answer<bool>)
    requires Fits(s)
    ensures Fits(Prepared(cfg, s, targets, baselineTests))
  {
  }

  lemma {:induction false} RecordFits(cfg: Config, s: State, outcome: Outcome)
    requires Fits(s)
    ensures Fits(Record(cfg, s, outcome))
  {
  }

  lemma {:induction false} StepFits(cfg: Config, s: State, o: Oracle)
    requires Fits(s) && OwnFileOnly(cfg.services)
    ensures Fits(Step(cfg, s, o))
  {
    match s.node
    case AtInit => InitFits(cfg, s, Ids(cfg.services.select(s.findings)), o.baselineTests);
    case AtNext =>
    case AtPropose => ProposeFits(cfg, s, o);
    case AtVerify => VerifyFits(cfg, s, o);
    case AtRecord(outcome) => RecordFits(cfg, s, outcome);
    case AtFinish =>
    case AtEnd =>
    case Broken =>
  }

  lemma {:induction false} RunFits(cfg: Config, findings: seq<Finding>, root: Tree, rows: seq<Row>, nextId: nat,
                                   os: seq<Oracle>)
    requires OwnFileOnly(cfg.services)
    ensures Fits(Run(cfg, Start(findings, root, rows, nextId), os))
  {
    if os != [] {
      RunFits(cfg, findings, root, rows, nextId, os[..|os| - 1]);
      StepFits(cfg, Run(cfg, Start(findings, root, rows, nextId), os[..|os| - 1]), os[|os| - 1]);
    }
  }

  // ----- What a run can change -----

  /** `path` is the file of a finding that was repaired. */
  ghost predicate RepairedFile(log: seq<Accepted>, path: string) {
    exists k :: 0 <= k < |log| && log[k].finding.file == path
  }

  lemma {:induction false} LogTouches(log: seq<Accepted>, path: string)
    requires LogFits(log) && path in LogFiles(log)
    ensures RepairedFile(log, path)
  {
    var n := |log| - 1;
    if path in log[n].files {
      assert log[n].finding.file == path;
    } else {
      LogTouches(log[..n], path);
      var k :| 0 <= k < n && log[..n][k].finding.file == path;
      assert log[k].finding.file == path;
    }
  }

  /** In every state of every run, whatever the model proposed, each file that is not the file of a repaired finding is
      in the working tree as it was scanned; ignored paths aside. */
  lemma {:induction false} OnlyRepairedFilesChange(t: Settings, maxAttempts: int, persist: bool, scanId: string,
                                                   findings: seq<Finding>, root: Tree, rows: seq<Row>, nextId: nat,
                                                   os: seq<Oracle>, path: string)
    requires !Hidden(path)
    requires !RepairedFile(Run(TheConfig(t, maxAttempts, persist, scanId), Start(findings, root, rows, nextId),
        os).log, path)
    ensures var s := Run(TheConfig(t, maxAttempts, persist, scanId), Start(findings, root, rows, nextId), os);
            && (path in s.remRoot <==> path in root)
            && (path in root ==> s.remRoot[path] == root[path])
  {
    var cfg := TheConfig(t, maxAttempts, persist, scanId);
    var s := Run(cfg, Start(findings, root, rows, nextId), os);
    DeployedIsNarrow(t);
    RunFits(cfg, findings, root, rows, nextId, os);
    RunTrees(cfg, findings, root, rows, nextId, os);
    TipIsOverlay(cfg, root, s.log);
    UntouchedPath(s.remRoot, root, s.log, path);
  }

  lemma {:induction false} UntouchedPath(tip: Tree, root: Tree, log: seq<Accepted>, path: string)
    requires Visible(tip) == Visible(root + LogFiles(log)) && !Hidden(path)
    requires LogFits(log) && !RepairedFile(log, path)
    ensures path in tip <==> path in root
    ensures path in root ==> path in tip && tip[path] == root[path]
  {
    var whole := root + LogFiles(log);
    if path in LogFiles(log) {
      LogTouches(log, path);
    }
    assert path in whole <==> path in root;
    SeenThrough(tip, whole, path);
  }

  /** Results other than repaired ones carry no files, and a repaired one shows every check as passed. */
  lemma {:induction false} ResultsAreHonest(t: Settings, maxAttempts: int, persist: bool, scanId: string,
                                            findings: seq<Finding>, root: Tree, rows: seq<Row>, nextId: nat,
                                            os: seq<Oracle>, k: nat)
    requires k < |Run(TheConfig(t, maxAttempts, persist, scanId), Start(findings, root, rows, nextId), os).results|
    ensures var r := Run(TheConfig(t, maxAttempts, persist, scanId), Start(findings, root, rows, nextId),
        os).results[k];
            if r.outcome == Repaired then AllGreen(r.checks, t.requireTests) else r.files == map[]
  {
    var cfg := TheConfig(t, maxAttempts, persist, scanId);
    var s := Run(cfg, Start(findings, root, rows, nextId), os);
    RunTrees(cfg, findings, root, rows, nextId, os);
    var log := if s.node == AtRecord(Repaired) then s.log[..|s.log| - 1] else s.log;
    HonestAt(t, cfg, findings, s.results, log, k);
  }

  lemma {:induction false} HonestAt(t: Settings, cfg: Config, findings: seq<Finding>, results: seq<Result>,
                                    log: seq<Accepted>, k: nat)
    requires cfg.services == TheServices(t) && Vouched(cfg, findings, log) && Explains(results, log) && k < |results|
    ensures if results[k].outcome == Repaired then AllGreen(results[k].checks, t.requireTests)
            else results[k].files == map[]
  {
    var n := |results| - 1;
    if k == n && results[n].outcome == Repaired {
      VouchIsConfirmation(t, cfg, findings, log[|log| - 1]);
    } else if k < n {
      HonestAt(t, cfg, findings, results[..n], if results[n].outcome == Repaired then log[..|log| - 1] else log, k);
    }
  }
}
