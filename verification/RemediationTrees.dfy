/** What every run of the remediation machine does to the working tree: it changes only by verified patches, in the
    order of the results, and every tree it passes through was confirmed by the tools. */
module RemediationTrees {
  import opened Prelude
  import opened Findings
  import opened Patching
  import opened Verification
  import opened Store
  import opened Remediation
  import opened RemediationRuns

  // ----- The log of accepted patches -----

  /** The tree of the last accepted patch. */
  function Tip(root: Tree, log: seq<Accepted>): Tree {
    if log == [] then root else log[|log| - 1].tree
  }

  /** Every accepted tree is the copy of the one before it with the accepted files. */
  predicate Chain(cfg: Config, root: Tree, log: seq<Accepted>) {
    log == [] ||
    (var init, last := log[..|log| - 1], log[|log| - 1];
     Chain(cfg, root, init) && cfg.services.copy(Tip(root, init), last.files) == Some(last.tree))
  }

  /** The tools passed this tree, for a finding of the scan and against the findings of the scan. */
  predicate VouchedFor(cfg: Config, findings: seq<Finding>, a: Accepted) {
    var v := cfg.services.judge(a.run, a.tree, a.finding, findings);
    v.Judged? && v.passed && v.checks == a.checks && a.finding in findings
  }

  predicate Vouched(cfg: Config, findings: seq<Finding>, log: seq<Accepted>) {
    log == [] || (VouchedFor(cfg, findings, log[|log| - 1]) && Vouched(cfg, findings, log[..|log| - 1]))
  }

  predicate Describes(r: Result, a: Accepted) {
    r.id == a.finding.id && r.fingerprint == a.finding.fingerprint && r.files == a.files && r.checks == a.checks
  }

  /** The repaired results describe the accepted patches one by one, and no other result carries files. */
  predicate Explains(results: seq<Result>, log: seq<Accepted>) {
    if results == [] then log == []
    else
      var init, last := results[..|results| - 1], results[|results| - 1];
      if last.outcome == Repaired then
        log != [] && Describes(last, log[|log| - 1]) && Explains(init, log[..|log| - 1])
      else last.files == map[] && Explains(init, log)
  }

  /** The patch that waits to be recorded. */
  predicate Awaits(f: Option<Finding>, current: Option<AppliedPatch>, history: seq<Entry>, a: Accepted) {
    && f == Some(a.finding) && current.Some? && current.value.files == a.files && LastChecks(history) == a.checks
  }

  predicate Accounted(s: State) {
    if s.node == AtRecord(Repaired) then
      && s.log != [] && Awaits(Target(s), s.current, s.history, s.log[|s.log| - 1])
      && Explains(s.results, s.log[..|s.log| - 1])
    else Explains(s.results, s.log)
  }

  predicate Trees(cfg: Config, findings: seq<Finding>, root: Tree, s: State) {
    && s.root == root && s.remRoot == Tip(root, s.log)
    && Chain(cfg, root, s.log)
    && Vouched(cfg, findings, s.log)
    && Accounted(s)
    && (s.node == AtEnd ==> s.finalFiles == FilesOf(s.results) && s.findings == Updated(findings, s.results))
  }

  lemma {:induction false} LogExtends(cfg: Config, findings: seq<Finding>, root: Tree, log: seq<Accepted>, a: Accepted)
    requires Chain(cfg, root, log) && Vouched(cfg, findings, log)
    requires cfg.services.copy(Tip(root, log), a.files) == Some(a.tree) && VouchedFor(cfg, findings, a)
    ensures Chain(cfg, root, log + [a]) && Vouched(cfg, findings, log + [a])
  {
    assert (log + [a])[..|log|] == log;
  }

  lemma {:induction false} ExplainsSnoc(results: seq<Result>, log: seq<Accepted>, r: Result)
    ensures (r.outcome == Repaired && log != [] && Describes(r, log[|log| - 1]) &&
             Explains(results, log[..|log| - 1])) ==> Explains(results + [r], log)
    ensures (r.outcome != Repaired && r.files == map[] && Explains(results, log)) ==> Explains(results + [r], log)
  {
    assert (results + [r])[..|results|] == results;
  }

  // ----- Every step keeps the trees -----

  lemma {:induction false} ReadyTrees(cfg: Config, findings: seq<Finding>, root: Tree, s: State, targets: seq<string>)
    requires Control(cfg, findings, s) && Trees(cfg, findings, root, s) && s.node == AtInit
    ensures Trees(cfg, findings, root, Ready(s, targets))
  {
  }

  lemma {:induction false} BrokenTrees(cfg: Config, findings: seq<Finding>, root: Tree, s: State,
                                       baseline: seq<Finding>)
    requires Trees(cfg, findings, root, s) && s.node != AtRecord(Repaired)
    ensures Trees(cfg, findings, root, s.(node := Broken)) &&
        Trees(cfg, findings, root, s.(node := Broken, baseline := baseline))
  {
  }

  lemma {:induction false} NextTrees(cfg: Config, findings: seq<Finding>, root: Tree, s: State)
    requires Trees(cfg, findings, root, s) && s.node == AtNext
    ensures Trees(cfg, findings, root, Next(s))
  {
  }

  lemma {:induction false} AcceptTrees(cfg: Config, findings: seq<Finding>, root: Tree, s: State, patch: AppliedPatch)
    requires Trees(cfg, findings, root, s) && s.node == AtPropose
    ensures Trees(cfg, findings, root, Accept(cfg, s, patch))
  {
  }

  lemma {:induction false} RefuseTrees(cfg: Config, findings: seq<Finding>, root: Tree, s: State,
                                       errors: seq<PatchError>, declined: bool)
    requires Trees(cfg, findings, root, s) && s.node == AtPropose
    ensures Trees(cfg, findings, root, Refuse(cfg, s, errors, declined))
  {
  }

  lemma {:induction false} LlmFailedTrees(cfg: Config, findings: seq<Finding>, root: Tree, s: State)
    requires Trees(cfg, findings, root, s) && s.node == AtPropose
    ensures Trees(cfg, findings, root, LlmFailed(s))
  {
  }

  lemma {:induction false} ProposedTrees(cfg: Config, findings: seq<Finding>, root: Tree, s: State, check: PatchCheck)
    requires Trees(cfg, findings, root, s) && s.node == AtPropose
    ensures Trees(cfg, findings, root, Proposed(cfg, s, check))
  {
    if check.ok && check.patch.Some? {
      AcceptTrees(cfg, findings, root, s, check.patch.value);
    } else {
      RefuseTrees(cfg, findings, root, s, check.errors, exists e :: e in check.errors && cfg.declines(e));
    }
  }

  lemma {:induction false} ProposeTrees(cfg: Config, findings: seq<Finding>, root: Tree, s: State, o: Oracle)
    requires Trees(cfg, findings, root, s) && s.node == AtPropose
    ensures Trees(cfg, findings, root, Propose(cfg, s, o))
  {
    BrokenTrees(cfg, findings, root, s, s.baseline);
    LlmFailedTrees(cfg, findings, root, s);
    if Target(s).Some? {
      var f := Target(s).value;
      if Truthy(f.package) {
        ProposedTrees(cfg, findings, root, s, cfg.services.upgrade(s.remRoot, f, s.findings));
      } else if o.llm.Offered? {
        ProposedTrees(cfg, findings, root, s, cfg.services.validate(s.remRoot, f, o.llm.proposal));
      }
    }
  }

  lemma {:induction false} PassedTrees(cfg: Config, findings: seq<Finding>, root: Tree, s: State, f: Finding,
                                       files: Tree, tree: Tree, v: Judgement, run: ToolRun)
    requires Trees(cfg, findings, root, s) && s.node == AtVerify && v.Judged? && v.passed
    requires Target(s) == Some(f) && f in findings && s.current.Some? && s.current.value.files == files
    requires cfg.services.copy(s.remRoot, files) == Some(tree) && cfg.services.judge(run, tree, f, findings) == v
    ensures Trees(cfg, findings, root, Checked(cfg, s, f, files, tree, v, run))
  {
    var a := Accepted(f, files, tree, run, v.checks);
    LogExtends(cfg, findings, root, s.log, a);
    assert (s.log + [a])[..|s.log|] == s.log;
  }

  lemma {:induction false} FailedTrees(cfg: Config, findings: seq<Finding>, root: Tree, s: State, f: Finding,
                                       files: Tree, tree: Tree, v: Judgement, run: ToolRun)
    requires Trees(cfg, findings, root, s) && s.node == AtVerify && v.Judged? && !v.passed
    ensures Trees(cfg, findings, root, Checked(cfg, s, f, files, tree, v, run))
  {
  }

  lemma {:induction false} VerifyTrees(cfg: Config, findings: seq<Finding>, root: Tree, s: State, o: Oracle)
    requires Control(cfg, findings, s) && Trees(cfg, findings, root, s) && s.node == AtVerify
    ensures Trees(cfg, findings, root, Verify(cfg, s, o))
  {
    BrokenTrees(cfg, findings, root, s, s.baseline);
    if Target(s).Some? && s.current.Some? && cfg.services.copy(s.remRoot, s.current.value.files).Some? {
      var f, files := Target(s).value, s.current.value.files;
      var tree := cfg.services.copy(s.remRoot, files).value;
      var v := cfg.services.judge(o.run, tree, f, s.baseline);
      if v.Judged? && v.passed {
        PassedTrees(cfg, findings, root, s, f, files, tree, v, o.run);
      } else if v.Judged? {
        FailedTrees(cfg, findings, root, s, f, files, tree, v, o.run);
      }
    }
  }

  lemma {:induction false} RecordTrees(cfg: Config, findings: seq<Finding>, root: Tree, s: State, outcome: Outcome)
    requires Trees(cfg, findings, root, s) && s.node == AtRecord(outcome)
    ensures Trees(cfg, findings, root, Record(cfg, s, outcome))
  {
    if Target(s).Some? {
      var next := Recorded(cfg, s, Target(s).value, outcome);
      ExplainsSnoc(s.results, s.log, next.results[|s.results|]);
    } else {
      BrokenTrees(cfg, findings, root, s, s.baseline);
    }
  }

  lemma {:induction false} StepTrees(cfg: Config, findings: seq<Finding>, root: Tree, s: State, o: Oracle)
    requires Control(cfg, findings, s) && Trees(cfg, findings, root, s)
    ensures Trees(cfg, findings, root, Step(cfg, s, o))
  {
    match s.node
    case AtInit =>
      BrokenTrees(cfg, findings, root, s, s.findings);
      ReadyTrees(cfg, findings, root, s, SelectedIds(cfg, findings));
      ReadyTrees(cfg, findings, root, s, []);
    case AtNext => NextTrees(cfg, findings, root, s);
    case AtPropose => ProposeTrees(cfg, findings, root, s, o);
    case AtVerify => VerifyTrees(cfg, findings, root, s, o);
    case AtRecord(outcome) => RecordTrees(cfg, findings, root, s, outcome);
    case AtFinish =>
    case AtEnd =>
    case Broken =>
  }

  lemma {:induction false} StartTrees(cfg: Config, findings: seq<Finding>, root: Tree, rows: seq<Row>, nextId: nat)
    ensures Trees(cfg, findings, root, Start(findings, root, rows, nextId))
  {
  }

  /** Every state of every run accounts for its tree. */
  lemma {:induction false} RunTrees(cfg: Config, findings: seq<Finding>, root: Tree, rows: seq<Row>, nextId: nat,
                                    os: seq<Oracle>)
    ensures Trees(cfg, findings, root, Run(cfg, Start(findings, root, rows, nextId), os))
  {
    if os == [] {
      StartTrees(cfg, findings, root, rows, nextId);
    } else {
      var init := os[..|os| - 1];
      RunTrees(cfg, findings, root, rows, nextId, init);
      RunControl(cfg, findings, root, rows, nextId, init);
      StepTrees(cfg, findings, root, Run(cfg, Start(findings, root, rows, nextId), init), os[|os| - 1]);
    }
  }

  // ----- What this means for the deployed machine -----

  /** The files of the accepted patches, later ones over earlier ones. */
  function LogFiles(log: seq<Accepted>): Tree {
    if log == [] then map[] else LogFiles(log[..|log| - 1]) + log[|log| - 1].files
  }

  lemma {:induction false} ExplainedFiles(results: seq<Result>, log: seq<Accepted>)
    requires Explains(results, log)
    ensures FilesOf(results) == LogFiles(log)
  {
    if results != [] {
      var init, last := results[..|results| - 1], results[|results| - 1];
      if last.outcome == Repaired {
        ExplainedFiles(init, log[..|log| - 1]);
      } else {
        ExplainedFiles(init, log);
        NothingAdded(FilesOf(init));
      }
    }
  }

  lemma {:induction false} NothingAdded(t: Tree)
    ensures t + map[] == t
  {
  }

  /** Working copies leave ignored paths out; on every other path the tip is the root overridden by the log. */
  lemma {:induction false} TipIsOverlay(cfg: Config, root: Tree, log: seq<Accepted>)
    requires Chain(cfg, root, log) && cfg.services.copy == Copy
    ensures Visible(Tip(root, log)) == Visible(root + LogFiles(log))
  {
    if log == [] {
      NothingAdded(root);
    } else {
      var init, last := log[..|log| - 1], log[|log| - 1];
      TipIsOverlay(cfg, root, init);
      VisibleOverride(Tip(root, init), last.files);
      VisibleOverride(root + LogFiles(init), last.files);
      OverrideThree(root, LogFiles(init), last.files);
    }
  }

  /** The files that a state has written into its working tree: those of its results, and those of a verified patch
      that is about to be recorded. */
  function Written(s: State): Tree {
    FilesOf(s.results) + if s.node == AtRecord(Repaired) && s.current.Some? then s.current.value.files else map[]
  }

  lemma {:induction false} WrittenIsLog(cfg: Config, findings: seq<Finding>, root: Tree, s: State)
    requires Trees(cfg, findings, root, s)
    ensures Written(s) == LogFiles(s.log)
  {
    if s.node == AtRecord(Repaired) {
      ExplainedFiles(s.results, s.log[..|s.log| - 1]);
    } else {
      ExplainedFiles(s.results, s.log);
      NothingAdded(FilesOf(s.results));
    }
  }

  /** In every state of every run the working tree is the scanned tree overridden, in order, by exactly the files of
      the verified results: failed, rejected and declined attempts leave no trace. */
  lemma {:induction false} TreeIsVerifiedFixes(t: Settings, maxAttempts: int, persist: bool, scanId: string,
                                               findings: seq<Finding>, root: Tree, rows: seq<Row>, nextId: nat,
                                               os: seq<Oracle>)
    ensures var s := Run(TheConfig(t, maxAttempts, persist, scanId), Start(findings, root, rows, nextId), os);
            && Visible(s.remRoot) == Visible(root + Written(s))
            && (s.log == [] ==> s.remRoot == root)
            && (s.node == AtEnd ==> s.finalFiles == Written(s))
  {
    var cfg := TheConfig(t, maxAttempts, persist, scanId);
    var s := Run(cfg, Start(findings, root, rows, nextId), os);
    RunTrees(cfg, findings, root, rows, nextId, os);
    WrittenIsLog(cfg, findings, root, s);
    TipIsOverlay(cfg, root, s.log);
    NothingAdded(FilesOf(s.results));
  }

  // ----- Verified means checked -----

  lemma {:induction false} VouchedAt(cfg: Config, findings: seq<Finding>, log: seq<Accepted>, k: nat)
    requires Vouched(cfg, findings, log) && k < |log|
    ensures VouchedFor(cfg, findings, log[k])
  {
    if k < |log| - 1 {
      VouchedAt(cfg, findings, log[..|log| - 1], k);
    }
  }

  /** Every tree that ever becomes the working tree was confirmed by the tools, for its own finding and against the
      findings that the scan started with; the last of them is the working tree. */
  lemma {:induction false} VerifiedMeansChecked(t: Settings, maxAttempts: int, persist: bool, scanId: string,
                                                findings: seq<Finding>, root: Tree, rows: seq<Row>, nextId: nat,
                                                os: seq<Oracle>, k: nat)
    requires k < |Run(TheConfig(t, maxAttempts, persist, scanId), Start(findings, root, rows, nextId), os).log|
    ensures var s := Run(TheConfig(t, maxAttempts, persist, scanId), Start(findings, root, rows, nextId), os);
            && s.log[k].finding in findings
            && Confirmed(s.log[k].run, t.hasTests(s.log[k].tree), t.requireTests, s.log[k].finding, findings)
            && AllGreen(s.log[k].checks, t.requireTests)
            && s.remRoot == s.log[|s.log| - 1].tree
  {
    var cfg := TheConfig(t, maxAttempts, persist, scanId);
    var s := Run(cfg, Start(findings, root, rows, nextId), os);
    RunTrees(cfg, findings, root, rows, nextId, os);
    VouchedAt(cfg, findings, s.log, k);
    VouchIsConfirmation(t, cfg, findings, s.log[k]);
  }

  lemma {:induction false} VouchIsConfirmation(t: Settings, cfg: Config, findings: seq<Finding>, a: Accepted)
    requires VouchedFor(cfg, findings, a) && cfg.services == TheServices(t)
    ensures a.finding in findings && Confirmed(a.run, t.hasTests(a.tree), t.requireTests, a.finding, findings)
    ensures AllGreen(a.checks, t.requireTests)
  {
    PassedExactly(a.run, t.hasTests(a.tree), t.requireTests, a.finding, findings);
  }
}
