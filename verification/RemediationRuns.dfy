/** What every run of the remediation machine preserves: its position, its bounded attempts, and its end. */
module RemediationRuns {
  import opened Prelude
  import opened Findings
  import opened Patching
  import opened Verification
  import opened Store
  import opened Remediation

  /** No target is tried more often than this. */
  function Bound(cfg: Config): int {
    Max(1, cfg.maxAttempts)
  }

  function SelectedIds(cfg: Config, findings: seq<Finding>): seq<string> {
    Ids(cfg.services.select(findings))
  }

  function ResultIds(results: seq<Result>): seq<string> {
    if results == [] then [] else ResultIds(results[..|results| - 1]) + [results[|results| - 1].id]
  }

  predicate AttemptsBounded(results: seq<Result>, bound: int) {
    results == [] ||
    (results[|results| - 1].attempts <= bound && AttemptsBounded(results[..|results| - 1], bound))
  }

  /** Where the machine stands in its list of targets. */
  predicate Positioned(n: Node, idx: int, targets: nat, results: nat) {
    match n
    case AtInit => idx == -1 && results == 0 && targets == 0
    case AtNext => results == idx + 1 <= targets
    case AtPropose => results == idx < targets
    case AtVerify => results == idx < targets
    case AtRecord(_) => results == idx < targets
    case AtFinish => results == idx == targets
    case AtEnd => results == idx == targets
    case Broken => results <= targets
  }

  /** How the attempt number relates to the attempts that the history counts. */
  predicate Tried(n: Node, bound: int, attempt: int, counted: nat, current: Option<AppliedPatch>) {
    match n
    case AtPropose => 1 <= attempt <= bound && counted == attempt - 1
    case AtVerify => 1 <= attempt <= bound && counted == attempt - 1 && current.Some?
    case AtRecord(outcome) =>
      if outcome == Repaired then counted == attempt <= bound && current.Some? else counted == attempt - 1 <= bound
    case _ => true
  }

  predicate Grounded(cfg: Config, findings: seq<Finding>, s: State) {
    && (s.targets == [] || s.targets == SelectedIds(cfg, findings))
    && (s.node != AtEnd ==> s.findings == findings)
    && (s.node != AtInit ==> s.baseline == findings)
  }

  predicate Control(cfg: Config, findings: seq<Finding>, s: State) {
    && Grounded(cfg, findings, s)
    && Positioned(s.node, s.idx, |s.targets|, |s.results|)
    && ResultIds(s.results) == s.targets[..Min(|s.results|, |s.targets|)]
    && Tried(s.node, Bound(cfg), s.attempt, CountedAttempts(s.history), s.current)
    && AttemptsBounded(s.results, Bound(cfg))
  }

  lemma {:induction false} CountedSnoc(history: seq<Entry>, e: Entry)
    ensures CountedAttempts(history + [e]) ==
            CountedAttempts(history) + if e.CheckedEntry? || e.RejectedEntry? then 1 else 0
  {
    assert (history + [e])[..|history|] == history;
  }

  lemma {:induction false} RecordExtends(results: seq<Result>, r: Result, targets: seq<string>, bound: int)
    requires ResultIds(results) == targets[..Min(|results|, |targets|)] && AttemptsBounded(results, bound)
    requires |results| < |targets| && r.id == targets[|results|] && r.attempts <= bound
    ensures ResultIds(results + [r]) == targets[..Min(|results + [r]|, |targets|)] &&
        AttemptsBounded(results + [r], bound)
  {
    assert (results + [r])[..|results|] == results;
    assert targets[..|results| + 1] == targets[..|results|] + [targets[|results|]];
  }

  lemma {:induction false} AcceptControl(cfg: Config, findings: seq<Finding>, s: State, patch: AppliedPatch)
    requires Control(cfg, findings, s) && s.node == AtPropose
    ensures Control(cfg, findings, Accept(cfg, s, patch))
  {
    CountedSnoc(s.history, ProposedEntry(s.attempt, patch.changedLines));
  }

  lemma {:induction false} RefuseControl(cfg: Config, findings: seq<Finding>, s: State, errors: seq<PatchError>,
                                        declined: bool)
    requires Control(cfg, findings, s) && s.node == AtPropose
    ensures Control(cfg, findings, Refuse(cfg, s, errors, declined))
  {
    CountedSnoc(s.history, RejectedEntry(s.attempt, errors));
  }

  lemma {:induction false} ProposedControl(cfg: Config, findings: seq<Finding>, s: State, check: PatchCheck)
    requires Control(cfg, findings, s) && s.node == AtPropose
    ensures Control(cfg, findings, Proposed(cfg, s, check))
  {
    if check.ok && check.patch.Some? {
      AcceptControl(cfg, findings, s, check.patch.value);
    } else {
      RefuseControl(cfg, findings, s, check.errors, exists e :: e in check.errors && cfg.declines(e));
    }
  }

  lemma {:induction false} LlmFailedControl(cfg: Config, findings: seq<Finding>, s: State)
    requires Control(cfg, findings, s) && s.node == AtPropose
    ensures Control(cfg, findings, LlmFailed(s))
  {
    CountedSnoc(s.history, LlmEntry(s.attempt));
  }

  lemma {:induction false} BrokenControl(cfg: Config, findings: seq<Finding>, s: State)
    requires Control(cfg, findings, s) && s.node != AtEnd && s.node != AtInit
    ensures Control(cfg, findings, s.(node := Broken))
  {
  }

  lemma {:induction false} ProposeControl(cfg: Config, findings: seq<Finding>, s: State, o: Oracle)
    requires Control(cfg, findings, s) && s.node == AtPropose
    ensures Control(cfg, findings, Propose(cfg, s, o))
  {
    BrokenControl(cfg, findings, s);
    LlmFailedControl(cfg, findings, s);
    if Target(s).Some? {
      var f := Target(s).value;
      if Truthy(f.package) {
        ProposedControl(cfg, findings, s, cfg.services.upgrade(s.remRoot, f, s.findings));
      } else if o.llm.Offered? {
        ProposedControl(cfg, findings, s, cfg.services.validate(s.remRoot, f, o.llm.proposal));
      }
    }
  }

  lemma {:induction false} PassedControl(cfg: Config, findings: seq<Finding>, s: State, f: Finding, files: Tree,
                                         tree: Tree, v: Judgement, run: ToolRun)
    requires Control(cfg, findings, s) && s.node == AtVerify && v.Judged? && v.passed
    ensures Control(cfg, findings, Checked(cfg, s, f, files, tree, v, run))
  {
    CountedSnoc(s.history, CheckedEntry(s.attempt, true, v.checks, v.failure));
  }

  lemma {:induction false} FailedControl(cfg: Config, findings: seq<Finding>, s: State, f: Finding, files: Tree,
                                         tree: Tree, v: Judgement, run: ToolRun)
    requires Control(cfg, findings, s) && s.node == AtVerify && v.Judged? && !v.passed
    ensures Control(cfg, findings, Checked(cfg, s, f, files, tree, v, run))
  {
    CountedSnoc(s.history, CheckedEntry(s.attempt, false, v.checks, v.failure));
  }

  lemma {:induction false} VerifyControl(cfg: Config, findings: seq<Finding>, s: State, o: Oracle)
    requires Control(cfg, findings, s) && s.node == AtVerify
    ensures Control(cfg, findings, Verify(cfg, s, o))
  {
    BrokenControl(cfg, findings, s);
    if Target(s).Some? && s.current.Some? && cfg.services.copy(s.remRoot, s.current.value.files).Some? {
      var tree := cfg.services.copy(s.remRoot, s.current.value.files).value;
      var v := cfg.services.judge(o.run, tree, Target(s).value, s.baseline);
      if v.Judged? && v.passed {
        PassedControl(cfg, findings, s, Target(s).value, s.current.value.files, tree, v, o.run);
      } else if v.Judged? {
        FailedControl(cfg, findings, s, Target(s).value, s.current.value.files, tree, v, o.run);
      }
    }
  }

  lemma {:induction false} RecordControl(cfg: Config, findings: seq<Finding>, s: State, outcome: Outcome)
    requires Control(cfg, findings, s) && s.node == AtRecord(outcome)
    ensures Control(cfg, findings, Record(cfg, s, outcome))
  {
    if Target(s).Some? {
      var next := Recorded(cfg, s, Target(s).value, outcome);
      RecordExtends(s.results, next.results[|s.results|], s.targets, Bound(cfg));
    }
  }

  lemma {:induction false} ReadyControl(cfg: Config, findings: seq<Finding>, s: State, targets: seq<string>)
    requires Control(cfg, findings, s) && s.node == AtInit
    requires targets == [] || targets == SelectedIds(cfg, findings)
    ensures Control(cfg, findings, Ready(s, targets))
  {
    assert targets[..0] == [];
  }

  lemma {:induction false} InitBroken(cfg: Config, findings: seq<Finding>, s: State)
    requires Control(cfg, findings, s) && s.node == AtInit
    ensures Control(cfg, findings, s.(node := Broken, baseline := s.findings))
  {
  }

  lemma {:induction false} InitControl(cfg: Config, findings: seq<Finding>, s: State, o: Oracle)
    requires Control(cfg, findings, s) && s.node == AtInit
    ensures Control(cfg, findings, Init(cfg, s, o))
  {
    InitBroken(cfg, findings, s);
    ReadyControl(cfg, findings, s, SelectedIds(cfg, findings));
    ReadyControl(cfg, findings, s, []);
  }

  lemma {:induction false} StepControl(cfg: Config, findings: seq<Finding>, s: State, o: Oracle)
    requires Control(cfg, findings, s)
    ensures Control(cfg, findings, Step(cfg, s, o))
  {
    match s.node
    case AtInit => InitControl(cfg, findings, s, o);
    case AtNext => assert CountedAttempts([]) == 0;
    case AtPropose => ProposeControl(cfg, findings, s, o);
    case AtVerify => VerifyControl(cfg, findings, s, o);
    case AtRecord(outcome) => RecordControl(cfg, findings, s, outcome);
    case AtFinish =>
    case AtEnd =>
    case Broken =>
  }

  /** Every state of every run keeps the control invariant. */
  lemma {:induction false} RunControl(cfg: Config, findings: seq<Finding>, root: Tree, rows: seq<Row>, nextId: nat,
                                      os: seq<Oracle>)
    ensures Control(cfg, findings, Run(cfg, Start(findings, root, rows, nextId), os))
  {
    if os == [] {
      assert Start(findings, root, rows, nextId).targets[..0] == [];
    } else {
      RunControl(cfg, findings, root, rows, nextId, os[..|os| - 1]);
      StepControl(cfg, findings, Run(cfg, Start(findings, root, rows, nextId), os[..|os| - 1]), os[|os| - 1]);
    }
  }

  // ----- Termination -----

  /** Steps for `n` whole targets: one to turn to each, two per attempt, one to record it. */
  function Effort(n: nat, bound: int): int {
    if n == 0 then 0 else Effort(n - 1, bound) + 2 * bound + 2
  }

  lemma {:induction false} EffortGrows(m: nat, n: nat, bound: int)
    requires m <= n && 1 <= bound
    ensures 0 <= Effort(m, bound) <= Effort(n, bound)
    decreases n
  {
    if m < n {
      EffortGrows(m, n - 1, bound);
    } else if m > 0 {
      EffortGrows(m - 1, n - 1, bound);
    }
  }

  lemma {:induction false} EffortIsProduct(n: nat, bound: int)
    ensures Effort(n, bound) == n * (2 * bound + 2)
  {
    if n > 0 {
      EffortIsProduct(n - 1, bound);
      assert n * (2 * bound + 2) == (n - 1) * (2 * bound + 2) + (2 * bound + 2);
    }
  }

  /** How many steps can still follow. */
  function Measure(n: Node, bound: int, selected: nat, left: nat, attempt: int): int {
    match n
    case AtInit => 3 + Effort(selected, bound)
    case AtNext => 2 + Effort(left, bound)
    case AtPropose => 3 + Effort(left, bound) + 2 * (bound + 1 - attempt)
    case AtVerify => 2 + Effort(left, bound) + 2 * (bound + 1 - attempt)
    case AtRecord(_) => 3 + Effort(left, bound)
    case AtFinish => 1
    case AtEnd => 0
    case Broken => 0
  }

  /** Targets after the current one. */
  function Left(s: State): nat {
    Max(0, |s.targets| - s.idx - 1)
  }

  function Remaining(cfg: Config, findings: seq<Finding>, s: State): int {
    Measure(s.node, Bound(cfg), |SelectedIds(cfg, findings)|, Left(s), s.attempt)
  }

  predicate Finished(s: State) {
    s.node == AtEnd || s.node == Broken
  }

  lemma {:induction false} ReadyDecreases(cfg: Config, findings: seq<Finding>, s: State, targets: seq<string>)
    requires s.node == AtInit && (targets == [] || targets == SelectedIds(cfg, findings))
    ensures Remaining(cfg, findings, Ready(s, targets)) < Remaining(cfg, findings, s)
  {
    EffortGrows(0, |SelectedIds(cfg, findings)|, Bound(cfg));
  }

  lemma {:induction false} PreparedDecreases(cfg: Config, findings: seq<Finding>, s: State, targets: seq<string>,
                                             baselineTests: Answer<bool>)
    requires s.node == AtInit && targets == SelectedIds(cfg, findings)
    ensures Remaining(cfg, findings, Prepared(cfg, s, targets, baselineTests)) < Remaining(cfg, findings, s)
  {
    EffortGrows(0, |targets|, Bound(cfg));
    ReadyDecreases(cfg, findings, s, targets);
    ReadyDecreases(cfg, findings, s, []);
  }

  lemma {:induction false} InitDecreases(cfg: Config, findings: seq<Finding>, s: State, o: Oracle)
    requires Control(cfg, findings, s) && s.node == AtInit
    ensures Remaining(cfg, findings, Init(cfg, s, o)) < Remaining(cfg, findings, s)
  {
    PreparedDecreases(cfg, findings, s, SelectedIds(cfg, findings), o.baselineTests);
  }

  lemma {:induction false} NextDecreases(cfg: Config, findings: seq<Finding>, s: State)
    requires Control(cfg, findings, s) && s.node == AtNext
    ensures Remaining(cfg, findings, Next(s)) < Remaining(cfg, findings, s)
  {
  }

  lemma {:induction false} ProposedDecreases(cfg: Config, findings: seq<Finding>, s: State, check: PatchCheck)
    requires Control(cfg, findings, s) && s.node == AtPropose
    ensures Remaining(cfg, findings, Proposed(cfg, s, check)) < Remaining(cfg, findings, s)
  {
  }

  lemma {:induction false} CheckedDecreases(cfg: Config, findings: seq<Finding>, s: State, f: Finding, files: Tree,
                                            tree: Tree, v: Judgement, run: ToolRun)
    requires Control(cfg, findings, s) && s.node == AtVerify && v.Judged?
    ensures Remaining(cfg, findings, Checked(cfg, s, f, files, tree, v, run)) < Remaining(cfg, findings, s)
  {
  }

  lemma {:induction false} RemainingIsNonnegative(cfg: Config, findings: seq<Finding>, s: State)
    requires Control(cfg, findings, s)
    ensures 0 <= Remaining(cfg, findings, s)
    ensures Remaining(cfg, findings, s) == 0 <==> Finished(s)
  {
    EffortGrows(0, |SelectedIds(cfg, findings)|, Bound(cfg));
    EffortGrows(0, Left(s), Bound(cfg));
  }

  lemma {:induction false} BrokenDecreases(cfg: Config, findings: seq<Finding>, s: State)
    requires Control(cfg, findings, s) && !Finished(s)
    ensures Remaining(cfg, findings, s.(node := Broken)) < Remaining(cfg, findings, s)
  {
    RemainingIsNonnegative(cfg, findings, s);
  }

  lemma {:induction false} LlmFailedDecreases(cfg: Config, findings: seq<Finding>, s: State)
    requires Control(cfg, findings, s) && s.node == AtPropose
    ensures Remaining(cfg, findings, LlmFailed(s)) < Remaining(cfg, findings, s)
  {
  }

  lemma {:induction false} RecordDecreases(cfg: Config, findings: seq<Finding>, s: State, outcome: Outcome)
    requires Control(cfg, findings, s) && s.node == AtRecord(outcome)
    ensures Remaining(cfg, findings, Record(cfg, s, outcome)) < Remaining(cfg, findings, s)
  {
    BrokenDecreases(cfg, findings, s);
  }

  /** Whatever the outside world answers, every step brings the end closer. */
  lemma {:induction false} StepDecreases(cfg: Config, findings: seq<Finding>, s: State, o: Oracle)
    requires Control(cfg, findings, s) && !Finished(s)
    ensures Remaining(cfg, findings, Step(cfg, s, o)) < Remaining(cfg, findings, s)
  {
    match s.node
    case AtInit => InitDecreases(cfg, findings, s, o);
    case AtNext => NextDecreases(cfg, findings, s);
    case AtPropose => ProposeDecreases(cfg, findings, s, o);
    case AtVerify => VerifyDecreases(cfg, findings, s, o);
    case AtRecord(outcome) => RecordDecreases(cfg, findings, s, outcome);
    case AtFinish =>
  }

  lemma {:induction false} ProposeDecreases(cfg: Config, findings: seq<Finding>, s: State, o: Oracle)
    requires Control(cfg, findings, s) && s.node == AtPropose
    ensures Remaining(cfg, findings, Propose(cfg, s, o)) < Remaining(cfg, findings, s)
  {
    BrokenDecreases(cfg, findings, s);
    LlmFailedDecreases(cfg, findings, s);
    if Target(s).Some? {
      var f := Target(s).value;
      if Truthy(f.package) {
        ProposedDecreases(cfg, findings, s, cfg.services.upgrade(s.remRoot, f, s.findings));
      } else if o.llm.Offered? {
        ProposedDecreases(cfg, findings, s, cfg.services.validate(s.remRoot, f, o.llm.proposal));
      }
    }
  }

  lemma {:induction false} VerifyDecreases(cfg: Config, findings: seq<Finding>, s: State, o: Oracle)
    requires Control(cfg, findings, s) && s.node == AtVerify
    ensures Remaining(cfg, findings, Verify(cfg, s, o)) < Remaining(cfg, findings, s)
  {
    BrokenDecreases(cfg, findings, s);
    if Target(s).Some? && s.current.Some? && cfg.services.copy(s.remRoot, s.current.value.files).Some? {
      var tree := cfg.services.copy(s.remRoot, s.current.value.files).value;
      var v := cfg.services.judge(o.run, tree, Target(s).value, s.baseline);
      if v.Judged? {
        CheckedDecreases(cfg, findings, s, Target(s).value, s.current.value.files, tree, v, o.run);
      }
    }
  }

  /** Every run ends: after three steps and `2 * attempts + 2` for every selected target the machine has stopped,
      on all answers of the outside world. */
  lemma {:induction false} EveryRunEnds(cfg: Config, findings: seq<Finding>, root: Tree, rows: seq<Row>, nextId: nat,
                                        os: seq<Oracle>)
    requires |os| >= 3 + |SelectedIds(cfg, findings)| * (2 * Bound(cfg) + 2)
    ensures Finished(Run(cfg, Start(findings, root, rows, nextId), os))
  {
    Enough(|os|, |SelectedIds(cfg, findings)|, Bound(cfg));
    RunShrinks(cfg, findings, root, rows, nextId, os);
    RunControl(cfg, findings, root, rows, nextId, os);
    Exhausted(cfg, findings, Run(cfg, Start(findings, root, rows, nextId), os));
  }

  lemma {:induction false} Enough(steps: nat, n: nat, bound: int)
    requires steps >= 3 + n * (2 * bound + 2)
    ensures 3 + Effort(n, bound) - steps <= 0
  {
    EffortIsProduct(n, bound);
  }

  lemma {:induction false} Exhausted(cfg: Config, findings: seq<Finding>, s: State)
    requires Control(cfg, findings, s) && (Finished(s) || Remaining(cfg, findings, s) <= 0)
    ensures Finished(s)
  {
    RemainingIsNonnegative(cfg, findings, s);
  }

  lemma {:induction false} RunShrinks(cfg: Config, findings: seq<Finding>, root: Tree, rows: seq<Row>, nextId: nat,
                                      os: seq<Oracle>)
    ensures var s := Run(cfg, Start(findings, root, rows, nextId), os);
            Finished(s) || Remaining(cfg, findings, s) <= 3 + Effort(|SelectedIds(cfg, findings)|, Bound(cfg)) - |os|
  {
    if os != [] {
      var init, o := os[..|os| - 1], os[|os| - 1];
      var s := Run(cfg, Start(findings, root, rows, nextId), init);
      RunShrinks(cfg, findings, root, rows, nextId, init);
      RunControl(cfg, findings, root, rows, nextId, init);
      if !Finished(s) {
        StepDecreases(cfg, findings, s, o);
      }
    }
  }
}
