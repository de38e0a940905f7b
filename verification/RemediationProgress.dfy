/** What drives a run forward: which service answers for which target, that a good answer repairs it, what a bad one
    leads to, and where every accepted file comes from (backend/graph/remediation.py,
    backend/services/remediation.py). */
module RemediationProgress {
  import opened Prelude
  import opened Findings
  import opened Patching
  import Upgrades
  import opened Verification
  import opened Store
  import opened Remediation
  import opened RemediationRuns
  import opened RemediationTrees

  /** The finding is about code and not about a package. */
  predicate AboutCode(f: Finding) {
    f.package == None || f.package == Some("")
  }

  /** The findings of the scan, one for each id. */
  function Known(findings: seq<Finding>): seq<Finding> {
    DictValues(findings, (f: Finding) => f.id)
  }

  /** These files are a patch that the guardrails allow on this tree: for a finding about code a proposal of the model,
      for one about a package the upgrade. */
  ghost predicate Origin(t: Settings, findings: seq<Finding>, tree: Tree, f: Finding, files: Tree, os: seq<Oracle>) {
    if AboutCode(f) then
      exists i, p :: 0 <= i < |os| && os[i].llm == Offered(p) && Validated(t.env, tree, f, p, {}).ok &&
        Validated(t.env, tree, f, p, {}).patch.Some? && Validated(t.env, tree, f, p, {}).patch.value.files == files
    else
      && Upgrades.DependencyPatch(t.env, tree, f, Known(findings)).ok
      && Upgrades.DependencyPatch(t.env, tree, f, Known(findings)).patch.Some?
      && Upgrades.DependencyPatch(t.env, tree, f, Known(findings)).patch.value.files == files
  }

  /** What the guardrails say to the answer of this step. */
  predicate Answered(t: Settings, findings: seq<Finding>, tree: Tree, f: Finding, o: Oracle, check: PatchCheck) {
    if AboutCode(f) then o.llm.Offered? && check == Validated(t.env, tree, f, o.llm.proposal, {})
    else check == Upgrades.DependencyPatch(t.env, tree, f, Known(findings))
  }

  // ----- One step -----

  lemma {:induction false} RunSnoc(cfg: Config, s: State, os: seq<Oracle>, o: Oracle)
    ensures Run(cfg, s, os + [o]) == Step(cfg, Run(cfg, s, os), o)
  {
    assert (os + [o])[..|os|] == os;
  }

  lemma {:induction false} SameIds(findings: seq<Finding>)
    ensures Known(findings) == DictValues(findings, IdOf)
  {
    SameKeys(findings, (f: Finding) => f.id, IdOf);
  }

  lemma {:induction false} SameKeys<T, K>(s: seq<T>, a: T -> K, b: T -> K)
    requires forall x :: a(x) == b(x)
    ensures DictValues(s, a) == DictValues(s, b)
  {
    if s != [] {
      SameKeys(s[..|s| - 1], a, b);
      SameIndex(DictValues(s[..|s| - 1], a), a, b, a(s[|s| - 1]));
    }
  }

  lemma {:induction false} SameIndex<T, K>(s: seq<T>, a: T -> K, b: T -> K, k: K)
    requires forall x :: a(x) == b(x)
    ensures IndexOfKey(s, a, k) == IndexOfKey(s, b, k)
  {
    if s != [] {
      SameIndex(s[1..], a, b, k);
    }
  }

  /** The proposal step is the guardrails' answer to the right service. */
  lemma {:induction false} ProposalStep(t: Settings, cfg: Config, s: State, f: Finding, o: Oracle, check: PatchCheck)
    requires cfg.services == TheServices(t) && s.node == AtPropose && Target(s) == Some(f)
    requires Answered(t, s.findings, s.remRoot, f, o, check)
    ensures Step(cfg, s, o) == Proposed(cfg, s, check)
  {
    SameIds(s.findings);
  }

  lemma {:induction false} AllowedStep(t: Settings, cfg: Config, s: State, f: Finding, o: Oracle, check: PatchCheck)
    requires cfg.services == TheServices(t) && s.node == AtPropose && Target(s) == Some(f)
    requires Answered(t, s.findings, s.remRoot, f, o, check) && check.ok && check.patch.Some?
    ensures var next := Step(cfg, s, o);
            next == s.(node := AtVerify, current := check.patch, history := next.history)
  {
    ProposalStep(t, cfg, s, f, o, check);
  }

  lemma {:induction false} ConfirmedStep(t: Settings, cfg: Config, s: State, f: Finding, o: Oracle, tree: Tree)
    requires cfg.services == TheServices(t) && s.node == AtVerify && Target(s) == Some(f) && s.current.Some?
    requires Copy(s.remRoot, s.current.value.files) == Some(tree)
    requires Confirmed(o.run, t.hasTests(tree), t.requireTests, f, s.baseline)
    ensures var next := Step(cfg, s, o);
            && next.node == AtRecord(Repaired) && next.remRoot == tree && next.current == s.current
            && next.results == s.results && Target(next) == Some(f)
  {
    PassedExactly(o.run, t.hasTests(tree), t.requireTests, f, s.baseline);
    VerdictStep(t, cfg, s, f, o, tree);
  }

  lemma {:induction false} VerdictStep(t: Settings, cfg: Config, s: State, f: Finding, o: Oracle, tree: Tree)
    requires cfg.services == TheServices(t) && s.node == AtVerify && Target(s) == Some(f) && s.current.Some?
    requires Copy(s.remRoot, s.current.value.files) == Some(tree)
    ensures var v := Judge(o.run, t.hasTests(tree), t.requireTests, f, s.baseline);
            Step(cfg, s, o) == if v.Crashed? then s.(node := Broken)
                               else Checked(cfg, s, f, s.current.value.files, tree, v, o.run)
  {
  }

  lemma {:induction false} RepairedStep(cfg: Config, s: State, f: Finding, o: Oracle)
    requires s.node == AtRecord(Repaired) && Target(s) == Some(f) && s.current.Some?
    ensures exists r :: Step(cfg, s, o).results == s.results + [r] && r.id == f.id && r.fingerprint == f.fingerprint
                        && r.outcome == Repaired && r.files == s.current.value.files
  {
    var next := Step(cfg, s, o);
    assert next.results == s.results + [next.results[|s.results|]];
  }

  // ----- Progress -----

  /** After two more steps the target is repaired, its tree is the copy with the files, and a third records it. */
  ghost predicate Repairs(cfg: Config, start: State, os: seq<Oracle>, a: Oracle, b: Oracle, c: Oracle, f: Finding,
                          files: Tree, tree: Tree) {
    var verified, recorded := Run(cfg, start, os + [a] + [b]), Run(cfg, start, os + [a] + [b] + [c]);
    && verified.node == AtRecord(Repaired) && verified.remRoot == tree
    && exists r :: recorded.results == Run(cfg, start, os).results + [r] && r.id == f.id &&
         r.fingerprint == f.fingerprint && r.outcome == Repaired && r.files == files
  }

  /** In every run: when the machine turns to a finding about code and the model offers a patch that the guardrails
      allow, or to one about a package that can be upgraded, whatever the model says, and the tools confirm the copy
      that holds the patch, then the finding is repaired with exactly those files. */
  lemma {:induction false} GoodPatchRepairs(
      t: Settings, maxAttempts: int, persist: bool, scanId: string, findings: seq<Finding>, root: Tree, rows: seq<Row>,
      nextId: nat, os: seq<Oracle>, a: Oracle, b: Oracle, c: Oracle, f: Finding, check: PatchCheck, tree: Tree)
    requires var s := Run(TheConfig(t, maxAttempts, persist, scanId), Start(findings, root, rows, nextId), os);
             && s.node == AtPropose && Target(s) == Some(f) && Answered(t, findings, s.remRoot, f, a, check)
             && check.ok && check.patch.Some? && Copy(s.remRoot, check.patch.value.files) == Some(tree)
    requires Confirmed(b.run, t.hasTests(tree), t.requireTests, f, findings)
    ensures Repairs(TheConfig(t, maxAttempts, persist, scanId), Start(findings, root, rows, nextId), os, a, b, c, f,
                    check.patch.value.files, tree)
  {
    var cfg, start := TheConfig(t, maxAttempts, persist, scanId), Start(findings, root, rows, nextId);
    RunControl(cfg, findings, root, rows, nextId, os);
    ThreeSteps(t, cfg, start, os, a, b, c, f, check, tree);
  }

  lemma {:induction false} ThreeSteps(t: Settings, cfg: Config, start: State, os: seq<Oracle>, a: Oracle, b: Oracle,
                                      c: Oracle, f: Finding, check: PatchCheck, tree: Tree)
    requires var s := Run(cfg, start, os);
             && cfg.services == TheServices(t) && s.node == AtPropose && Target(s) == Some(f)
             && Answered(t, s.findings, s.remRoot, f, a, check)
             && check.ok && check.patch.Some? && Copy(s.remRoot, check.patch.value.files) == Some(tree)
             && Confirmed(b.run, t.hasTests(tree), t.requireTests, f, s.baseline)
    ensures Repairs(cfg, start, os, a, b, c, f, check.patch.value.files, tree)
  {
    var s := Run(cfg, start, os);
    RunSnoc(cfg, start, os, a);
    RunSnoc(cfg, start, os + [a], b);
    RunSnoc(cfg, start, os + [a] + [b], c);
    AllowedStep(t, cfg, s, f, a, check);
    var proposed := Step(cfg, s, a);
    ConfirmedStep(t, cfg, proposed, f, b, tree);
    RepairedStep(cfg, Step(cfg, proposed, b), f, c);
  }

  // ----- Refusals and retries -----

  /** No retry can mend this error. */
  predicate Hopeless(t: Settings, e: PatchError) {
    match e
    case ModelDeclined(_) => true
    case NoEdits => true
    case NoFixedVersion => true
    case UpgradeUnsupported(_) => true
    case NotPinned(_, _) => true
    case _ => t.saysNotPinned(e)
  }

  /** When the guardrails reject the answer, the next proposal is told their objections; there is none if an error is
      hopeless, which declines the target, or if the attempts are used up, which fails it. */
  lemma {:induction false} BadPatchIsRefused(t: Settings, maxAttempts: int, persist: bool, scanId: string, s: State,
                                             f: Finding, o: Oracle, check: PatchCheck)
    requires s.node == AtPropose && Target(s) == Some(f) && Answered(t, s.findings, s.remRoot, f, o, check) && !check.ok
    ensures var next := Step(TheConfig(t, maxAttempts, persist, scanId), s, o);
            && next.node == (if exists e :: e in check.errors && Hopeless(t, e) then AtRecord(Declined)
                             else if s.attempt < maxAttempts then AtPropose else AtRecord(Failed))
            && next.attempt == s.attempt + 1 && next.feedback == Objections(check.errors)
            && next.remRoot == s.remRoot && next.results == s.results && next.rows == s.rows
  {
    var cfg := TheConfig(t, maxAttempts, persist, scanId);
    ProposalStep(t, cfg, s, f, o, check);
    forall e ensures cfg.declines(e) <==> Hopeless(t, e) {
    }
    assert (exists e :: e in check.errors && cfg.declines(e)) <==> exists e :: e in check.errors && Hopeless(t, e);
  }

  /** Without an answer of the model a finding about code is declined, and one about a package does not need it. */
  lemma {:induction false} SilentModelDeclines(t: Settings, maxAttempts: int, persist: bool, scanId: string, s: State,
                                               f: Finding, o: Oracle)
    requires s.node == AtPropose && Target(s) == Some(f) && o.llm.LlmDown? && AboutCode(f)
    ensures var next := Step(TheConfig(t, maxAttempts, persist, scanId), s, o);
            && next.node == AtRecord(Declined) && next.feedback == Unavailable && next.current == None
            && next.remRoot == s.remRoot && next.results == s.results && next.rows == s.rows
  {
  }

  /** When the tools do not confirm the patch, the tree stays, and the next proposal is told why, unless the required
      tests are missing or the attempts are used up, which fails the target. */
  lemma {:induction false} UnconfirmedPatchIsRetried(t: Settings, maxAttempts: int, persist: bool, scanId: string,
                                                     s: State, f: Finding, o: Oracle, tree: Tree)
    requires s.node == AtVerify && Target(s) == Some(f) && s.current.Some?
    requires Copy(s.remRoot, s.current.value.files) == Some(tree)
    requires Judge(o.run, t.hasTests(tree), t.requireTests, f, s.baseline).Judged?
    requires !Confirmed(o.run, t.hasTests(tree), t.requireTests, f, s.baseline)
    ensures var next := Step(TheConfig(t, maxAttempts, persist, scanId), s, o);
            var v := Judge(o.run, t.hasTests(tree), t.requireTests, f, s.baseline);
            && next.node == (if v.failure == NoTests || s.attempt >= maxAttempts then AtRecord(Failed) else AtPropose)
            && next.attempt == s.attempt + 1 && next.feedback == FailedChecks(v.failure)
            && next.remRoot == s.remRoot && next.results == s.results && next.log == s.log
            && next.rows == s.rows +
                 if !persist || scanId == "" then []
                 else [Row(s.nextId, scanId, f.fingerprint, s.attempt, RowFailedVerification, map[], v.checks, None,
                           None)]
  {
    var cfg := TheConfig(t, maxAttempts, persist, scanId);
    PassedExactly(o.run, t.hasTests(tree), t.requireTests, f, s.baseline);
    VerdictStep(t, cfg, s, f, o, tree);
  }

  /** The result of a target: its story as it is, the patch, the files of a repair, and what was last said about it. */
  ghost predicate TellsOf(r: Result, s: State, f: Finding, outcome: Outcome) {
    && r.id == f.id && r.fingerprint == f.fingerprint && r.outcome == outcome && r.history == s.history
    && r.patch == s.current
    && (outcome == Repaired && s.current.Some? ==> r.files == s.current.value.files)
    && (outcome != Repaired ==> r.files == map[])
    && if s.history != [] && s.history[|s.history| - 1].CheckedEntry? then
         var last := s.history[|s.history| - 1];
         r.checks == last.checks && r.failure == if last.failure == NoFailure then s.feedback
                                                 else FailedChecks(last.failure)
       else r.checks == UNCHECKED && r.failure == s.feedback
  }

  /** Recording adds one result, and a row for a target that was not repaired; a repaired one has its row already. */
  lemma {:induction false} TargetIsRecorded(t: Settings, maxAttempts: int, persist: bool, scanId: string, s: State,
                                            f: Finding, o: Oracle, outcome: Outcome)
    requires s.node == AtRecord(outcome) && Target(s) == Some(f)
    ensures var next := Step(TheConfig(t, maxAttempts, persist, scanId), s, o);
            && next.node == AtNext && |next.results| == |s.results| + 1 && next.results[..|s.results|] == s.results
            && TellsOf(next.results[|s.results|], s, f, outcome)
            && next.remRoot == s.remRoot && next.log == s.log
            && next.rows == s.rows +
                 if !persist || scanId == "" || outcome == Repaired then []
                 else [Row(s.nextId, scanId, f.fingerprint, next.results[|s.results|].attempts,
                           if outcome == Declined then RowDeclined else RowFailed, map[], UNCHECKED, None, None)]
  {
  }

  // ----- Bookkeeping -----

  /** Rows are added at the end, and the new ones take the next ids in order. */
  predicate Booked(before: seq<Row>, nextId: nat, after: seq<Row>, newId: nat) {
    && |before| <= |after| && after[..|before|] == before && newId == nextId + (|after| - |before|)
    && forall i :: |before| <= i < |after| ==> after[i].id == nextId + (i - |before|)
  }

  lemma {:induction false} NoRowIsBooked(rows: seq<Row>, nextId: nat)
    ensures Booked(rows, nextId, rows, nextId)
  {
    assert rows[..|rows|] == rows;
  }

  lemma {:induction false} OneRowIsBooked(rows: seq<Row>, nextId: nat, row: Row)
    requires row.id == nextId
    ensures Booked(rows, nextId, rows + [row], nextId + 1)
  {
    assert (rows + [row])[..|rows|] == rows;
  }

  lemma {:induction false} ProposedBooks(cfg: Config, s: State, check: PatchCheck)
    ensures Proposed(cfg, s, check).rows == s.rows && Proposed(cfg, s, check).nextId == s.nextId
  {
  }

  /** A step adds a row with the next id, or leaves rows and ids alone. */
  ghost predicate AddsRow(s: State, next: State) {
    || (next.rows == s.rows && next.nextId == s.nextId)
    || (exists row: Row :: row.id == s.nextId && next.rows == s.rows + [row] && next.nextId == s.nextId + 1)
  }

  lemma {:induction false} AddsRowBooks(s: State, next: State)
    requires AddsRow(s, next)
    ensures Booked(s.rows, s.nextId, next.rows, next.nextId)
  {
    if next.rows == s.rows && next.nextId == s.nextId {
      NoRowIsBooked(s.rows, s.nextId);
    } else {
      var row: Row :| row.id == s.nextId && next.rows == s.rows + [row];
      OneRowIsBooked(s.rows, s.nextId, row);
    }
  }

  lemma {:induction false} CheckedBooks(cfg: Config, s: State, f: Finding, files: Tree, tree: Tree, v: Judgement,
                                        run: ToolRun)
    requires v.Judged?
    ensures AddsRow(s, Checked(cfg, s, f, files, tree, v, run))
  {
    var next := Checked(cfg, s, f, files, tree, v, run);
    if Persists(cfg) {
      var row := next.rows[|s.rows|];
      assert row.id == s.nextId && next.rows == s.rows + [row];
    }
  }

  lemma {:induction false} RecordedBooks(cfg: Config, s: State, f: Finding, outcome: Outcome)
    ensures AddsRow(s, Recorded(cfg, s, f, outcome))
  {
    var next := Recorded(cfg, s, f, outcome);
    if Persists(cfg) && outcome != Repaired {
      var row := next.rows[|s.rows|];
      assert row.id == s.nextId && next.rows == s.rows + [row];
    }
  }

  lemma {:induction false} RecordBooks(cfg: Config, s: State, outcome: Outcome)
    ensures AddsRow(s, Record(cfg, s, outcome))
  {
    if Target(s).Some? {
      RecordedBooks(cfg, s, Target(s).value, outcome);
    }
  }

  lemma {:induction false} PrepareBooks(cfg: Config, s: State, targets: seq<string>, tests: Answer<bool>)
    ensures AddsRow(s, Prepared(cfg, s, targets, tests))
  {
  }

  lemma {:induction false} ProposeBooks(cfg: Config, s: State, o: Oracle)
    requires s.node == AtPropose
    ensures AddsRow(s, Step(cfg, s, o))
  {
    if Target(s).Some? {
      var f := Target(s).value;
      if Truthy(f.package) {
        ProposedBooks(cfg, s, cfg.services.upgrade(s.remRoot, f, s.findings));
      } else if o.llm.Offered? {
        ProposedBooks(cfg, s, cfg.services.validate(s.remRoot, f, o.llm.proposal));
      } else {
        assert LlmFailed(s).rows == s.rows && LlmFailed(s).nextId == s.nextId;
      }
    }
  }

  lemma {:induction false} VerifyBooks(cfg: Config, s: State, o: Oracle)
    requires s.node == AtVerify
    ensures AddsRow(s, Step(cfg, s, o))
  {
    if Target(s).Some? && s.current.Some? {
      VerifyOutcome(cfg, s, o);
      if Step(cfg, s, o) != s.(node := Broken) {
        var f, files := Target(s).value, s.current.value.files;
        var tree, v: Judgement :| v.Judged? && Step(cfg, s, o) == Checked(cfg, s, f, files, tree, v, o.run);
        CheckedBooks(cfg, s, f, files, tree, v, o.run);
      }
    }
  }

  lemma {:induction false} StepAddsRow(cfg: Config, s: State, o: Oracle)
    ensures AddsRow(s, Step(cfg, s, o))
  {
    match s.node
    case AtInit => PrepareBooks(cfg, s, Ids(cfg.services.select(s.findings)), o.baselineTests);
    case AtNext => assert Next(s).rows == s.rows && Next(s).nextId == s.nextId;
    case AtPropose => ProposeBooks(cfg, s, o);
    case AtVerify => VerifyBooks(cfg, s, o);
    case AtRecord(outcome) => RecordBooks(cfg, s, outcome);
    case AtFinish => assert Finish(s).rows == s.rows && Finish(s).nextId == s.nextId;
    case AtEnd =>
    case Broken =>
  }

  lemma {:induction false} BookedTwice(a: seq<Row>, i: nat, b: seq<Row>, j: nat, c: seq<Row>, k: nat)
    requires Booked(a, i, b, j) && Booked(b, j, c, k)
    ensures Booked(a, i, c, k)
  {
    forall x | 0 <= x < |b| ensures c[x] == b[x] {
      assert c[..|b|][x] == c[x];
    }
    assert c[..|a|] == b[..|a|];
  }

  /** In every run the rows of before stay as they are, and the new ones take the next ids in order. */
  lemma {:induction false} RunNumbersRows(cfg: Config, start: State, os: seq<Oracle>)
    ensures Booked(start.rows, start.nextId, Run(cfg, start, os).rows, Run(cfg, start, os).nextId)
  {
    if os == [] {
      assert start.rows[..|start.rows|] == start.rows;
    } else {
      var init, o := os[..|os| - 1], os[|os| - 1];
      var s := Run(cfg, start, init);
      RunNumbersRows(cfg, start, init);
      StepAddsRow(cfg, s, o);
      AddsRowBooks(s, Step(cfg, s, o));
      BookedTwice(start.rows, start.nextId, s.rows, s.nextId, Step(cfg, s, o).rows, Step(cfg, s, o).nextId);
    }
  }

  /** So a run keeps the ids of the store increasing, as an approval needs them. */
  lemma {:induction false} RunKeepsStoreValid(cfg: Config, start: State, os: seq<Oracle>)
    requires Numbered(start.rows, start.nextId)
    ensures Numbered(Run(cfg, start, os).rows, Run(cfg, start, os).nextId)
  {
    if os != [] {
      var init, o := os[..|os| - 1], os[|os| - 1];
      var s := Run(cfg, start, init);
      RunKeepsStoreValid(cfg, start, init);
      StepAddsRow(cfg, s, o);
      if Step(cfg, s, o).rows != s.rows {
        var row: Row :| row.id == s.nextId && Step(cfg, s, o).rows == s.rows + [row];
        assert (s.rows + [row])[..|s.rows|] == s.rows;
      }
    }
  }

  // ----- Provenance -----

  /** What may be said of a patch: the tree it was made on, its finding and its files. */
  type Claim = (Tree, Finding, Tree) -> bool

  /** The tree on which patch `k` of the log was made. */
  function Base(root: Tree, log: seq<Accepted>, k: nat): Tree
    requires k <= |log|
  {
    if k == 0 then root else log[k - 1].tree
  }

  ghost predicate Each(root: Tree, log: seq<Accepted>, good: Claim) {
    forall k :: 0 <= k < |log| ==> good(Base(root, log, k), log[k].finding, log[k].files)
  }

  /** The claim holds of the patch that waits for the tools. */
  ghost predicate Waiting(s: State, good: Claim) {
    s.node == AtVerify ==>
      Target(s).Some? && s.current.Some? && good(s.remRoot, Target(s).value, s.current.value.files)
  }

  lemma {:induction false} EachSnoc(root: Tree, log: seq<Accepted>, a: Accepted, good: Claim)
    requires Each(root, log, good) && good(Tip(root, log), a.finding, a.files)
    ensures Each(root, log + [a], good)
  {
    var longer := log + [a];
    forall k | 0 <= k < |longer| ensures good(Base(root, longer, k), longer[k].finding, longer[k].files) {
      if k < |log| {
        assert Base(root, longer, k) == Base(root, log, k);
      } else {
        assert Base(root, longer, k) == Tip(root, log);
      }
    }
  }

  /** What the guardrails allow now makes the claim true. */
  ghost predicate Allows(t: Settings, findings: seq<Finding>, s: State, o: Oracle, good: Claim) {
    forall f, check :: Target(s) == Some(f) && Answered(t, findings, s.remRoot, f, o, check) ==>
      (check.ok && check.patch.Some? ==> good(s.remRoot, f, check.patch.value.files))
  }

  lemma {:induction false} TheAnswer(t: Settings, findings: seq<Finding>, tree: Tree, f: Finding, o: Oracle)
    returns (check: PatchCheck)
    requires AboutCode(f) ==> o.llm.Offered?
    ensures Answered(t, findings, tree, f, o, check)
  {
    check := if AboutCode(f) then Validated(t.env, tree, f, o.llm.proposal, {})
             else Upgrades.DependencyPatch(t.env, tree, f, Known(findings));
  }

  lemma {:induction false} NoAnswer(cfg: Config, s: State, o: Oracle)
    requires s.node == AtPropose
    requires Target(s).Some? ==> AboutCode(Target(s).value) && !o.llm.Offered?
    ensures Step(cfg, s, o).log == s.log && Step(cfg, s, o).node != AtVerify
  {
    if o.llm.LlmDown? {
      assert LlmFailed(s).log == s.log && LlmFailed(s).node == AtRecord(Declined);
    }
  }

  lemma {:induction false} ProposeWaits(t: Settings, cfg: Config, findings: seq<Finding>, s: State, o: Oracle,
                                        good: Claim)
    requires cfg.services == TheServices(t) && s.node == AtPropose && s.findings == findings
    requires Allows(t, findings, s, o, good)
    ensures Waiting(Step(cfg, s, o), good) && Step(cfg, s, o).log == s.log
  {
    if Target(s).Some? && (AboutCode(Target(s).value) ==> o.llm.Offered?) {
      var check := TheAnswer(t, findings, s.remRoot, Target(s).value, o);
      AnswerWaits(t, cfg, s, Target(s).value, o, check, good);
    } else {
      NoAnswer(cfg, s, o);
    }
  }

  lemma {:induction false} AnswerWaits(t: Settings, cfg: Config, s: State, f: Finding, o: Oracle, check: PatchCheck,
                                       good: Claim)
    requires cfg.services == TheServices(t) && s.node == AtPropose && Target(s) == Some(f)
    requires Answered(t, s.findings, s.remRoot, f, o, check)
    requires check.ok && check.patch.Some? ==> good(s.remRoot, f, check.patch.value.files)
    ensures Waiting(Step(cfg, s, o), good) && Step(cfg, s, o).log == s.log
  {
    ProposalStep(t, cfg, s, f, o, check);
    ProposedWaits(cfg, s, f, check, good);
  }

  lemma {:induction false} ProposedWaits(cfg: Config, s: State, f: Finding, check: PatchCheck, good: Claim)
    requires s.node == AtPropose && Target(s) == Some(f)
    requires check.ok && check.patch.Some? ==> good(s.remRoot, f, check.patch.value.files)
    ensures Waiting(Proposed(cfg, s, check), good) && Proposed(cfg, s, check).log == s.log
  {
    if check.ok && check.patch.Some? {
      AcceptWaits(cfg, s, f, check.patch.value, good);
    } else {
      RefuseWaits(cfg, s, check.errors, exists e :: e in check.errors && cfg.declines(e));
    }
  }

  lemma {:induction false} AcceptWaits(cfg: Config, s: State, f: Finding, patch: AppliedPatch, good: Claim)
    requires Target(s) == Some(f) && good(s.remRoot, f, patch.files)
    ensures Waiting(Accept(cfg, s, patch), good) && Accept(cfg, s, patch).log == s.log
  {
    assert Target(Accept(cfg, s, patch)) == Target(s);
  }

  lemma {:induction false} RefuseWaits(cfg: Config, s: State, errors: seq<PatchError>, declined: bool)
    ensures Refuse(cfg, s, errors, declined).node != AtVerify && Refuse(cfg, s, errors, declined).log == s.log
  {
  }

  lemma {:induction false} CheckedLogs(cfg: Config, s: State, f: Finding, files: Tree, tree: Tree, v: Judgement,
                                       run: ToolRun)
    requires v.Judged?
    ensures var next := Checked(cfg, s, f, files, tree, v, run);
            && next.log == (if v.passed then s.log + [Accepted(f, files, tree, run, v.checks)] else s.log)
            && next.node != AtVerify
  {
  }

  lemma {:induction false} VerifyOutcome(cfg: Config, s: State, o: Oracle)
    requires s.node == AtVerify && Target(s).Some? && s.current.Some?
    ensures Step(cfg, s, o) == s.(node := Broken) ||
            exists tree, v: Judgement :: v.Judged? &&
              Step(cfg, s, o) == Checked(cfg, s, Target(s).value, s.current.value.files, tree, v, o.run)
  {
    var copy := cfg.services.copy(s.remRoot, s.current.value.files);
    if copy.Some? {
      var v := cfg.services.judge(o.run, copy.value, Target(s).value, s.baseline);
      if v.Judged? {
        assert Step(cfg, s, o) == Checked(cfg, s, Target(s).value, s.current.value.files, copy.value, v, o.run);
      }
    }
  }

  /** The tools accept nothing but the patch that waits for them. */
  lemma {:induction false} VerifyLogs(cfg: Config, s: State, o: Oracle)
    requires s.node == AtVerify && Target(s).Some? && s.current.Some?
    ensures Step(cfg, s, o).node != AtVerify
    ensures Step(cfg, s, o).log == s.log ||
            exists a :: Step(cfg, s, o).log == s.log + [a] && a.finding == Target(s).value &&
                        a.files == s.current.value.files
  {
    VerifyOutcome(cfg, s, o);
    if Step(cfg, s, o) != s.(node := Broken) {
      var f, files := Target(s).value, s.current.value.files;
      var tree, v: Judgement :| v.Judged? && Step(cfg, s, o) == Checked(cfg, s, f, files, tree, v, o.run);
      CheckedLogs(cfg, s, f, files, tree, v, o.run);
      var a := Accepted(f, files, tree, o.run, v.checks);
      assert a.finding == f && a.files == files;
    }
  }

  lemma {:induction false} PreparedKeepsLog(cfg: Config, s: State, targets: seq<string>, tests: Answer<bool>)
    ensures Prepared(cfg, s, targets, tests).log == s.log && Prepared(cfg, s, targets, tests).node != AtVerify
  {
  }

  lemma {:induction false} RecordKeepsLog(cfg: Config, s: State, outcome: Outcome)
    ensures Record(cfg, s, outcome).log == s.log
  {
  }

  lemma {:induction false} RecordGoesOn(cfg: Config, s: State, outcome: Outcome)
    ensures Record(cfg, s, outcome).node != AtVerify
  {
  }

  lemma {:induction false} OtherStepsKeepLog(cfg: Config, s: State, o: Oracle)
    requires s.node != AtPropose && s.node != AtVerify
    ensures Step(cfg, s, o).log == s.log && Step(cfg, s, o).node != AtVerify
  {
    match s.node
    case AtInit => PreparedKeepsLog(cfg, s, Ids(cfg.services.select(s.findings)), o.baselineTests);
    case AtNext => assert Next(s).log == s.log;
    case AtRecord(outcome) =>
      RecordKeepsLog(cfg, s, outcome);
      RecordGoesOn(cfg, s, outcome);
    case AtFinish => assert Finish(s).log == s.log;
    case AtEnd =>
    case Broken =>
  }

  lemma {:induction false} StepIsGood(t: Settings, cfg: Config, findings: seq<Finding>, root: Tree, s: State, o: Oracle,
                                      good: Claim)
    requires cfg.services == TheServices(t) && s.remRoot == Tip(root, s.log)
    requires s.node == AtPropose ==> s.findings == findings && Allows(t, findings, s, o, good)
    requires Each(root, s.log, good) && Waiting(s, good)
    ensures Each(root, Step(cfg, s, o).log, good) && Waiting(Step(cfg, s, o), good)
  {
    if s.node == AtPropose {
      ProposeWaits(t, cfg, findings, s, o, good);
    } else if s.node == AtVerify {
      VerifyLogs(cfg, s, o);
      if Step(cfg, s, o).log != s.log {
        var a :| Step(cfg, s, o).log == s.log + [a] && a.finding == Target(s).value &&
                 a.files == s.current.value.files;
        EachSnoc(root, s.log, a, good);
      }
    } else {
      OtherStepsKeepLog(cfg, s, o);
    }
  }

  lemma {:induction false} OfferedHere(t: Settings, findings: seq<Finding>, os: seq<Oracle>, n: nat, s: State)
    requires n < |os|
    ensures Allows(t, findings, s, os[n], (tree, f, files) => Origin(t, findings, tree, f, files, os))
  {
    forall f, check | Target(s) == Some(f) && Answered(t, findings, s.remRoot, f, os[n], check) && check.ok &&
      check.patch.Some?
      ensures Origin(t, findings, s.remRoot, f, check.patch.value.files, os)
    {
      if AboutCode(f) {
        assert os[n].llm == Offered(os[n].llm.proposal);
      }
    }
  }

  lemma {:induction false} RunFacts(cfg: Config, findings: seq<Finding>, root: Tree, rows: seq<Row>, nextId: nat,
                                    start: State, os: seq<Oracle>)
    requires start == Start(findings, root, rows, nextId)
    ensures var s := Run(cfg, start, os);
            s.remRoot == Tip(root, s.log) && (s.node == AtPropose ==> s.findings == findings)
  {
    RunControl(cfg, findings, root, rows, nextId, os);
    RunTrees(cfg, findings, root, rows, nextId, os);
  }

  lemma {:induction false} OneMoreIsGood(t: Settings, cfg: Config, findings: seq<Finding>, root: Tree, start: State,
                                         os: seq<Oracle>, o: Oracle, good: Claim)
    requires cfg.services == TheServices(t) && Run(cfg, start, os).remRoot == Tip(root, Run(cfg, start, os).log)
    requires Run(cfg, start, os).node == AtPropose ==> Run(cfg, start, os).findings == findings
    requires Allows(t, findings, Run(cfg, start, os), o, good)
    requires Each(root, Run(cfg, start, os).log, good) && Waiting(Run(cfg, start, os), good)
    ensures Each(root, Run(cfg, start, os + [o]).log, good) && Waiting(Run(cfg, start, os + [o]), good)
  {
    RunSnoc(cfg, start, os, o);
    StepIsGood(t, cfg, findings, root, Run(cfg, start, os), o, good);
  }

  lemma {:induction false} RunIsGood(t: Settings, cfg: Config, findings: seq<Finding>, root: Tree, rows: seq<Row>,
                                     nextId: nat, start: State, os: seq<Oracle>, n: nat, good: Claim)
    requires cfg.services == TheServices(t) && n <= |os| && start == Start(findings, root, rows, nextId)
    requires forall k, s :: 0 <= k < |os| ==> Allows(t, findings, s, os[k], good)
    ensures Each(root, Run(cfg, start, os[..n]).log, good) && Waiting(Run(cfg, start, os[..n]), good)
  {
    if n > 0 {
      var init, o := os[..n - 1], os[n - 1];
      assert os[..n] == init + [o];
      RunIsGood(t, cfg, findings, root, rows, nextId, start, os, n - 1, good);
      RunFacts(cfg, findings, root, rows, nextId, start, init);
      OneMoreIsGood(t, cfg, findings, root, start, init, o, good);
    }
  }

  /** In every run every accepted patch has files that the guardrails allowed on the tree just before it: for a finding
      about code out of a proposal that the model offered during the run, for one about a package out of its upgrade. */
  lemma {:induction false} AcceptedFilesHaveOrigin(t: Settings, maxAttempts: int, persist: bool, scanId: string,
                                                   findings: seq<Finding>, root: Tree, rows: seq<Row>, nextId: nat,
                                                   os: seq<Oracle>, k: nat)
    requires k < |Run(TheConfig(t, maxAttempts, persist, scanId), Start(findings, root, rows, nextId), os).log|
    ensures var log := Run(TheConfig(t, maxAttempts, persist, scanId), Start(findings, root, rows, nextId), os).log;
            Origin(t, findings, if k == 0 then root else log[k - 1].tree, log[k].finding, log[k].files, os)
  {
    var good: Claim := (tree, f, files) => Origin(t, findings, tree, f, files, os);
    forall n, s | 0 <= n < |os| ensures Allows(t, findings, s, os[n], good) {
      OfferedHere(t, findings, os, n, s);
    }
    RunIsGood(t, TheConfig(t, maxAttempts, persist, scanId), findings, root, rows, nextId,
              Start(findings, root, rows, nextId), os, |os|, good);
    assert os[..|os|] == os;
    var log := Run(TheConfig(t, maxAttempts, persist, scanId), Start(findings, root, rows, nextId), os).log;
    assert good(Base(root, log, k), log[k].finding, log[k].files);
  }
}
