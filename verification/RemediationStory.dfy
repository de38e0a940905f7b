/** The story of every target: its attempts follow one another in order, each retry is told why the one before failed,
    and it ends for one of the reasons the loop allows (backend/graph/remediation.py). */
module RemediationStory {
  import opened Prelude
  import opened Findings
  import opened Patching
  import opened Verification
  import opened Store
  import opened Remediation
  import opened RemediationRuns

  /** `n` unsuccessful attempts, numbered from one: each was rejected by the guardrails, or proposed and then failed
      its verification. */
  predicate Attempts(history: seq<Entry>, n: int) {
    if history == [] then n == 0
    else
      var last, init := history[|history| - 1], history[..|history| - 1];
      match last
      case RejectedEntry(attempt, _) => attempt == n && Attempts(init, n - 1)
      case CheckedEntry(attempt, passed, _, _) => attempt == n && !passed && ProposedOnce(init, n) &&
          Attempts(Earlier(init), n - 1)
      case LlmEntry(_) => false
      case ProposedEntry(_, _) => false
  }

  /** The history ends with the proposal of attempt `n`. */
  predicate ProposedOnce(history: seq<Entry>, n: int) {
    history != [] && history[|history| - 1].ProposedEntry? && history[|history| - 1].attempt == n
  }

  function Earlier(history: seq<Entry>): seq<Entry> {
    if history == [] then [] else history[..|history| - 1]
  }

  /** What the next attempt is told: nothing at first, and then why the last one failed. */
  function Lesson(history: seq<Entry>): Feedback {
    if history == [] then NoFeedback
    else
      match history[|history| - 1]
      case RejectedEntry(_, errors) => Objections(errors)
      case CheckedEntry(_, _, _, failure) => FailedChecks(failure)
      case LlmEntry(_) => Unavailable
      case ProposedEntry(_, _) => NoFeedback
  }

  /** A retry makes sense: no error ruled it out, and there were tests to fail. */
  predicate Mendable(cfg: Config, history: seq<Entry>) {
    if history == [] then true
    else
      match history[|history| - 1]
      case RejectedEntry(_, errors) => !exists e :: e in errors && cfg.declines(e)
      case CheckedEntry(_, _, _, failure) => failure != NoTests
      case LlmEntry(_) => false
      case ProposedEntry(_, _) => false
  }

  /** A failed target has used up its attempts, or cannot be verified for want of tests. */
  predicate GaveUp(history: seq<Entry>, n: int, bound: int) {
    Attempts(history, n) &&
        (n == bound ||
            (history != [] && history[|history| - 1].CheckedEntry? && history[|history| - 1].failure == NoTests))
  }

  /** A declined target met an unavailable model, or an error that no retry can mend. */
  predicate TurnedDown(cfg: Config, history: seq<Entry>, attempt: int) {
    history != [] &&
    var last, init := history[|history| - 1], history[..|history| - 1];
    match last
    case LlmEntry(n) => n == attempt && Attempts(init, attempt - 1)
    case RejectedEntry(_, errors) => Attempts(history, attempt - 1) && exists e :: e in errors && cfg.declines(e)
    case CheckedEntry(_, _, _, _) => false
    case ProposedEntry(_, _) => false
  }

  /** A repaired target was proposed and passed in its last attempt. */
  predicate Succeeded(history: seq<Entry>, n: int) {
    history != [] && history[|history| - 1].CheckedEntry? && history[|history| - 1].passed &&
        history[|history| - 1].attempt == n &&
    ProposedOnce(Earlier(history), n) && Attempts(Earlier(Earlier(history)), n - 1)
  }

  predicate Tells(cfg: Config, n: Node, history: seq<Entry>, attempt: int, feedback: Feedback) {
    match n
    case AtPropose => Attempts(history, attempt - 1) && feedback == Lesson(history) && Mendable(cfg, history)
    case AtVerify => ProposedOnce(history, attempt) && Attempts(Earlier(history), attempt - 1)
    case AtRecord(Repaired) => Succeeded(history, attempt)
    case AtRecord(Failed) => GaveUp(history, attempt - 1, Bound(cfg))
    case AtRecord(Declined) => TurnedDown(cfg, history, attempt)
    case _ => true
  }

  /** A result whose history ends as its outcome says. */
  predicate Ends(cfg: Config, r: Result) {
    match r.outcome
    case Repaired => Succeeded(r.history, r.attempts)
    case Failed => GaveUp(r.history, r.attempts, Bound(cfg))
    case Declined => TurnedDown(cfg, r.history, r.attempts + 1)
  }

  predicate AllEnd(cfg: Config, results: seq<Result>) {
    results == [] || (Ends(cfg, results[|results| - 1]) && AllEnd(cfg, results[..|results| - 1]))
  }

  predicate Story(cfg: Config, s: State) {
    Tells(cfg, s.node, s.history, s.attempt, s.feedback) && AllEnd(cfg, s.results)
  }

  /** Exactly missing tests make a failure final. */
  ghost predicate OnlyMissingTestsAreFinal(services: Services) {
    forall run, tree, f, baseline :: FinalForTests(services.judge(run, tree, f, baseline))
  }

  predicate FinalForTests(v: Judgement) {
    v.Judged? && !v.passed ==> (!v.retriable <==> v.failure == NoTests)
  }

  lemma {:induction false} DeployedIsFinalForTests(t: Settings)
    ensures OnlyMissingTestsAreFinal(TheServices(t))
  {
    var services := TheServices(t);
    forall run, tree, f, baseline ensures FinalForTests(services.judge(run, tree, f, baseline)) {
      PassedExactly(run, t.hasTests(tree), t.requireTests, f, baseline);
    }
  }

  // ----- Histories grow -----

  lemma {:induction false} Rejection(history: seq<Entry>, n: int, errors: seq<PatchError>)
    requires Attempts(history, n - 1)
    ensures Attempts(history + [RejectedEntry(n, errors)], n)
  {
    assert (history + [RejectedEntry(n, errors)])[..|history|] == history;
  }

  lemma {:induction false} Proposal(history: seq<Entry>, n: int, changed: nat)
    ensures ProposedOnce(history + [ProposedEntry(n, changed)], n) &&
        Earlier(history + [ProposedEntry(n, changed)]) == history
  {
  }

  lemma {:induction false} OneCheck(history: seq<Entry>, e: Entry, n: int)
    requires ProposedOnce(history, n) && Attempts(Earlier(history), n - 1) && e.CheckedEntry? && e.attempt == n
    ensures e.passed ==> Succeeded(history + [e], n)
    ensures !e.passed ==> Attempts(history + [e], n)
  {
    assert (history + [e])[..|history|] == history;
  }

  lemma {:induction false} EndsSnoc(cfg: Config, results: seq<Result>, r: Result)
    requires AllEnd(cfg, results) && Ends(cfg, r)
    ensures AllEnd(cfg, results + [r])
  {
    assert (results + [r])[..|results|] == results;
  }

  /** The attempts of a story are the attempts that the record counts. */
  lemma {:induction false} AttemptsAreCounted(history: seq<Entry>, n: int)
    requires Attempts(history, n)
    ensures CountedAttempts(history) == n
  {
    if history != [] {
      var init := history[..|history| - 1];
      if history[|history| - 1].RejectedEntry? {
        AttemptsAreCounted(init, n - 1);
      } else {
        AttemptsAreCounted(Earlier(init), n - 1);
      }
    }
  }

  // ----- Every step continues the story -----

  lemma {:induction false} AcceptTells(cfg: Config, s: State, patch: AppliedPatch)
    requires Story(cfg, s) && s.node == AtPropose
    ensures Story(cfg, Accept(cfg, s, patch))
  {
    Proposal(s.history, s.attempt, patch.changedLines);
  }

  lemma {:induction false} RefuseTells(cfg: Config, findings: seq<Finding>, s: State, errors: seq<PatchError>,
                                       declined: bool)
    requires Story(cfg, s) && s.node == AtPropose && Control(cfg, findings, s)
    requires declined <==> exists e :: e in errors && cfg.declines(e)
    ensures Story(cfg, Refuse(cfg, s, errors, declined))
  {
    Rejection(s.history, s.attempt, errors);
  }

  lemma {:induction false} LlmFailedTells(cfg: Config, s: State)
    requires Story(cfg, s) && s.node == AtPropose
    ensures Story(cfg, LlmFailed(s))
  {
    assert (s.history + [LlmEntry(s.attempt)])[..|s.history|] == s.history;
  }

  lemma {:induction false} BrokenTells(cfg: Config, s: State)
    requires Story(cfg, s)
    ensures Story(cfg, s.(node := Broken))
  {
  }

  lemma {:induction false} ProposedTells(cfg: Config, findings: seq<Finding>, s: State, check: PatchCheck)
    requires Story(cfg, s) && s.node == AtPropose && Control(cfg, findings, s)
    ensures Story(cfg, Proposed(cfg, s, check))
  {
    if check.ok && check.patch.Some? {
      AcceptTells(cfg, s, check.patch.value);
    } else {
      RefuseTells(cfg, findings, s, check.errors, exists e :: e in check.errors && cfg.declines(e));
    }
  }

  lemma {:induction false} ProposeTells(cfg: Config, findings: seq<Finding>, s: State, o: Oracle)
    requires Story(cfg, s) && s.node == AtPropose && Control(cfg, findings, s)
    ensures Story(cfg, Propose(cfg, s, o))
  {
    BrokenTells(cfg, s);
    LlmFailedTells(cfg, s);
    if Target(s).Some? {
      var f := Target(s).value;
      if Truthy(f.package) {
        ProposedTells(cfg, findings, s, cfg.services.upgrade(s.remRoot, f, s.findings));
      } else if o.llm.Offered? {
        ProposedTells(cfg, findings, s, cfg.services.validate(s.remRoot, f, o.llm.proposal));
      }
    }
  }

  lemma {:induction false} PassedTells(cfg: Config, s: State, f: Finding, files: Tree, tree: Tree, v: Judgement,
                                       run: ToolRun)
    requires Story(cfg, s) && s.node == AtVerify && v.Judged? && v.passed
    ensures Story(cfg, Checked(cfg, s, f, files, tree, v, run))
  {
    OneCheck(s.history, CheckedEntry(s.attempt, true, v.checks, v.failure), s.attempt);
  }

  lemma {:induction false} FailedTells(cfg: Config, findings: seq<Finding>, s: State, f: Finding, files: Tree,
                                       tree: Tree, v: Judgement, run: ToolRun)
    requires Story(cfg, s) && s.node == AtVerify && Control(cfg, findings, s) && v.Judged? && !v.passed &&
        FinalForTests(v)
    ensures Story(cfg, Checked(cfg, s, f, files, tree, v, run))
  {
    OneCheck(s.history, CheckedEntry(s.attempt, false, v.checks, v.failure), s.attempt);
  }

  lemma {:induction false} VerifyTells(cfg: Config, findings: seq<Finding>, s: State, o: Oracle)
    requires Story(cfg, s) && s.node == AtVerify && Control(cfg, findings, s) && OnlyMissingTestsAreFinal(cfg.services)
    ensures Story(cfg, Verify(cfg, s, o))
  {
    BrokenTells(cfg, s);
    if Target(s).Some? && s.current.Some? && cfg.services.copy(s.remRoot, s.current.value.files).Some? {
      var f, files := Target(s).value, s.current.value.files;
      var tree := cfg.services.copy(s.remRoot, files).value;
      var v := cfg.services.judge(o.run, tree, f, s.baseline);
      assert FinalForTests(v);
      if v.Judged? && v.passed {
        PassedTells(cfg, s, f, files, tree, v, o.run);
      } else if v.Judged? {
        FailedTells(cfg, findings, s, f, files, tree, v, o.run);
      }
    }
  }

  lemma {:induction false} RecordedTells(cfg: Config, s: State, f: Finding, outcome: Outcome)
    requires Story(cfg, s) && s.node == AtRecord(outcome)
    requires CountedAttempts(s.history) == if outcome == Repaired then s.attempt else s.attempt - 1
    ensures Story(cfg, Recorded(cfg, s, f, outcome))
  {
    var next := Recorded(cfg, s, f, outcome);
    EndsSnoc(cfg, s.results, next.results[|s.results|]);
  }

  lemma {:induction false} RecordTells(cfg: Config, findings: seq<Finding>, s: State, outcome: Outcome)
    requires Story(cfg, s) && s.node == AtRecord(outcome) && Control(cfg, findings, s)
    ensures Story(cfg, Record(cfg, s, outcome))
  {
    BrokenTells(cfg, s);
    if Target(s).Some? {
      RecordedTells(cfg, s, Target(s).value, outcome);
    }
  }

  lemma {:induction false} PreparedTells(cfg: Config, s: State, targets: seq<string>, baselineTests: Answer<bool>)
    requires Story(cfg, s)
    ensures Story(cfg, Prepared(cfg, s, targets, baselineTests))
  {
  }

  lemma {:induction false} NextTells(cfg: Config, s: State)
    requires Story(cfg, s)
    ensures Story(cfg, Next(s))
  {
  }

  lemma {:induction false} FinishTells(cfg: Config, s: State)
    requires Story(cfg, s)
    ensures Story(cfg, Finish(s))
  {
  }

  lemma {:induction false} StepTells(cfg: Config, findings: seq<Finding>, s: State, o: Oracle)
    requires Story(cfg, s) && Control(cfg, findings, s) && OnlyMissingTestsAreFinal(cfg.services)
    ensures Story(cfg, Step(cfg, s, o))
  {
    match s.node
    case AtInit => PreparedTells(cfg, s, Ids(cfg.services.select(s.findings)), o.baselineTests);
    case AtNext => NextTells(cfg, s);
    case AtPropose => ProposeTells(cfg, findings, s, o);
    case AtVerify => VerifyTells(cfg, findings, s, o);
    case AtRecord(outcome) => RecordTells(cfg, findings, s, outcome);
    case AtFinish => FinishTells(cfg, s);
    case AtEnd =>
    case Broken =>
  }

  /** In every state of every run the history of the current target is a sequence of numbered attempts, the next
      proposal is told why the last attempt failed and is made only if a retry makes sense,
          and every recorded result ended for an allowed reason. */
  lemma {:induction false} RunTells(cfg: Config, findings: seq<Finding>, root: Tree, rows: seq<Row>, nextId: nat,
                                    os: seq<Oracle>)
    requires OnlyMissingTestsAreFinal(cfg.services)
    ensures Story(cfg, Run(cfg, Start(findings, root, rows, nextId), os))
  {
    if os != [] {
      RunTells(cfg, findings, root, rows, nextId, os[..|os| - 1]);
      RunControl(cfg, findings, root, rows, nextId, os[..|os| - 1]);
      StepTells(cfg, findings, Run(cfg, Start(findings, root, rows, nextId), os[..|os| - 1]), os[|os| - 1]);
    }
  }

  lemma {:induction false} EndsAt(cfg: Config, results: seq<Result>, k: nat)
    requires AllEnd(cfg, results) && k < |results|
    ensures Ends(cfg, results[k])
  {
    if k < |results| - 1 {
      EndsAt(cfg, results[..|results| - 1], k);
    }
  }

  /** Every result of every run of the deployed machine ended for a reason: it passed in its last attempt, or it used up
      its attempts or lacked the required tests, or the model was unavailable or an error ruled a retry out. */
  lemma {:induction false} ResultsEndForAReason(t: Settings, maxAttempts: int, persist: bool, scanId: string,
                                                findings: seq<Finding>, root: Tree, rows: seq<Row>, nextId: nat,
                                                os: seq<Oracle>, k: nat)
    requires k < |Run(TheConfig(t, maxAttempts, persist, scanId), Start(findings, root, rows, nextId), os).results|
    ensures var cfg := TheConfig(t, maxAttempts, persist, scanId);
            Ends(cfg, Run(cfg, Start(findings, root, rows, nextId), os).results[k])
  {
    var cfg := TheConfig(t, maxAttempts, persist, scanId);
    DeployedIsFinalForTests(t);
    RunTells(cfg, findings, root, rows, nextId, os);
    EndsAt(cfg, Run(cfg, Start(findings, root, rows, nextId), os).results, k);
  }
}
