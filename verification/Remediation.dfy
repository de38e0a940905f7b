/** The remediation subgraph (backend/graph/remediation.py) as a state machine: init, then for each target propose,
    verify and record with bounded retries, then finish. The model, the tools and the test runs are oracles. */
module Remediation {
  import opened Prelude
  import opened Findings
  import opened Patching
  import Upgrades
  import Targets
  import opened Verification
  import opened Store

  /** The services that the nodes call. */
  datatype Services = Services(
    select: seq<Finding> -> seq<Finding>,
    upgrade: (Tree, Finding, seq<Finding>) -> PatchCheck,
    validate: (Tree, Finding, Proposal) -> PatchCheck,
    copy: (Tree, Tree) -> Option<Tree>,
    judge: (ToolRun, Tree, Finding, seq<Finding>) -> Judgement)

  datatype Config = Config(maxAttempts: int, hasTests: Tree -> bool, declines: PatchError -> bool, persist: bool,
                           scanId: string, services: Services)

  /** What the services depend on. `saysNotPinned` tells whether the text of an error contains the words
      "is not pinned". */
  datatype Settings = Settings(onlyNew: bool, maxTargets: int, requireTests: bool, hasTests: Tree -> bool, env: Env,
                               saysNotPinned: PatchError -> bool)

  predicate Declines(saysNotPinned: PatchError -> bool, e: PatchError) {
    e.ModelDeclined? || e.NoFixedVersion? || e.UpgradeUnsupported? || e.NoEdits? || e.NotPinned? || saysNotPinned(e)
  }

  function TheServices(t: Settings): Services {
    Services((findings: seq<Finding>) => Targets.Selected(findings, t.onlyNew, t.maxTargets),
             (tree: Tree, f: Finding, all: seq<Finding>) => Upgrades.DependencyPatch(t.env, tree, f,
                 DictValues(all, IdOf)),
             (tree: Tree, f: Finding, p: Proposal) => Validated(t.env, tree, f, p, {}),
             Copy,
             (run: ToolRun, tree: Tree, f: Finding, baseline: seq<Finding>) =>
               Judge(run, t.hasTests(tree), t.requireTests, f, baseline))
  }

  /** The machine as it is deployed. */
  function TheConfig(t: Settings, maxAttempts: int, persist: bool, scanId: string): Config {
    Config(maxAttempts, t.hasTests, (e: PatchError) => Declines(t.saysNotPinned, e), persist, scanId, TheServices(t))
  }

  datatype Outcome = Repaired | Failed | Declined

  datatype Entry =
    | LlmEntry(attempt: int)
    | ProposedEntry(attempt: int, changedLines: nat)
    | RejectedEntry(attempt: int, errors: seq<PatchError>)
    | CheckedEntry(attempt: int, passed: bool, checks: Checks, failure: Failure)

  datatype Feedback = NoFeedback | Unavailable | Objections(errors: seq<PatchError>) | FailedChecks(failure: Failure)

  datatype Result = Result(id: string, fingerprint: string, outcome: Outcome, attempts: nat,
      patch: Option<AppliedPatch>,
                           files: Tree, checks: Checks, failure: Feedback, history: seq<Entry>)

  /** The node that runs next. */
  datatype Node = AtInit | AtNext | AtPropose | AtVerify | AtRecord(outcome: Outcome) | AtFinish | AtEnd | Broken

  /** What a verified patch was accepted for; kept only to state what runs preserve. */
  datatype Accepted = Accepted(finding: Finding, files: Tree, tree: Tree, run: ToolRun, checks: Checks)

  datatype State = State(
    node: Node, findings: seq<Finding>, root: Tree, baseline: seq<Finding>,
    targets: seq<string>, idx: int, attempt: int, feedback: Feedback, current: Option<AppliedPatch>,
    history: seq<Entry>, declined: bool, verified: bool, retriable: bool,
    remRoot: Tree, results: seq<Result>, finalFiles: Tree, rows: seq<Row>, nextId: nat,
    log: seq<Accepted>)

  datatype LlmAnswer = LlmDown | LlmBroken | Offered(proposal: Proposal)

  /** What the outside world answers during one step. */
  datatype Oracle = Oracle(baselineTests: Answer<bool>, llm: LlmAnswer, run: ToolRun)

  function Start(findings: seq<Finding>, root: Tree, rows: seq<Row>, nextId: nat): State {
    State(AtInit, findings, root, [], [], -1, 1, NoFeedback, None, [], false, false, true, root, [], map[], rows,
        nextId, [])
  }

  function IdOf(f: Finding): string {
    f.id
  }

  /** `_by_id(state)[id]`: the last finding with that id. */
  function ById(findings: seq<Finding>, id: string): (f: Option<Finding>)
    ensures f.Some? ==> f.value in findings && f.value.id == id
  {
    if findings == [] then None
    else if findings[|findings| - 1].id == id then Some(findings[|findings| - 1])
    else ById(findings[..|findings| - 1], id)
  }

  /** The finding that the machine works on. */
  function Target(s: State): Option<Finding> {
    if 0 <= s.idx < |s.targets| then ById(s.findings, s.targets[s.idx]) else None
  }

  // ----- The nodes -----

  function Ready(s: State, targets: seq<string>): State {
    s.(node := AtNext, baseline := s.findings, targets := targets, idx := -1, remRoot := s.root, results := [])
  }

  /** Nothing is remediated when the project's own tests already fail. */
  function Prepared(cfg: Config, s: State, targets: seq<string>, baselineTests: Answer<bool>): State {
    if targets == [] || !cfg.hasTests(s.root) then Ready(s, targets)
    else
      match baselineTests
      case Raised => s.(node := Broken, baseline := s.findings)
      case Answered(passed) => Ready(s, if passed then targets else [])
  }

  function Init(cfg: Config, s: State, o: Oracle): State {
    Prepared(cfg, s, Ids(cfg.services.select(s.findings)), o.baselineTests)
  }

  function Next(s: State): State {
    s.(idx := s.idx + 1, attempt := 1, feedback := NoFeedback, current := None, history := [], declined := false,
       node := if s.idx + 1 < |s.targets| then AtPropose else AtFinish)
  }

  function RoutePropose(cfg: Config, current: Option<AppliedPatch>, declined: bool, attempt: int): Node {
    if current.Some? then AtVerify
    else if declined then AtRecord(Declined)
    else if attempt <= cfg.maxAttempts then AtPropose
    else AtRecord(Failed)
  }

  function LlmFailed(s: State): State {
    s.(current := None, declined := true, feedback := Unavailable, history := s.history + [LlmEntry(s.attempt)],
       node := AtRecord(Declined))
  }

  function Accept(cfg: Config, s: State, patch: AppliedPatch): State {
    s.(current := Some(patch), history := s.history + [ProposedEntry(s.attempt, patch.changedLines)],
       node := RoutePropose(cfg, Some(patch), s.declined, s.attempt))
  }

  function Refuse(cfg: Config, s: State, errors: seq<PatchError>, declined: bool): State {
    s.(current := None, declined := declined, feedback := Objections(errors), attempt := s.attempt + 1,
       history := s.history + [RejectedEntry(s.attempt, errors)],
       node := RoutePropose(cfg, None, declined, s.attempt + 1))
  }

  /** The update once the guardrails have answered. */
  function Proposed(cfg: Config, s: State, check: PatchCheck): State {
    if check.ok && check.patch.Some? then Accept(cfg, s, check.patch.value)
    else Refuse(cfg, s, check.errors, exists e :: e in check.errors && cfg.declines(e))
  }

  function Propose(cfg: Config, s: State, o: Oracle): State {
    match Target(s)
    case None => s.(node := Broken)
    case Some(f) =>
      if Truthy(f.package) then
        Proposed(cfg, s, cfg.services.upgrade(s.remRoot, f, s.findings))
      else
        match o.llm
        case LlmDown => LlmFailed(s)
        case LlmBroken => s.(node := Broken)
        case Offered(p) => Proposed(cfg, s, cfg.services.validate(s.remRoot, f, p))
  }

  predicate Persists(cfg: Config) {
    cfg.persist && cfg.scanId != ""
  }

  function RouteVerify(cfg: Config, passed: bool, retriable: bool, attempt: int): Node {
    if passed then AtRecord(Repaired)
    else if !retriable || attempt > cfg.maxAttempts then AtRecord(Failed)
    else AtPropose
  }

  /** The update once the tools have answered about the copy `tree` that holds the current patch. */
  function Checked(cfg: Config, s: State, f: Finding, files: Tree, tree: Tree, v: Judgement, run: ToolRun): State
    requires v.Judged?
  {
    var row := Row(s.nextId, cfg.scanId, f.fingerprint, s.attempt,
        if v.passed then RowVerified else RowFailedVerification,
                   if v.passed then files else map[], v.checks, None, None);
    var logged := s.(history := s.history + [CheckedEntry(s.attempt, v.passed, v.checks, v.failure)],
                     rows := if Persists(cfg) then s.rows + [row] else s.rows,
                     nextId := if Persists(cfg) then s.nextId + 1 else s.nextId);
    if v.passed then
      logged.(remRoot := tree, verified := true, log := s.log + [Accepted(f, files, tree, run, v.checks)],
              node := RouteVerify(cfg, true, s.retriable, s.attempt))
    else
      logged.(verified := false, feedback := FailedChecks(v.failure), attempt := s.attempt + 1,
          retriable := v.retriable,
              node := RouteVerify(cfg, false, v.retriable, s.attempt + 1))
  }

  function Verify(cfg: Config, s: State, o: Oracle): State {
    match Target(s)
    case None => s.(node := Broken)
    case Some(f) =>
      if s.current.None? then s.(node := Broken)
      else
        match cfg.services.copy(s.remRoot, s.current.value.files)
        case None => s.(node := Broken)
        case Some(tree) =>
          var v := cfg.services.judge(o.run, tree, f, s.baseline);
          if v.Crashed? then s.(node := Broken) else Checked(cfg, s, f, s.current.value.files, tree, v, o.run)
  }

  /** Attempts that count: everything that was checked or rejected. */
  function CountedAttempts(history: seq<Entry>): nat {
    if history == [] then 0
    else
      var last := history[|history| - 1];
      CountedAttempts(history[..|history| - 1]) + if last.CheckedEntry? || last.RejectedEntry? then 1 else 0
  }

  function LastChecks(history: seq<Entry>): Checks {
    if history != [] && history[|history| - 1].CheckedEntry? then history[|history| - 1].checks else UNCHECKED
  }

  /** `last.get("failure") or feedback`: a passed check has no failure text, so feedback from an earlier attempt
      stays. */
  function LastFailure(history: seq<Entry>, feedback: Feedback): Feedback {
    if history != [] && history[|history| - 1].CheckedEntry? && history[|history| - 1].failure != NoFailure
    then FailedChecks(history[|history| - 1].failure)
    else feedback
  }

  function Recorded(cfg: Config, s: State, f: Finding, outcome: Outcome): State {
    var files := if outcome == Repaired && s.current.Some? then s.current.value.files else map[];
    var r := Result(f.id, f.fingerprint, outcome, CountedAttempts(s.history), s.current, files, LastChecks(s.history),
                    LastFailure(s.history, s.feedback), s.history);
    var saves := Persists(cfg) && outcome != Repaired;
    var row := Row(s.nextId, cfg.scanId, f.fingerprint, r.attempts,
        if outcome == Declined then RowDeclined else RowFailed,
                   map[], UNCHECKED, None, None);
    s.(results := s.results + [r], verified := false, retriable := true,
       rows := if saves then s.rows + [row] else s.rows, nextId := if saves then s.nextId + 1 else s.nextId,
       node := AtNext)
  }

  function Record(cfg: Config, s: State, outcome: Outcome): State {
    match Target(s)
    case None => s.(node := Broken)
    case Some(f) => Recorded(cfg, s, f, outcome)
  }

  /** `{r["finding_id"]: r for r in results}.get(id)`: the last result with that id. */
  function ResultFor(results: seq<Result>, id: string): Option<Result> {
    if results == [] then None
    else if results[|results| - 1].id == id then Some(results[|results| - 1])
    else ResultFor(results[..|results| - 1], id)
  }

  function WithOutcome(f: Finding, r: Option<Result>): Finding {
    if r.None? || r.value.outcome == Declined then f
    else f.(status := if r.value.outcome == Repaired then Fixed else FixFailed)
  }

  function Updated(findings: seq<Finding>, results: seq<Result>): (r: seq<Finding>)
    ensures |r| == |findings|
    ensures forall i :: 0 <= i < |r| ==> r[i] == WithOutcome(findings[i], ResultFor(results, findings[i].id))
  {
    Map((f: Finding) => WithOutcome(f, ResultFor(results, f.id)), findings)
  }

  /** The files of all results, later ones over earlier ones. */
  function FilesOf(results: seq<Result>): Tree {
    if results == [] then map[] else FilesOf(results[..|results| - 1]) + results[|results| - 1].files
  }

  function Finish(s: State): State {
    s.(findings := Updated(s.findings, s.results), finalFiles := FilesOf(s.results), node := AtEnd)
  }

  /** The loops of `finish`. */
  method FinishLoops(findings: seq<Finding>, results: seq<Result>) returns (updated: seq<Finding>, finalFiles: Tree)
    ensures updated == Updated(findings, results) && finalFiles == FilesOf(results)
  {
    var byId: map<string, Result> := map[];
    finalFiles := map[];
    for i := 0 to |results|
      invariant finalFiles == FilesOf(results[..i])
      invariant forall id :: id in byId <==> ResultFor(results[..i], id).Some?
      invariant forall id :: id in byId ==> ResultFor(results[..i], id) == Some(byId[id])
    {
      assert results[..i + 1][..i] == results[..i];
      byId := byId[results[i].id := results[i]];
      finalFiles := finalFiles + results[i].files;
    }
    assert results[..|results|] == results;
    updated := [];
    for i := 0 to |findings|
      invariant updated == Updated(findings, results)[..i]
    {
      var f := findings[i];
      updated := updated + [WithOutcome(f, if f.id in byId then Some(byId[f.id]) else None)];
    }
  }

  // ----- Steps and runs -----

  function Step(cfg: Config, s: State, o: Oracle): State {
    match s.node
    case AtInit => Init(cfg, s, o)
    case AtNext => Next(s)
    case AtPropose => Propose(cfg, s, o)
    case AtVerify => Verify(cfg, s, o)
    case AtRecord(outcome) => Record(cfg, s, outcome)
    case AtFinish => Finish(s)
    case AtEnd => s
    case Broken => s
  }

  /** The state after the given answers of the outside world. */
  function Run(cfg: Config, s: State, oracles: seq<Oracle>): State {
    if oracles == [] then s else Step(cfg, Run(cfg, s, oracles[..|oracles| - 1]), oracles[|oracles| - 1])
  }
}
