/** What a finished run leaves behind: one result per target, the statuses of the findings, and rows whose replay on a
    branch reproduces the verified tree. */
module RemediationOutcomes {
  import opened Prelude
  import opened Findings
  import opened Sorting
  import opened Patching
  import Targets
  import opened Verification
  import opened Store
  import opened Remediation
  import opened RemediationRuns
  import opened RemediationTrees

  // ----- Targets and lookups -----

  lemma {:induction false} ByIdFinds(findings: seq<Finding>, f: Finding)
    requires f in findings
    ensures ById(findings, f.id).Some?
  {
    var n := |findings| - 1;
    if findings[n].id != f.id {
      assert findings == findings[..n] + [findings[n]];
      ByIdFinds(findings[..n], f);
    }
  }

  /** No lookup of a target can miss: the machine always finds the finding it works on. */
  lemma {:induction false} LookupsNeverMiss(t: Settings, maxAttempts: int, persist: bool, scanId: string,
                                            findings: seq<Finding>, root: Tree, rows: seq<Row>, nextId: nat,
                                            os: seq<Oracle>)
    ensures var s := Run(TheConfig(t, maxAttempts, persist, scanId), Start(findings, root, rows, nextId), os);
            (s.node == AtPropose || s.node == AtVerify || s.node.AtRecord?) ==>
              Target(s).Some? && Target(s).value in findings
  {
    var cfg := TheConfig(t, maxAttempts, persist, scanId);
    var s := Run(cfg, Start(findings, root, rows, nextId), os);
    RunControl(cfg, findings, root, rows, nextId, os);
    if s.node == AtPropose || s.node == AtVerify || s.node.AtRecord? {
      SelectedAreFound(t, cfg, findings, s.idx);
    }
  }

  lemma {:induction false} SelectedAreFound(t: Settings, cfg: Config, findings: seq<Finding>, k: nat)
    requires cfg.services == TheServices(t) && k < |SelectedIds(cfg, findings)|
    ensures ById(findings, SelectedIds(cfg, findings)[k]).Some?
  {
    var selected := Targets.Selected(findings, t.onlyNew, t.maxTargets);
    Targets.TargetsAreCandidates(findings, t.onlyNew, t.maxTargets);
    assert selected[k] in selected;
    ByIdFinds(findings, selected[k]);
  }

  /** Nothing is selected, the project has no tests, or its own tests pass: then the selected targets are taken. */
  predicate TargetsTaken(cfg: Config, findings: seq<Finding>, root: Tree, os: seq<Oracle>) {
    SelectedIds(cfg, findings) == [] || !cfg.hasTests(root) || (os != [] && os[0].baselineTests == Answered(true))
  }

  lemma {:induction false} ProposedKeepsTargets(cfg: Config, s: State, check: PatchCheck)
    ensures Proposed(cfg, s, check).targets == s.targets && Proposed(cfg, s, check).node != AtInit
  {
    if !(check.ok && check.patch.Some?) {
      var declined := exists e :: e in check.errors && cfg.declines(e);
      assert Refuse(cfg, s, check.errors, declined).targets == s.targets;
    }
  }

  lemma {:induction false} ProposeKeepsTargets(cfg: Config, s: State, o: Oracle)
    ensures Propose(cfg, s, o).targets == s.targets && Propose(cfg, s, o).node != AtInit
  {
    if Target(s).Some? {
      var f := Target(s).value;
      ProposedKeepsTargets(cfg, s, cfg.services.upgrade(s.remRoot, f, s.findings));
      if o.llm.Offered? {
        ProposedKeepsTargets(cfg, s, cfg.services.validate(s.remRoot, f, o.llm.proposal));
      }
    }
  }

  lemma {:induction false} CheckedKeepsTargets(cfg: Config, s: State, f: Finding, files: Tree, tree: Tree, v: Judgement,
                                               run: ToolRun)
    requires v.Judged?
    ensures Checked(cfg, s, f, files, tree, v, run).targets == s.targets
  {
  }

  lemma {:induction false} CheckedGoesOn(cfg: Config, s: State, f: Finding, files: Tree, tree: Tree, v: Judgement,
                                         run: ToolRun)
    requires v.Judged?
    ensures Checked(cfg, s, f, files, tree, v, run).node != AtInit
  {
  }

  lemma {:induction false} VerifyKeepsTargets(cfg: Config, s: State, o: Oracle)
    ensures Verify(cfg, s, o).targets == s.targets && Verify(cfg, s, o).node != AtInit
  {
    if Target(s).Some? && s.current.Some? {
      var f, files := Target(s).value, s.current.value.files;
      var copy := cfg.services.copy(s.remRoot, files);
      if copy.Some? {
        var v := cfg.services.judge(o.run, copy.value, f, s.baseline);
        if v.Judged? {
          CheckedKeepsTargets(cfg, s, f, files, copy.value, v, o.run);
          CheckedGoesOn(cfg, s, f, files, copy.value, v, o.run);
        }
      }
    }
  }

  lemma {:induction false} StepKeepsTargets(cfg: Config, s: State, o: Oracle)
    requires s.node != AtInit
    ensures Step(cfg, s, o).targets == s.targets && Step(cfg, s, o).node != AtInit
  {
    match s.node
    case AtNext =>
    case AtPropose => ProposeKeepsTargets(cfg, s, o);
    case AtVerify => VerifyKeepsTargets(cfg, s, o);
    case AtRecord(outcome) =>
      assert Record(cfg, s, outcome).targets == s.targets;
    case AtFinish =>
    case AtEnd =>
    case Broken =>
  }

  lemma {:induction false} TargetsOfRun(cfg: Config, findings: seq<Finding>, root: Tree, rows: seq<Row>, nextId: nat,
                                        os: seq<Oracle>)
    requires os != [] && Run(cfg, Start(findings, root, rows, nextId), os).node != Broken
    ensures var s := Run(cfg, Start(findings, root, rows, nextId), os);
            && s.node != AtInit
            && s.targets == if TargetsTaken(cfg, findings, root, os) then SelectedIds(cfg, findings) else []
  {
    var init, o := os[..|os| - 1], os[|os| - 1];
    if init == [] {
      assert Run(cfg, Start(findings, root, rows, nextId), init) == Start(findings, root, rows, nextId);
    } else {
      assert init[0] == os[0];
      TargetsOfRun(cfg, findings, root, rows, nextId, init);
      StepKeepsTargets(cfg, Run(cfg, Start(findings, root, rows, nextId), init), o);
    }
  }

  /** At the end every target has exactly one result, in order, and none took more attempts than allowed. The targets
      are the selected ones, and none only if the project has tests and they failed from the start. */
  lemma {:induction false} EveryTargetIsRecorded(cfg: Config, findings: seq<Finding>, root: Tree, rows: seq<Row>,
                                                 nextId: nat, os: seq<Oracle>)
    requires Run(cfg, Start(findings, root, rows, nextId), os).node == AtEnd
    ensures var s := Run(cfg, Start(findings, root, rows, nextId), os);
            && ResultIds(s.results) == s.targets
            && s.targets == (if TargetsTaken(cfg, findings, root, os) then SelectedIds(cfg, findings) else [])
            && forall k :: 0 <= k < |s.results| ==> s.results[k].attempts <= Bound(cfg)
  {
    var s := Run(cfg, Start(findings, root, rows, nextId), os);
    RunControl(cfg, findings, root, rows, nextId, os);
    TargetsOfRun(cfg, findings, root, rows, nextId, os);
    assert s.targets[..|s.targets|] == s.targets;
    forall k | 0 <= k < |s.results| ensures s.results[k].attempts <= Bound(cfg) {
      BoundedAt(s.results, Bound(cfg), k);
    }
  }

  lemma {:induction false} BoundedAt(results: seq<Result>, bound: int, k: nat)
    requires AttemptsBounded(results, bound) && k < |results|
    ensures results[k].attempts <= bound
  {
    if k < |results| - 1 {
      BoundedAt(results[..|results| - 1], bound, k);
    }
  }

  // ----- Unique targets -----

  lemma {:induction false} FirstPerKeyDistinct<T, K, J>(s: seq<T>, key: T -> Option<K>, id: T -> J)
    requires DistinctBy(s, id)
    ensures DistinctBy(Targets.FirstPerKey(s, key), id)
  {
    if s != [] {
      var n := |s| - 1;
      var kept := Targets.FirstPerKey(s[..n], key);
      FirstPerKeyDistinct(s[..n], key, id);
      forall i | 0 <= i < |kept| ensures id(kept[i]) != id(s[n]) {
        Targets.FirstPerKeyMembers(s[..n], key, kept[i]);
        var j :| 0 <= j < n && s[j] == kept[i];
      }
    }
  }

  lemma {:induction false} DistinctIds(findings: seq<Finding>)
    ensures Distinct(Ids(findings)) <==> DistinctBy(findings, IdOf)
  {
    assert forall i :: 0 <= i < |findings| ==> Ids(findings)[i] == IdOf(findings[i]);
  }

  lemma {:induction false} SelectedAreDistinct(t: Settings, cfg: Config, findings: seq<Finding>)
    requires cfg.services == TheServices(t) && Distinct(Ids(findings))
    ensures Distinct(SelectedIds(cfg, findings))
  {
    var keep := (f: Finding) => Targets.IsCandidate(f, t.onlyNew);
    var cands := Filter(findings, keep);
    var queue := StableSort(cands, Targets.UrgentLeq);
    DistinctIds(findings);
    FilterDistinct(findings, keep, IdOf);
    SortDistinct(cands, Targets.UrgentLeq, IdOf);
    FirstPerKeyDistinct(queue, Targets.PackageKey, IdOf);
    PrefixDistinct(Targets.FirstPerKey(queue, Targets.PackageKey), t.maxTargets);
    DistinctIds(Targets.Selected(findings, t.onlyNew, t.maxTargets));
  }

  lemma {:induction false} PrefixDistinct(s: seq<Finding>, n: int)
    requires DistinctBy(s, IdOf)
    ensures DistinctBy(Targets.Upto(s, n), IdOf)
  {
  }

  // ----- Statuses -----

  lemma {:induction false} ResultForTarget(results: seq<Result>, k: nat)
    requires Distinct(ResultIds(results)) && k < |results|
    ensures ResultFor(results, results[k].id) == Some(results[k])
  {
    var n := |results| - 1;
    ResultIdAt(results, k);
    ResultIdAt(results, n);
    if k < n {
      PrefixOfDistinct(ResultIds(results), ResultIds(results[..n]), results[n].id);
      ResultForTarget(results[..n], k);
    }
  }

  lemma {:induction false} PrefixOfDistinct(all: seq<string>, init: seq<string>, last: string)
    requires all == init + [last] && Distinct(all)
    ensures Distinct(init) && last !in init
  {
    forall i | 0 <= i < |init| ensures init[i] != last {
      assert all[i] == init[i] && all[|init|] == last;
    }
    forall i, j | 0 <= i < j < |init| ensures init[i] != init[j] {
      assert all[i] == init[i] && all[j] == init[j];
    }
  }

  lemma {:induction false} ResultIdAt(results: seq<Result>, k: nat)
    requires k < |results|
    ensures |ResultIds(results)| == |results| && ResultIds(results)[k] == results[k].id
  {
    var n := |results| - 1;
    if n > 0 {
      ResultIdAt(results[..n], if k < n then k else 0);
    }
  }

  lemma {:induction false} ResultForOther(results: seq<Result>, id: string)
    requires id !in ResultIds(results)
    ensures ResultFor(results, id) == None
  {
    if results != [] {
      var n := |results| - 1;
      assert ResultIds(results) == ResultIds(results[..n]) + [results[n].id];
      assert ResultIds(results)[|ResultIds(results)| - 1] == results[n].id;
      ResultForOther(results[..n], id);
    }
  }

  /** With unique ids a finished run marks each target by its own result, fixed when it was repaired and failed when it
      was not, and leaves declined targets and all other findings as they were. */
  lemma {:induction false} FinishMarksByResult(t: Settings, maxAttempts: int, persist: bool, scanId: string,
                                               findings: seq<Finding>, root: Tree, rows: seq<Row>, nextId: nat,
                                               os: seq<Oracle>, i: nat)
    requires Distinct(Ids(findings)) && i < |findings|
    requires Run(TheConfig(t, maxAttempts, persist, scanId), Start(findings, root, rows, nextId), os).node == AtEnd
    ensures var s := Run(TheConfig(t, maxAttempts, persist, scanId), Start(findings, root, rows, nextId), os);
            && |s.findings| == |findings| && |s.results| == |s.targets|
            && (findings[i].id !in s.targets ==> s.findings[i] == findings[i])
            && (forall k :: 0 <= k < |s.targets| && s.targets[k] == findings[i].id ==>
                  s.findings[i] == match s.results[k].outcome
                                   case Repaired => findings[i].(status := Fixed)
                                   case Failed => findings[i].(status := FixFailed)
                                   case Declined => findings[i])
  {
    var cfg := TheConfig(t, maxAttempts, persist, scanId);
    var s := Run(cfg, Start(findings, root, rows, nextId), os);
    EndFacts(t, cfg, findings, root, rows, nextId, os);
    if findings[i].id !in s.targets {
      ResultForOther(s.results, findings[i].id);
    }
    forall k | 0 <= k < |s.targets| && s.targets[k] == findings[i].id
      ensures ResultFor(s.results, findings[i].id) == Some(s.results[k])
    {
      ResultIdAt(s.results, k);
      ResultForTarget(s.results, k);
    }
  }

  lemma {:induction false} EndFacts(t: Settings, cfg: Config, findings: seq<Finding>, root: Tree, rows: seq<Row>,
                                    nextId: nat, os: seq<Oracle>)
    requires cfg.services == TheServices(t) && Distinct(Ids(findings))
    requires Run(cfg, Start(findings, root, rows, nextId), os).node == AtEnd
    ensures var s := Run(cfg, Start(findings, root, rows, nextId), os);
            && |s.results| == |s.targets| && ResultIds(s.results) == s.targets && Distinct(s.targets)
            && s.findings == Updated(findings, s.results)
  {
    var s := Run(cfg, Start(findings, root, rows, nextId), os);
    RunControl(cfg, findings, root, rows, nextId, os);
    RunTrees(cfg, findings, root, rows, nextId, os);
    SelectedAreDistinct(t, cfg, findings);
    assert s.targets[..|s.targets|] == s.targets;
  }
}
