/** Which findings are remediated, and in which order (backend/graph/remediation.py, `select_targets`). */
module Targets {
  import opened Prelude
  import opened Findings
  import opened Sorting

  const MIN_CONFIDENCE := 0.8

  // ----- The first element of every key -----

  function KeysOf<T(==), K(==)>(s: seq<T>, key: T -> Option<K>): set<K> {
    set x | x in s && key(x).Some? :: key(x).value
  }

  /** Elements without a key, and the first element of each key. */
  function FirstPerKey<T(==), K(==)>(s: seq<T>, key: T -> Option<K>): seq<T> {
    if s == [] then []
    else
      var init, last := s[..|s| - 1], s[|s| - 1];
      FirstPerKey(init, key) + if key(last).Some? && key(last).value in KeysOf(init, key) then [] else [last]
  }

  lemma {:induction false} FirstPerKeyMembers<T, K>(s: seq<T>, key: T -> Option<K>, x: T)
    requires x in FirstPerKey(s, key)
    ensures x in s
  {
    if x in FirstPerKey(s[..|s| - 1], key) {
      FirstPerKeyMembers(s[..|s| - 1], key, x);
    }
  }

  /** Every element is kept, or an earlier one with its key is. */
  lemma {:induction false} FirstPerKeyCovers<T, K>(s: seq<T>, key: T -> Option<K>, leq: (T, T) -> bool, i: nat)
    returns (x: T)
    requires i < |s| && SortedBy(s, leq)
    ensures x in FirstPerKey(s, key)
    ensures x == s[i] || (leq(x, s[i]) && key(x).Some? && key(x) == key(s[i]))
  {
    var n := |s| - 1;
    if i < n {
      x := FirstPerKeyCovers(s[..n], key, leq, i);
    } else if key(s[n]).Some? && key(s[n]).value in KeysOf(s[..n], key) {
      var y :| y in s[..n] && key(y) == key(s[n]);
      var j :| 0 <= j < n && s[j] == y;
      x := FirstPerKeyCovers(s[..n], key, leq, j);
      FirstPerKeyMembers(s[..n], key, x);
      var k :| 0 <= k < n && s[k] == x;
      assert leq(s[k], s[n]);
    } else {
      x := s[n];
    }
  }

  lemma {:induction false} FirstPerKeyOrdered<T, K>(s: seq<T>, key: T -> Option<K>, leq: (T, T) -> bool)
    requires SortedBy(s, leq)
    ensures SortedBy(FirstPerKey(s, key), leq)
  {
    if s != [] {
      var n := |s| - 1;
      FirstPerKeyOrdered(s[..n], key, leq);
      forall x | x in FirstPerKey(s[..n], key) ensures leq(x, s[n]) {
        FirstPerKeyMembers(s[..n], key, x);
        var j :| 0 <= j < n && s[j] == x;
      }
    }
  }

  ghost predicate UniqueKeys<T, K>(s: seq<T>, key: T -> Option<K>) {
    forall i, j :: 0 <= i < j < |s| && key(s[i]).Some? ==> key(s[i]) != key(s[j])
  }

  lemma {:induction false} FirstPerKeyUnique<T, K>(s: seq<T>, key: T -> Option<K>)
    ensures UniqueKeys(FirstPerKey(s, key), key)
  {
    if s != [] {
      var n := |s| - 1;
      var kept := FirstPerKey(s[..n], key);
      FirstPerKeyUnique(s[..n], key);
      forall i | 0 <= i < |kept| && key(kept[i]).Some? ensures key(kept[i]).value in KeysOf(s[..n], key) {
        FirstPerKeyMembers(s[..n], key, kept[i]);
      }
    }
  }

  /** `s[:n]`, counting from the end when `n` is negative. */
  function Upto<T>(s: seq<T>, n: int): seq<T> {
    if n >= 0 then s[..Min(n, |s|)] else s[..Max(0, |s| + n)]
  }

  // ----- The selection -----

  /** Only findings the analyst validated with enough confidence. */
  predicate Eligible(f: Finding) {
    f.analysis.Some? && f.analysis.value.verdict == TruePositive && f.analysis.value.confidence >= MIN_CONFIDENCE
  }

  predicate IsCandidate(f: Finding, onlyNew: bool) {
    Eligible(f) && !(onlyNew && f.prScope == Existing)
  }

  function Priority(f: Finding): int {
    if f.analysis.Some? then f.analysis.value.priority else 3
  }

  function Confidence(f: Finding): real {
    if f.analysis.Some? then f.analysis.value.confidence else 0.0
  }

  /** Smallest priority number first, then highest confidence. */
  predicate UrgentLeq(f: Finding, g: Finding) {
    Priority(f) < Priority(g) || (Priority(f) == Priority(g) && Confidence(f) >= Confidence(g))
  }

  /** What one upgrade fixes at once: a package of a file. */
  function PackageKey(f: Finding): Option<(string, string)> {
    if Truthy(f.package) then Some((f.file, f.package.value)) else None
  }

  function Queue(findings: seq<Finding>, onlyNew: bool): seq<Finding> {
    StableSort(Filter(findings, (f: Finding) => IsCandidate(f, onlyNew)), UrgentLeq)
  }

  function Selected(findings: seq<Finding>, onlyNew: bool, maxTargets: int): seq<Finding> {
    Upto(FirstPerKey(Queue(findings, onlyNew), PackageKey), maxTargets)
  }

  method SelectTargets(findings: seq<Finding>, onlyNew: bool, maxTargets: int) returns (r: seq<Finding>)
    ensures r == Selected(findings, onlyNew, maxTargets)
  {
    var cands := StableSort(Filter(findings, (f: Finding) => IsCandidate(f, onlyNew)), UrgentLeq);
    var kept := DropRepeats(cands, PackageKey);
    r := Upto(kept, maxTargets);
  }

  /** The loop over the sorted candidates, with its set of seen keys. */
  method DropRepeats<T(==), K(==)>(cands: seq<T>, key: T -> Option<K>) returns (targets: seq<T>)
    ensures targets == FirstPerKey(cands, key)
  {
    var seen: set<K> := {};
    targets := [];
    for i := 0 to |cands|
      invariant seen == KeysOf(cands[..i], key)
      invariant targets == FirstPerKey(cands[..i], key)
    {
      var f := cands[i];
      var before := cands[..i];
      assert cands[..i + 1] == before + [f];
      KeysSnoc(before, f, key);
      assert (before + [f])[..i] == before;
      if key(f).Some? {
        if key(f).value in seen {
          continue;
        }
        seen := seen + {key(f).value};
      }
      targets := targets + [f];
    }
    assert cands[..|cands|] == cands;
  }

  lemma {:induction false} KeysSnoc<T, K>(s: seq<T>, x: T, key: T -> Option<K>)
    ensures KeysOf(s + [x], key) == KeysOf(s, key) + if key(x).Some? then {key(x).value} else {}
  {
    assert forall y :: y in s + [x] <==> y in s || y == x;
  }

  lemma {:induction false} QueueMembers(findings: seq<Finding>, onlyNew: bool)
    ensures forall f :: f in Queue(findings, onlyNew) <==> f in findings && IsCandidate(f, onlyNew)
    ensures SortedBy(Queue(findings, onlyNew), UrgentLeq)
  {
    var keep := (f: Finding) => IsCandidate(f, onlyNew);
    FilterMembers(findings, keep);
    SortMembers(Filter(findings, keep), UrgentLeq);
    UrgencyIsPreorder();
    SortSorts(Filter(findings, keep), UrgentLeq);
  }

  lemma {:induction false} UrgencyIsPreorder()
    ensures TotalPreorder(UrgentLeq)
  {
  }

  /** What remediation takes on: the analyst is at least 0.8 sure that it is real, and it is not an old finding where
      only new ones count. */
  predicate Worthy(f: Finding, onlyNew: bool) {
    && f.analysis.Some? && f.analysis.value.verdict == TruePositive && f.analysis.value.confidence >= 0.8
    && (onlyNew ==> f.prScope == New || f.prScope == UnknownScope)
  }

  /** Smaller priority number, or the same and no less confidence. */
  predicate NoLessUrgent(f: Finding, g: Finding) {
    && f.analysis.Some? && g.analysis.Some?
    && (|| f.analysis.value.priority < g.analysis.value.priority
        || (f.analysis.value.priority == g.analysis.value.priority &&
            f.analysis.value.confidence >= g.analysis.value.confidence))
  }

  /** One upgrade would fix both. */
  predicate OneUpgrade(f: Finding, g: Finding) {
    f.file == g.file && f.package == g.package && f.package.Some? && f.package.value != ""
  }

  /** Targets are worthy findings, most urgent first, within the cap, and no two of one upgrade. */
  lemma {:induction false} TargetsAreCandidates(findings: seq<Finding>, onlyNew: bool, maxTargets: int)
    ensures var targets := Selected(findings, onlyNew, maxTargets);
            && (forall t :: t in targets ==> t in findings && Worthy(t, onlyNew))
            && (forall i, j :: 0 <= i < j < |targets| ==>
                  NoLessUrgent(targets[i], targets[j]) && !OneUpgrade(targets[i], targets[j]))
            && (maxTargets >= 0 ==> |targets| <= maxTargets)
  {
    var queue := Queue(findings, onlyNew);
    var kept, targets := FirstPerKey(queue, PackageKey), Selected(findings, onlyNew, maxTargets);
    QueueMembers(findings, onlyNew);
    FirstPerKeyOrdered(queue, PackageKey, UrgentLeq);
    FirstPerKeyUnique(queue, PackageKey);
    forall t | t in targets ensures t in queue {
      FirstPerKeyMembers(queue, PackageKey, t);
    }
    forall i, j | 0 <= i < j < |targets|
      ensures NoLessUrgent(targets[i], targets[j]) && !OneUpgrade(targets[i], targets[j])
    {
      assert targets[i] == kept[i] && targets[j] == kept[j] && UrgentLeq(kept[i], kept[j]);
      assert targets[i] in targets && targets[j] in targets;
      assert PackageKey(kept[i]).Some? ==> PackageKey(kept[i]) != PackageKey(kept[j]);
    }
  }

  /** Of two targets the earlier one has the smaller priority number or, with equal numbers, no less confidence. */
  lemma {:induction false} TargetsByUrgency(findings: seq<Finding>, onlyNew: bool, maxTargets: int, i: nat, j: nat)
    requires i < j < |Selected(findings, onlyNew, maxTargets)|
    ensures var f, g := Selected(findings, onlyNew, maxTargets)[i].analysis,
                        Selected(findings, onlyNew, maxTargets)[j].analysis;
            && f.Some? && g.Some? && f.value.priority <= g.value.priority
            && (f.value.priority == g.value.priority ==> f.value.confidence >= g.value.confidence)
  {
    TargetsAreCandidates(findings, onlyNew, maxTargets);
    var targets := Selected(findings, onlyNew, maxTargets);
    assert NoLessUrgent(targets[i], targets[j]);
  }

  /** A worthy finding is passed over only if a target that is no less urgent upgrades its package, or if the selection
      is cut off at the cap and every target is no less urgent. */
  lemma {:induction false} PassedOverForUrgency(findings: seq<Finding>, onlyNew: bool, maxTargets: int, f: Finding)
    requires f in findings && Worthy(f, onlyNew)
    ensures var targets := Selected(findings, onlyNew, maxTargets);
            || f in targets
            || (exists t :: t in targets && OneUpgrade(t, f) && NoLessUrgent(t, f))
            || ((maxTargets >= 0 ==> |targets| == maxTargets) && forall t :: t in targets ==> NoLessUrgent(t, f))
  {
    var queue := Queue(findings, onlyNew);
    QueueMembers(findings, onlyNew);
    var i :| 0 <= i < |queue| && queue[i] == f;
    var x := FirstPerKeyCovers(queue, PackageKey, UrgentLeq, i);
    var kept, targets := FirstPerKey(queue, PackageKey), Selected(findings, onlyNew, maxTargets);
    TargetsAreCandidates(findings, onlyNew, maxTargets);
    FirstPerKeyMembers(queue, PackageKey, x);
    if x !in targets {
      FirstPerKeyOrdered(queue, PackageKey, UrgentLeq);
      forall t | t in targets ensures NoLessUrgent(t, f) {
        BeforeTheCut(kept, |targets|, UrgentLeq, t, x);
      }
    }
  }

  lemma {:induction false} BeforeTheCut<T>(s: seq<T>, n: nat, leq: (T, T) -> bool, t: T, x: T)
    requires SortedBy(s, leq) && n <= |s| && t in s[..n] && x in s && x !in s[..n]
    ensures leq(t, x) && n < |s|
  {
    assert s == s[..n] + s[n..];
    var j :| 0 <= j < n && s[..n][j] == t;
    var k :| 0 <= k < |s[n..]| && s[n..][k] == x;
    assert leq(s[j], s[n + k]);
  }
}
