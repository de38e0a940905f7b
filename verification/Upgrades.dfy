/** Dependency upgrades without a model (the second half of backend/services/remediation.py). */
module Upgrades {
  import opened Prelude
  import opened Text
  import opened Findings
  import opened Patching
  import opened Sorting

  // ----- Version order -----

  /** Python's `<` on tuples of numbers. */
  predicate KeyLess(a: seq<nat>, b: seq<nat>) {
    b != [] && (a == [] || a[0] < b[0] || (a[0] == b[0] && KeyLess(a[1..], b[1..])))
  }

  /** `a` is larger in the first number in which they differ, or `b` ends there. */
  ghost predicate Exceeds(a: seq<nat>, b: seq<nat>) {
    exists k :: 0 <= k < |a| && k <= |b| && a[..k] == b[..k] && (k < |b| ==> a[k] > b[k])
  }

  lemma {:induction false} KeyLessExactly(a: seq<nat>, b: seq<nat>)
    ensures KeyLess(a, b) <==> Exceeds(b, a)
  {
    if a == [] || b == [] {
      assert b[..0] == a[..0];
    } else {
      KeyLessExactly(a[1..], b[1..]);
      if k :| 0 <= k < |b| && k <= |a| && b[..k] == a[..k] && (k < |a| ==> b[k] > a[k]) && k > 0 {
        assert a[0] == a[..k][0] == b[0];
        assert b[1..][..k - 1] == b[..k][1..] == a[..k][1..] == a[1..][..k - 1];
        assert Exceeds(b[1..], a[1..]);
      }
      if a[0] < b[0] {
        assert b[..0] == a[..0];
      }
      if a[0] == b[0] && Exceeds(b[1..], a[1..]) {
        var k :| 0 <= k < |b[1..]| && k <= |a[1..]| && b[1..][..k] == a[1..][..k] &&
                 (k < |a[1..]| ==> b[1..][k] > a[1..][k]);
        assert b[..k + 1] == [b[0]] + b[1..][..k] == a[..k + 1];
      }
    }
  }

  lemma {:induction false} KeyOrder(a: seq<nat>, b: seq<nat>, c: seq<nat>)
    ensures !KeyLess(a, a)
    ensures KeyLess(a, b) ==> !KeyLess(b, a)
    ensures !KeyLess(b, a) && !KeyLess(c, b) ==> !KeyLess(c, a)
    decreases |a| + |b| + |c|
  {
    if a != [] || b != [] || c != [] {
      var at, bt, ct := if a == [] then a else a[1..], if b == [] then b else b[1..], if c == [] then c else c[1..];
      KeyOrder(at, bt, ct);
    }
  }

  predicate OlderThan(v: Version, w: Version) {
    KeyLess(v.key, w.key)
  }

  lemma {:induction false} OlderIsWeakOrder()
    ensures WeakOrder(OlderThan)
  {
    forall a, b, c
      ensures !OlderThan(a, a)
      ensures OlderThan(a, b) ==> !OlderThan(b, a)
      ensures !OlderThan(b, a) && !OlderThan(c, b) ==> !OlderThan(c, a)
    {
      KeyOrder(a.key, b.key, c.key);
    }
  }

  function MaxVersion(vs: seq<Version>): Version
    requires vs != []
  {
    FirstMax(vs, OlderThan)
  }

  // ----- The target of an upgrade -----

  predicate SamePackage(f: Finding, x: Finding) {
    x.package == f.package && x.file == f.file
  }

  /** The fixed versions named by each finding of the same package in the same file. */
  function Advisories(env: Env, f: Finding, all: seq<Finding>): seq<seq<Version>> {
    if all == [] then []
    else
      var x := all[|all| - 1];
      Advisories(env, f, all[..|all| - 1]) + if SamePackage(f, x) then [env.fixedVersions(x)] else []
  }

  /** `fixed_dependency_version` of every finding that names a fixed version: the best of each advisory. */
  function BestOfEach(advisories: seq<seq<Version>>): seq<Version> {
    if advisories == [] then []
    else
      var last := advisories[|advisories| - 1];
      BestOfEach(advisories[..|advisories| - 1]) + if last != [] then [MaxVersion(last)] else []
  }

  function KnownFixes(env: Env, f: Finding, all: seq<Finding>): seq<Version> {
    BestOfEach(Advisories(env, f, all))
  }

  /** `v` is a fixed version named by a finding of this package in this file. */
  ghost predicate Named(env: Env, f: Finding, all: seq<Finding>, v: Version) {
    exists x :: x in all && x.package == f.package && x.file == f.file && v in env.fixedVersions(x)
  }

  ghost predicate Listed(advisories: seq<seq<Version>>, v: Version) {
    exists vs :: vs in advisories && v in vs
  }

  lemma {:induction false} NamedIsListed(env: Env, f: Finding, all: seq<Finding>, v: Version)
    ensures Named(env, f, all, v) <==> Listed(Advisories(env, f, all), v)
  {
    if all != [] {
      var init, last := all[..|all| - 1], all[|all| - 1];
      NamedIsListed(env, f, init, v);
      NamedSnoc(env, f, init, last, v);
      assert all == init + [last];
      if SamePackage(f, last) {
        ListedSnoc(Advisories(env, f, init), env.fixedVersions(last), v);
      }
    }
  }

  lemma {:induction false} NamedSnoc(env: Env, f: Finding, init: seq<Finding>, last: Finding, v: Version)
    ensures Named(env, f, init + [last], v) <==>
              Named(env, f, init, v) || (SamePackage(f, last) && v in env.fixedVersions(last))
  {
    var all := init + [last];
    assert last in all && forall x :: x in all <==> x in init || x == last;
  }

  lemma {:induction false} ListedSnoc(init: seq<seq<Version>>, last: seq<Version>, v: Version)
    ensures Listed(init + [last], v) <==> Listed(init, v) || v in last
  {
    var all := init + [last];
    assert last in all && forall x :: x in all <==> x in init || x == last;
  }

  lemma {:induction false} BestIsListed(advisories: seq<seq<Version>>, v: Version)
    requires v in BestOfEach(advisories)
    ensures Listed(advisories, v)
  {
    OlderIsWeakOrder();
    var init, last := advisories[..|advisories| - 1], advisories[|advisories| - 1];
    assert advisories == init + [last];
    ListedSnoc(init, last, v);
    if v in BestOfEach(init) {
      BestIsListed(init, v);
    } else {
      FirstMaxIsMax(last, OlderThan, last[0]);
    }
  }

  lemma {:induction false} ListedHasBest(advisories: seq<seq<Version>>, v: Version) returns (w: Version)
    requires Listed(advisories, v)
    ensures w in BestOfEach(advisories) && !OlderThan(w, v)
  {
    OlderIsWeakOrder();
    var init, last := advisories[..|advisories| - 1], advisories[|advisories| - 1];
    assert advisories == init + [last];
    ListedSnoc(init, last, v);
    if v in last {
      w := MaxVersion(last);
      FirstMaxIsMax(last, OlderThan, v);
    } else {
      w := ListedHasBest(init, v);
    }
  }

  /** Nothing named for this package is newer than `v`. */
  ghost predicate Newest(env: Env, f: Finding, all: seq<Finding>, v: Version) {
    Named(env, f, all, v) && forall w :: Named(env, f, all, w) ==> !Exceeds(w.key, v.key)
  }

  /** The chosen version is the newest of all versions that fix some finding of the package in that file. */
  lemma {:induction false} TargetIsNewest(env: Env, f: Finding, all: seq<Finding>)
    requires KnownFixes(env, f, all) != []
    ensures Newest(env, f, all, MaxVersion(KnownFixes(env, f, all)))
  {
    var best := KnownFixes(env, f, all);
    var v := MaxVersion(best);
    OlderIsWeakOrder();
    FirstMaxIsMax(best, OlderThan, best[0]);
    BestIsListed(Advisories(env, f, all), v);
    NamedIsListed(env, f, all, v);
    forall w | Named(env, f, all, w) ensures !Exceeds(w.key, v.key) {
      KeyLessExactly(v.key, w.key);
      NamedIsListed(env, f, all, w);
      var u := ListedHasBest(Advisories(env, f, all), w);
      FirstMaxIsMax(best, OlderThan, u);
    }
  }

  lemma {:induction false} NoFixIsNamed(env: Env, f: Finding, all: seq<Finding>, v: Version)
    requires KnownFixes(env, f, all) == []
    ensures !Named(env, f, all, v)
  {
    NamedIsListed(env, f, all, v);
    if Listed(Advisories(env, f, all), v) {
      var w := ListedHasBest(Advisories(env, f, all), v);
    }
  }

  // ----- The patch -----

  function PackageOf(f: Finding): string {
    if f.package.Some? then f.package.value else ""
  }

  function DependencyPatch(env: Env, tree: Tree, f: Finding, all: seq<Finding>): PatchCheck {
    var best := KnownFixes(env, f, all);
    if best == [] || !Truthy(f.package) then Reject([NoFixedVersion])
    else if f.file !in tree || LastSegment(f.file) != "requirements.txt" then Reject([UpgradeUnsupported(f.file)])
    else
      var pins := env.pins(PackageOf(f), tree[f.file]);
      if |pins| != 1 then Reject([NotPinned(PackageOf(f), f.file)])
      else
        var upgraded := Pinned(pins[0], MaxVersion(best).text);
        PatchCheck(true, [], Some(AppliedPatch(map[f.file := upgraded],
                                               [RenderAll(env.diff(f.file, tree[f.file], upgraded))], 2,
                                               Explanation(PackageOf(f), MaxVersion(best).text))))
  }

  function Explanation(package: string, version: string): string {
    "Upgrade " + package + " to " + version + ", the newest release that fixes the reported CVEs."
  }

  /** The text around the pin, with another version in it. */
  function Pinned(pin: Pin, version: string): string {
    pin.before + version + pin.after
  }

  /** An upgrade is proposed exactly when a fix is known and the package is pinned once in a requirements file.
      It then rewrites that pin to a version that no finding of the package asks to exceed; otherwise there is no
      patch and exactly one reason. */
  lemma {:induction false} UpgradeIsExact(env: Env, tree: Tree, f: Finding, all: seq<Finding>)
    ensures var check := DependencyPatch(env, tree, f, all);
            && (check.ok <==>
                  && Truthy(f.package) && (exists v :: Named(env, f, all, v))
                  && f.file in tree && LastSegment(f.file) == "requirements.txt"
                  && |env.pins(PackageOf(f), tree[f.file])| == 1)
            && (!check.ok ==> check.patch.None? && |check.errors| == 1)
            && (NoFixedVersion in check.errors <==> !Truthy(f.package) || forall v :: !Named(env, f, all, v))
            && (UpgradeUnsupported(f.file) in check.errors <==>
                  && Truthy(f.package) && (exists v :: Named(env, f, all, v))
                  && !(f.file in tree && LastSegment(f.file) == "requirements.txt"))
            && (check.ok ==>
                  && check.errors == [] && check.patch.Some? && check.patch.value.changedLines == 2
                  && exists v :: Newest(env, f, all, v)
                       && check.patch.value.explanation == Explanation(PackageOf(f), v.text)
                       && check.patch.value.files ==
                            map[f.file := Pinned(env.pins(PackageOf(f), tree[f.file])[0], v.text)])
  {
    var best := KnownFixes(env, f, all);
    if best != [] {
      TargetIsNewest(env, f, all);
      assert Named(env, f, all, MaxVersion(best));
    } else {
      forall v ensures !Named(env, f, all, v) {
        NoFixIsNamed(env, f, all, v);
      }
    }
  }

  /** The pin pattern matches parts of the text: each match is what it is around and the rest of the text. */
  ghost predicate PinsMatch(env: Env) {
    forall package, text, p :: p in env.pins(package, text) ==> p.before + p.version + p.after == text
  }

  /** The texts agree outside one part, which is `was` in the one and `becomes` in the other. */
  ghost predicate DifferIn(text: string, result: string, was: string, becomes: string) {
    exists before, after :: text == before + was + after && result == before + becomes + after
  }

  /** An accepted upgrade changes nothing but the version of the one pin: the file is the same before and after it, and
      the version that is installed is the newest that is named. */
  lemma {:induction false} UpgradeKeepsRest(env: Env, tree: Tree, f: Finding, all: seq<Finding>)
    requires PinsMatch(env) && DependencyPatch(env, tree, f, all).ok
    ensures f.file in tree && |env.pins(PackageOf(f), tree[f.file])| == 1
    ensures DependencyPatch(env, tree, f, all).patch.Some?
    ensures var files := DependencyPatch(env, tree, f, all).patch.value.files;
            && files.Keys == {f.file}
            && exists v :: Newest(env, f, all, v) &&
                 DifferIn(tree[f.file], files[f.file], env.pins(PackageOf(f), tree[f.file])[0].version, v.text)
  {
    UpgradeIsExact(env, tree, f, all);
    var pin := env.pins(PackageOf(f), tree[f.file])[0];
    assert pin in env.pins(PackageOf(f), tree[f.file]);
    var v :| Newest(env, f, all, v) &&
      DependencyPatch(env, tree, f, all).patch.value.files == map[f.file := Pinned(pin, v.text)];
    assert DifferIn(tree[f.file], Pinned(pin, v.text), pin.version, v.text);
  }
}
