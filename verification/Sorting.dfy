/** Python's stable sort, sorted sets of strings, and maximal runs of a list. */
module Sorting {
  import opened Prelude

  ghost predicate TotalPreorder<T(!new)>(leq: (T, T) -> bool) {
    && (forall a, b :: leq(a, b) || leq(b, a))
    && (forall a, b, c :: leq(a, b) && leq(b, c) ==> leq(a, c))
  }

  ghost predicate SortedBy<T>(s: seq<T>, leq: (T, T) -> bool) {
    forall i, j :: 0 <= i < j < |s| ==> leq(s[i], s[j])
  }

  /** Insert before the first element that is not smaller, so that equal elements keep their order. */
  function Insert<T>(x: T, s: seq<T>, leq: (T, T) -> bool): seq<T> {
    if s == [] || leq(x, s[0]) then [x] + s else [s[0]] + Insert(x, s[1..], leq)
  }

  function StableSort<T>(s: seq<T>, leq: (T, T) -> bool): seq<T> {
    if s == [] then [] else Insert(s[0], StableSort(s[1..], leq), leq)
  }

  lemma {:induction false} InsertMultiset<T>(x: T, s: seq<T>, leq: (T, T) -> bool)
    ensures multiset(Insert(x, s, leq)) == multiset{x} + multiset(s)
    ensures |Insert(x, s, leq)| == |s| + 1
  {
    if s != [] && !leq(x, s[0]) {
      InsertMultiset(x, s[1..], leq);
      assert s == [s[0]] + s[1..];
    }
  }

  lemma {:induction false} SortMultiset<T>(s: seq<T>, leq: (T, T) -> bool)
    ensures multiset(StableSort(s, leq)) == multiset(s)
    ensures |StableSort(s, leq)| == |s|
  {
    if s != [] {
      SortMultiset(s[1..], leq);
      InsertMultiset(s[0], StableSort(s[1..], leq), leq);
      assert s == [s[0]] + s[1..];
    }
  }

  lemma {:induction false} SortMembers<T>(s: seq<T>, leq: (T, T) -> bool)
    ensures forall x :: x in StableSort(s, leq) <==> x in s
  {
    SortMultiset(s, leq);
    forall x ensures x in StableSort(s, leq) <==> x in s {
      assert x in multiset(StableSort(s, leq)) <==> x in multiset(s);
    }
  }

  lemma {:induction false} InsertSorted<T(!new)>(x: T, s: seq<T>, leq: (T, T) -> bool)
    requires TotalPreorder(leq) && SortedBy(s, leq)
    ensures SortedBy(Insert(x, s, leq), leq)
  {
    if s != [] && !leq(x, s[0]) {
      var rest := Insert(x, s[1..], leq);
      InsertSorted(x, s[1..], leq);
      InsertMultiset(x, s[1..], leq);
      forall y | y in rest ensures leq(s[0], y) {
        assert y in multiset(rest);
        assert y == x || y in s[1..];
      }
    }
  }

  lemma {:induction false} SortSorts<T(!new)>(s: seq<T>, leq: (T, T) -> bool)
    requires TotalPreorder(leq)
    ensures SortedBy(StableSort(s, leq), leq)
  {
    if s != [] {
      SortSorts(s[1..], leq);
      InsertSorted(s[0], StableSort(s[1..], leq), leq);
    }
  }

  function Filter<T>(s: seq<T>, keep: T -> bool): seq<T> {
    if s == [] then [] else (if keep(s[0]) then [s[0]] else []) + Filter(s[1..], keep)
  }

  lemma {:induction false} FilterMember<T>(s: seq<T>, keep: T -> bool, x: T)
    ensures x in Filter(s, keep) <==> x in s && keep(x)
  {
    if s != [] {
      FilterMember(s[1..], keep, x);
    }
  }

  lemma {:induction false} FilterMembers<T>(s: seq<T>, keep: T -> bool)
    ensures forall x :: x in Filter(s, keep) <==> x in s && keep(x)
  {
    if s != [] {
      FilterMembers(s[1..], keep);
    }
  }

  lemma {:induction false} FilterSnoc<T>(s: seq<T>, x: T, keep: T -> bool)
    ensures Filter(s + [x], keep) == Filter(s, keep) + if keep(x) then [x] else []
  {
    if s == [] {
      assert s + [x] == [x] && [x][1..] == [];
      assert Filter([x][1..], keep) == [];
    } else {
      assert (s + [x])[1..] == s[1..] + [x];
      FilterSnoc(s[1..], x, keep);
    }
  }

  lemma {:induction false} EmptyFilter<T>(s: seq<T>, keep: T -> bool)
    ensures Filter(s, keep) == [] <==> forall x :: x in s ==> !keep(x)
  {
    if s != [] {
      EmptyFilter(s[1..], keep);
      assert s == [s[0]] + s[1..];
    }
  }

  lemma {:induction false} InsertKeeps<T(!new)>(x: T, s: seq<T>, leq: (T, T) -> bool, keep: T -> bool)
    requires keep(x) ==> forall z :: z in s && keep(z) ==> leq(x, z)
    ensures Filter(Insert(x, s, leq), keep) == Filter([x] + s, keep)
  {
    assert ([x] + s)[1..] == s;
    if s != [] && !leq(x, s[0]) {
      var rest := Insert(x, s[1..], leq);
      InsertKeeps(x, s[1..], leq, keep);
      assert ([x] + s[1..])[1..] == s[1..] && ([s[0]] + rest)[1..] == rest;
    }
  }

  lemma {:induction false} KeptHead<T>(s: seq<T>, leq: (T, T) -> bool, keep: T -> bool)
    requires s != [] && SortedBy(Filter(s, keep), leq)
    ensures SortedBy(Filter(s[1..], keep), leq)
    ensures keep(s[0]) ==> forall z :: z in s[1..] && keep(z) ==> leq(s[0], z)
  {
    var kept, all := Filter(s[1..], keep), Filter(s, keep);
    if keep(s[0]) {
      assert all == [s[0]] + kept;
      FilterMembers(s[1..], keep);
      forall i | 0 <= i < |kept| ensures all[i + 1] == kept[i] && leq(s[0], kept[i]) {
        assert leq(all[0], all[i + 1]);
      }
      forall i, j | 0 <= i < j < |kept| ensures leq(kept[i], kept[j]) {
        assert leq(all[i + 1], all[j + 1]);
      }
    } else {
      assert all == [] + kept == kept;
    }
  }

  /** A part of the list that is already in order stays as it is. */
  lemma {:induction false} SortKeeps<T(!new)>(s: seq<T>, leq: (T, T) -> bool, keep: T -> bool)
    requires SortedBy(Filter(s, keep), leq)
    ensures Filter(StableSort(s, leq), keep) == Filter(s, keep)
  {
    if s != [] {
      var rest := StableSort(s[1..], leq);
      KeptHead(s, leq, keep);
      SortKeeps(s[1..], leq, keep);
      SortMembers(s[1..], leq);
      InsertKeeps(s[0], rest, leq, keep);
      assert ([s[0]] + rest)[1..] == rest;
    }
  }

  /** The elements that compare equal to `y`, in their order. */
  function Ties<T>(s: seq<T>, leq: (T, T) -> bool, y: T): seq<T> {
    Filter(s, (z: T) => leq(z, y) && leq(y, z))
  }

  /** Elements that compare equal keep their order. */
  lemma {:induction false} SortIsStable<T(!new)>(s: seq<T>, leq: (T, T) -> bool, y: T)
    requires TotalPreorder(leq)
    ensures Ties(StableSort(s, leq), leq, y) == Ties(s, leq, y)
  {
    var same := (z: T) => leq(z, y) && leq(y, z);
    FilterMembers(s, same);
    forall i, j | 0 <= i < j < |Filter(s, same)| ensures leq(Filter(s, same)[i], Filter(s, same)[j]) {
      assert same(Filter(s, same)[i]) && same(Filter(s, same)[j]);
    }
    SortKeeps(s, leq, same);
  }

  lemma {:induction false} FirstTie<T(!new)>(s: seq<T>, leq: (T, T) -> bool)
    requires s != [] && TotalPreorder(leq)
    ensures Ties(s, leq, s[0]) != [] && Ties(s, leq, s[0])[0] == s[0]
  {
    assert leq(s[0], s[0]);
  }

  lemma {:induction false} HeadsTie<T(!new)>(a: seq<T>, b: seq<T>, leq: (T, T) -> bool)
    requires TotalPreorder(leq) && SortedBy(a, leq) && a != [] && b != []
    requires Ties(a, leq, b[0]) == Ties(b, leq, b[0])
    ensures leq(a[0], b[0])
  {
    FirstTie(b, leq);
    FilterMembers(a, (z: T) => leq(z, b[0]) && leq(b[0], z));
    assert b[0] in Ties(a, leq, b[0]);
    var i :| 0 <= i < |a| && a[i] == b[0];
    assert leq(a[0], a[0]) && leq(a[0], a[i]);
  }

  lemma {:induction false} SameTies<T(!new)>(a: seq<T>, b: seq<T>, leq: (T, T) -> bool, y: T)
    requires a != [] && b != [] && a[0] == b[0] && Ties(a, leq, y) == Ties(b, leq, y)
    ensures Ties(a[1..], leq, y) == Ties(b[1..], leq, y)
  {
    var same := (z: T) => leq(z, y) && leq(y, z);
    var head := if same(a[0]) then [a[0]] else [];
    assert Ties(a, leq, y) == head + Ties(a[1..], leq, y) && Ties(b, leq, y) == head + Ties(b[1..], leq, y);
    assert (head + Ties(a[1..], leq, y))[|head|..] == Ties(a[1..], leq, y);
    assert (head + Ties(b[1..], leq, y))[|head|..] == Ties(b[1..], leq, y);
  }

  /** Two ordered lists that agree on all ties are the same. */
  lemma {:induction false} OrderAndTiesDecide<T(!new)>(a: seq<T>, b: seq<T>, leq: (T, T) -> bool)
    requires TotalPreorder(leq) && SortedBy(a, leq) && SortedBy(b, leq)
    requires forall y :: Ties(a, leq, y) == Ties(b, leq, y)
    ensures a == b
  {
    if a != [] {
      FirstTie(a, leq);
      assert Ties(b, leq, a[0]) != [];
    }
    if b != [] {
      FirstTie(b, leq);
      assert Ties(a, leq, b[0]) != [];
    }
    if a != [] && b != [] {
      HeadsTie(a, b, leq);
      HeadsTie(b, a, leq);
      assert Ties(a, leq, a[0])[0] == a[0];
      assert Ties(b, leq, a[0])[0] == b[0];
      forall y ensures Ties(a[1..], leq, y) == Ties(b[1..], leq, y) {
        assert Ties(a, leq, y) == Ties(b, leq, y);
        SameTies(a, b, leq, y);
      }
      OrderAndTiesDecide(a[1..], b[1..], leq);
    }
  }

  lemma {:induction false} FilterSorted<T(!new)>(s: seq<T>, leq: (T, T) -> bool, keep: T -> bool)
    requires forall i, j :: 0 <= i < j < |s| && keep(s[i]) && keep(s[j]) ==> leq(s[i], s[j])
    ensures SortedBy(Filter(s, keep), leq)
  {
    if s != [] {
      var rest := s[1..];
      forall i, j | 0 <= i < j < |rest| && keep(rest[i]) && keep(rest[j]) ensures leq(rest[i], rest[j]) {
        assert leq(s[i + 1], s[j + 1]);
      }
      FilterSorted(rest, leq, keep);
      FilterMembers(rest, keep);
      forall z | keep(s[0]) && z in Filter(rest, keep) ensures leq(s[0], z) {
        var j :| 0 <= j < |rest| && rest[j] == z;
        assert leq(s[0], s[j + 1]);
      }
    }
  }

  lemma {:induction false} TiesInOrder<T(!new)>(s: seq<T>, p: (T, T) -> bool, q: (T, T) -> bool, y: T)
    requires TotalPreorder(q)
    requires forall i, j :: 0 <= i < j < |s| && q(s[i], s[j]) && q(s[j], s[i]) ==> p(s[i], s[j])
    ensures SortedBy(Ties(StableSort(s, q), q, y), p)
  {
    var same := (z: T) => q(z, y) && q(y, z);
    SortIsStable(s, q, y);
    forall i, j | 0 <= i < j < |s| && same(s[i]) && same(s[j]) ensures p(s[i], s[j]) {
      assert q(s[i], s[j]) && q(s[j], s[i]);
    }
    FilterSorted(s, p, same);
  }

  /** A list sorted by `q` survives being sorted by `p` and by `q` again if its ties in `q` are in the order of `p`. */
  lemma {:induction false} ResortIsIdentity<T(!new)>(s: seq<T>, p: (T, T) -> bool, q: (T, T) -> bool)
    requires TotalPreorder(q)
    requires forall i, j :: 0 <= i < j < |s| && q(s[i], s[j]) && q(s[j], s[i]) ==> p(s[i], s[j])
    ensures StableSort(StableSort(StableSort(s, q), p), q) == StableSort(s, q)
  {
    var sorted := StableSort(s, q);
    var again := StableSort(StableSort(sorted, p), q);
    SortSorts(s, q);
    SortSorts(StableSort(sorted, p), q);
    forall y ensures Ties(again, q, y) == Ties(sorted, q, y) {
      SortIsStable(StableSort(sorted, p), q, y);
      TiesInOrder(s, p, q, y);
      SortKeeps(sorted, p, (z: T) => q(z, y) && q(y, z));
    }
    OrderAndTiesDecide(again, sorted, q);
  }

  /** A strict order in which elements may tie. */
  ghost predicate WeakOrder<T(!new)>(less: (T, T) -> bool) {
    && (forall a :: !less(a, a))
    && (forall a, b :: less(a, b) ==> !less(b, a))
    && (forall a, b, c :: !less(b, a) && !less(c, b) ==> !less(c, a))
  }

  /** Python's `max`: the first element that no other exceeds. */
  function FirstMax<T>(s: seq<T>, less: (T, T) -> bool): T
    requires s != []
  {
    var last := s[|s| - 1];
    if |s| == 1 then last
    else
      var best := FirstMax(s[..|s| - 1], less);
      if less(best, last) then last else best
  }

  lemma {:induction false} FirstMaxIsMax<T(!new)>(s: seq<T>, less: (T, T) -> bool, x: T)
    requires WeakOrder(less) && x in s
    ensures FirstMax(s, less) in s && !less(FirstMax(s, less), x)
  {
    var init, last := s[..|s| - 1], s[|s| - 1];
    assert s == init + [last];
    if |s| > 1 {
      FirstMaxIsMax(init, less, if x in init then x else init[0]);
      assert FirstMax(init, less) in s;
    }
  }

  /** No two elements have the same key. */
  ghost predicate DistinctBy<T, K>(s: seq<T>, key: T -> K) {
    forall i, j :: 0 <= i < j < |s| ==> key(s[i]) != key(s[j])
  }

  lemma {:induction false} InsertDistinct<T, K>(x: T, s: seq<T>, leq: (T, T) -> bool, key: T -> K)
    requires DistinctBy(s, key) && forall y :: y in s ==> key(y) != key(x)
    ensures DistinctBy(Insert(x, s, leq), key)
  {
    if s != [] && !leq(x, s[0]) {
      var rest := Insert(x, s[1..], leq);
      InsertDistinct(x, s[1..], leq, key);
      InsertMultiset(x, s[1..], leq);
      forall y | y in rest ensures key(y) != key(s[0]) {
        assert y in multiset(rest);
        if y != x {
          var k :| 0 <= k < |s[1..]| && s[1..][k] == y;
          assert s[k + 1] == y;
        }
      }
    }
  }

  lemma {:induction false} SortDistinct<T, K>(s: seq<T>, leq: (T, T) -> bool, key: T -> K)
    requires DistinctBy(s, key)
    ensures DistinctBy(StableSort(s, leq), key)
  {
    if s != [] {
      SortDistinct(s[1..], leq, key);
      SortMultiset(s[1..], leq);
      forall y | y in StableSort(s[1..], leq) ensures key(y) != key(s[0]) {
        assert y in multiset(StableSort(s[1..], leq));
        var k :| 0 <= k < |s[1..]| && s[1..][k] == y;
        assert s[k + 1] == y;
      }
      InsertDistinct(s[0], StableSort(s[1..], leq), leq, key);
    }
  }

  // ----- Text order and sorted sets -----

  predicate TextLeq(a: string, b: string) {
    a == "" || (b != "" && (if a[0] == b[0] then TextLeq(a[1..], b[1..]) else a[0] < b[0]))
  }

  /** Texts are ordered by the first character in which they differ, and a text is not less than its beginnings. */
  lemma {:induction false} TextLeqExactly(a: string, b: string)
    ensures TextLeq(a, b) <==>
            a <= b || exists k :: 0 <= k < |a| && k < |b| && a[..k] == b[..k] && a[k] < b[k]
  {
    if a != "" && b != "" {
      var s, t := a[1..], b[1..];
      TextLeqExactly(s, t);
      forall k | 0 < k <= |a| && k <= |b| && a[..k] == b[..k] ensures a[0] == b[0] {
        assert a[0] == a[..k][0] == b[..k][0];
      }
      if a[0] == b[0] {
        assert a <= b <==> s <= t;
        if k :| 0 <= k < |s| && k < |t| && s[..k] == t[..k] && s[k] < t[k] {
          assert a[..k + 1] == [a[0]] + s[..k] == b[..k + 1] && a[k + 1] < b[k + 1];
        }
        if k :| 0 <= k < |a| && k < |b| && a[..k] == b[..k] && a[k] < b[k] {
          assert s[..k - 1] == a[..k][1..] == b[..k][1..] == t[..k - 1] && s[k - 1] < t[k - 1];
        }
      } else {
        assert a[..0] == b[..0];
      }
    }
  }

  lemma {:induction false} TextTotal(a: string, b: string)
    ensures TextLeq(a, b) || TextLeq(b, a)
    ensures TextLeq(a, b) && TextLeq(b, a) ==> a == b
  {
    if a != "" && b != "" && a[0] == b[0] {
      TextTotal(a[1..], b[1..]);
      assert a == [a[0]] + a[1..] && b == [b[0]] + b[1..];
    }
  }

  lemma {:induction false} TextTransitive(a: string, b: string, c: string)
    requires TextLeq(a, b) && TextLeq(b, c)
    ensures TextLeq(a, c)
  {
    if a != "" && a[0] == b[0] == c[0] {
      TextTransitive(a[1..], b[1..], c[1..]);
    }
  }

  function InsertText(x: string, s: seq<string>): seq<string> {
    if s == [] then [x]
    else if x == s[0] then s
    else if TextLeq(x, s[0]) then [x] + s
    else [s[0]] + InsertText(x, s[1..])
  }

  /** `sorted({...})`. */
  function SortedSet(s: seq<string>): seq<string> {
    if s == [] then [] else InsertText(s[0], SortedSet(s[1..]))
  }

  lemma {:induction false} InsertTextMembers(x: string, s: seq<string>)
    ensures forall y :: y in InsertText(x, s) <==> y == x || y in s
  {
    if s != [] && x != s[0] && !TextLeq(x, s[0]) {
      InsertTextMembers(x, s[1..]);
    }
  }

  lemma {:induction false} SortedSetMembers(s: seq<string>)
    ensures forall y :: y in SortedSet(s) <==> y in s
  {
    if s != [] {
      SortedSetMembers(s[1..]);
      InsertTextMembers(s[0], SortedSet(s[1..]));
    }
  }

  // ----- Maximal runs -----

  function Last<T>(s: seq<T>): T
    requires s != []
  {
    s[|s| - 1]
  }

  /** Neighbours inside a run are related; the last element of a run is not related to the next run. */
  ghost predicate MaximalRuns<T>(runs: seq<seq<T>>, s: seq<T>, rel: (T, T) -> bool) {
    && Flatten(runs) == s
    && (forall r :: 0 <= r < |runs| ==> runs[r] != [])
    && (forall r, i :: 0 <= r < |runs| && 0 <= i < |runs[r]| - 1 ==> rel(runs[r][i], runs[r][i + 1]))
    && (forall r :: 0 <= r < |runs| - 1 ==> !rel(Last(runs[r]), runs[r + 1][0]))
  }

  function AddToRuns<T>(runs: seq<seq<T>>, x: T, rel: (T, T) -> bool): seq<seq<T>>
    requires runs != [] ==> Last(runs) != []
  {
    if runs != [] && rel(Last(Last(runs)), x) then runs[..|runs| - 1] + [Last(runs) + [x]] else runs + [[x]]
  }

  lemma {:induction false} AddKeepsMaximal<T>(runs: seq<seq<T>>, s: seq<T>, x: T, rel: (T, T) -> bool)
    requires MaximalRuns(runs, s, rel)
    ensures MaximalRuns(AddToRuns(runs, x, rel), s + [x], rel)
  {
    var after := AddToRuns(runs, x, rel);
    if runs != [] && rel(Last(Last(runs)), x) {
      var init := runs[..|runs| - 1];
      assert runs == init + [Last(runs)];
      FlattenSnoc(init, Last(runs));
      FlattenSnoc(init, Last(runs) + [x]);
      forall r, i | 0 <= r < |after| && 0 <= i < |after[r]| - 1 ensures rel(after[r][i], after[r][i + 1]) {
        if i + 1 < |runs[r]| {
          assert after[r][i] == runs[r][i] && after[r][i + 1] == runs[r][i + 1];
        }
      }
      forall r | 0 <= r < |after| - 1 ensures !rel(Last(after[r]), after[r + 1][0]) {
        assert after[r] == runs[r] && after[r + 1][0] == runs[r + 1][0];
      }
    } else {
      FlattenSnoc(runs, [x]);
      forall r | 0 <= r < |after| - 1 ensures !rel(Last(after[r]), after[r + 1][0]) {
        assert after[r] == runs[r];
      }
    }
  }

  function RunsOf<T>(s: seq<T>, rel: (T, T) -> bool): (runs: seq<seq<T>>)
    ensures runs != [] ==> Last(runs) != []
  {
    if s == [] then [] else AddToRuns(RunsOf(s[..|s| - 1], rel), s[|s| - 1], rel)
  }

  lemma {:induction false} RunsAreMaximal<T>(s: seq<T>, rel: (T, T) -> bool)
    ensures MaximalRuns(RunsOf(s, rel), s, rel)
  {
    if s != [] {
      RunsAreMaximal(s[..|s| - 1], rel);
      AddKeepsMaximal(RunsOf(s[..|s| - 1], rel), s[..|s| - 1], s[|s| - 1], rel);
      assert s[..|s| - 1] + [s[|s| - 1]] == s;
    }
  }

  /** A list has only one split into maximal runs. */
  lemma {:induction false} MaximalRunsUnique<T>(a: seq<seq<T>>, b: seq<seq<T>>, s: seq<T>, rel: (T, T) -> bool)
    requires MaximalRuns(a, s, rel) && MaximalRuns(b, s, rel)
    ensures a == b
  {
    if a != [] && b != [] {
      FirstRunNotLonger(a, b, s, rel);
      FirstRunNotLonger(b, a, s, rel);
      assert a[0] == s[..|a[0]|] && b[0] == s[..|b[0]|];
      assert Flatten(a[1..]) == s[|a[0]|..] && Flatten(b[1..]) == s[|b[0]|..];
      TailsMaximal(a, s, rel);
      TailsMaximal(b, s, rel);
      MaximalRunsUnique(a[1..], b[1..], s[|a[0]|..], rel);
    }
  }

  lemma {:induction false} TailsMaximal<T>(a: seq<seq<T>>, s: seq<T>, rel: (T, T) -> bool)
    requires MaximalRuns(a, s, rel) && a != []
    ensures MaximalRuns(a[1..], s[|a[0]|..], rel)
  {
    var tail := a[1..];
    forall r, i | 0 <= r < |tail| && 0 <= i < |tail[r]| - 1 ensures rel(tail[r][i], tail[r][i + 1]) {
      assert tail[r] == a[r + 1];
    }
    forall r | 0 <= r < |tail| - 1 ensures !rel(Last(tail[r]), tail[r + 1][0]) {
      assert tail[r] == a[r + 1] && tail[r + 1] == a[r + 2];
    }
  }

  lemma {:induction false} FirstRun<T>(a: seq<seq<T>>, s: seq<T>, rel: (T, T) -> bool)
    requires MaximalRuns(a, s, rel) && a != []
    ensures 0 < |a[0]| <= |s|
    ensures forall i :: 0 <= i < |a[0]| - 1 ==> rel(s[i], s[i + 1])
    ensures |a[0]| < |s| ==> !rel(s[|a[0]| - 1], s[|a[0]|])
  {
    forall i | 0 <= i < |a[0]| - 1 ensures rel(s[i], s[i + 1]) {
      assert s[i] == a[0][i] && s[i + 1] == a[0][i + 1];
    }
    if |a[0]| < |s| {
      assert Flatten(a) == a[0] + Flatten(a[1..]);
      assert s[|a[0]| - 1] == Last(a[0]) && s[|a[0]|] == a[0 + 1][0];
    }
  }

  lemma {:induction false} FirstRunNotLonger<T>(a: seq<seq<T>>, b: seq<seq<T>>, s: seq<T>, rel: (T, T) -> bool)
    requires MaximalRuns(a, s, rel) && MaximalRuns(b, s, rel) && a != [] && b != []
    ensures |a[0]| <= |b[0]|
  {
    FirstRun(a, s, rel);
    FirstRun(b, s, rel);
  }
}
