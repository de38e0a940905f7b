/** Grouping a list by a key: the groups of the distinct keys, laid end to end, are a permutation of the list. */
module Grouping {
  import opened Prelude

  function WithKey<T, K(==)>(s: seq<T>, key: T -> K, k: K): seq<T> {
    if s == [] then []
    else WithKey(s[..|s| - 1], key, k) + if key(s[|s| - 1]) == k then [s[|s| - 1]] else []
  }

  /** The groups of the given keys, laid end to end. */
  function Groups<T, K(==)>(s: seq<T>, key: T -> K, ks: seq<K>): seq<T> {
    if ks == [] then [] else Groups(s, key, ks[..|ks| - 1]) + WithKey(s, key, ks[|ks| - 1])
  }

  /** The elements whose key is one of the given keys, in their order. */
  function Picked<T, K(==)>(s: seq<T>, key: T -> K, ks: seq<K>): seq<T> {
    if s == [] then []
    else Picked(s[..|s| - 1], key, ks) + if key(s[|s| - 1]) in ks then [s[|s| - 1]] else []
  }

  lemma {:induction false} WithKeyMembers<T, K>(s: seq<T>, key: T -> K, k: K)
    ensures forall x :: x in WithKey(s, key, k) <==> x in s && key(x) == k
  {
    if s != [] {
      WithKeyMembers(s[..|s| - 1], key, k);
      assert s == s[..|s| - 1] + [s[|s| - 1]];
    }
  }

  lemma {:induction false} PickedNone<T, K>(s: seq<T>, key: T -> K)
    ensures Picked(s, key, []) == []
  {
    if s != [] {
      PickedNone(s[..|s| - 1], key);
    }
  }

  lemma {:induction false} PickedSnoc<T, K>(s: seq<T>, key: T -> K, ks: seq<K>, k: K)
    requires k !in ks
    ensures multiset(Picked(s, key, ks + [k])) == multiset(Picked(s, key, ks)) + multiset(WithKey(s, key, k))
  {
    if s != [] {
      PickedSnoc(s[..|s| - 1], key, ks, k);
    }
  }

  lemma {:induction false} PickedAll<T, K>(s: seq<T>, key: T -> K, ks: seq<K>)
    requires forall i :: 0 <= i < |s| ==> key(s[i]) in ks
    ensures Picked(s, key, ks) == s
  {
    if s != [] {
      var n := |s| - 1;
      PickedAll(s[..n], key, ks);
      assert s == s[..n] + [s[n]];
    }
  }

  lemma {:induction false} GroupsArePicked<T, K>(s: seq<T>, key: T -> K, ks: seq<K>)
    requires Distinct(ks)
    ensures multiset(Groups(s, key, ks)) == multiset(Picked(s, key, ks))
  {
    if ks == [] {
      PickedNone(s, key);
    } else {
      var init, last := ks[..|ks| - 1], ks[|ks| - 1];
      assert ks == init + [last];
      GroupsArePicked(s, key, init);
      PickedSnoc(s, key, init, last);
    }
  }

  /** Distinct keys that cover the list split it without loss or repetition. */
  lemma {:induction false} GroupsCover<T, K>(s: seq<T>, key: T -> K, ks: seq<K>)
    requires Distinct(ks) && forall x :: x in s ==> key(x) in ks
    ensures multiset(Groups(s, key, ks)) == multiset(s)
  {
    GroupsArePicked(s, key, ks);
    PickedAll(s, key, ks);
  }

  lemma {:induction false} WithKeyNone<T, K>(s: seq<T>, key: T -> K, k: K)
    requires forall i :: 0 <= i < |s| ==> key(s[i]) != k
    ensures WithKey(s, key, k) == []
  {
    if s != [] {
      WithKeyNone(s[..|s| - 1], key, k);
    }
  }

  /** Without repeated keys a group has at most one element. */
  lemma {:induction false} LoneGroup<T, K>(s: seq<T>, key: T -> K, k: K)
    requires forall i, j :: 0 <= i < j < |s| ==> key(s[i]) != key(s[j])
    ensures |WithKey(s, key, k)| <= 1
  {
    if s != [] {
      var n := |s| - 1;
      if key(s[n]) == k {
        WithKeyNone(s[..n], key, k);
      } else {
        LoneGroup(s[..n], key, k);
      }
    }
  }

  // ----- Unions over a list -----

  function UnionOf<T, K>(s: seq<T>, part: T -> set<K>): set<K> {
    if s == [] then {} else UnionOf(s[..|s| - 1], part) + part(s[|s| - 1])
  }

  lemma {:induction false} UnionConcat<T, K>(a: seq<T>, b: seq<T>, part: T -> set<K>)
    ensures UnionOf(a + b, part) == UnionOf(a, part) + UnionOf(b, part)
  {
    if b == [] {
      assert a + b == a;
    } else {
      var n := |b| - 1;
      assert (a + b)[..|a| + n] == a + b[..n];
      UnionConcat(a, b[..n], part);
    }
  }

  /** Elements that each stand for a run have the union of all runs. */
  lemma {:induction false} UnionFlatten<T, K>(outs: seq<T>, runs: seq<seq<T>>, part: T -> set<K>)
    requires |outs| == |runs|
    requires forall i :: 0 <= i < |runs| ==> part(outs[i]) == UnionOf(runs[i], part)
    ensures UnionOf(outs, part) == UnionOf(Flatten(runs), part)
  {
    if runs != [] {
      var n := |runs| - 1;
      UnionFlatten(outs[..n], runs[..n], part);
      assert runs == runs[..n] + [runs[n]];
      FlattenSnoc(runs[..n], runs[n]);
      UnionConcat(Flatten(runs[..n]), runs[n], part);
    }
  }
}
