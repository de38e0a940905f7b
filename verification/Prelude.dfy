/** Small generic vocabulary shared by every module: options, dictionaries in insertion order, sums. */
module Prelude {

  datatype Option<+T> = None | Some(value: T)

  /** Python's truth value of an optional string: both `None` and `""` are false. */
  predicate Truthy(s: Option<string>) {
    s.Some? && s.value != ""
  }

  function Abs(x: int): nat {
    if x < 0 then -x else x
  }

  function Max(x: int, y: int): int {
    if x < y then y else x
  }

  function Min(x: int, y: int): int {
    if x < y then x else y
  }

  function Flatten<T>(ss: seq<seq<T>>): seq<T> {
    if ss == [] then [] else ss[0] + Flatten(ss[1..])
  }

  lemma {:induction false} FlattenConcat<T>(a: seq<seq<T>>, b: seq<seq<T>>)
    ensures Flatten(a + b) == Flatten(a) + Flatten(b)
  {
    if a == [] {
      assert a + b == b;
    } else {
      assert (a + b)[1..] == a[1..] + b;
      FlattenConcat(a[1..], b);
    }
  }

  lemma {:induction false} FlattenSnoc<T>(a: seq<seq<T>>, x: seq<T>)
    ensures Flatten(a + [x]) == Flatten(a) + x
  {
    FlattenConcat(a, [x]);
    assert Flatten([x]) == x + Flatten([]);
  }

  lemma {:induction false} ConcatThree<T>(a: seq<T>, b: seq<T>, c: seq<T>)
    ensures a + b + c == a + (b + c)
  {
  }

  lemma {:induction false} OverrideThree<K, V>(a: map<K, V>, b: map<K, V>, c: map<K, V>)
    ensures a + b + c == a + (b + c)
  {
  }

  function Map<A, B>(f: A -> B, s: seq<A>): (r: seq<B>)
    ensures |r| == |s|
    ensures forall i :: 0 <= i < |s| ==> r[i] == f(s[i])
  {
    if s == [] then [] else [f(s[0])] + Map(f, s[1..])
  }

  lemma {:induction false} MapSnoc<A, B>(f: A -> B, s: seq<A>, x: A)
    ensures Map(f, s + [x]) == Map(f, s) + [f(x)]
  {
  }

  predicate Distinct<T(==)>(s: seq<T>) {
    forall i, j :: 0 <= i < j < |s| ==> s[i] != s[j]
  }

  lemma {:induction false} SubsetSize<T>(a: set<T>, b: set<T>)
    requires a <= b
    ensures |a| <= |b|
  {
    if |a| > 0 {
      var x :| x in a;
      SubsetSize(a - {x}, b - {x});
    }
  }

  /** A map that is injective on `keys` and lands in `image` shows |keys| <= |image|. */
  lemma {:induction false} InjectiveSize<K, V>(keys: set<K>, m: map<K, V>, image: set<V>)
    requires keys <= m.Keys
    requires forall j :: j in keys ==> m[j] in image
    requires forall j, k :: j in keys && k in keys && j != k ==> m[j] != m[k]
    ensures |keys| <= |image|
  {
    if |keys| > 0 {
      var x :| x in keys;
      InjectiveSize(keys - {x}, m, image - {m[x]});
    }
  }
}
