/** What replaying the pending rows on a branch writes, path by path, for any list of verified rows
    (backend/services/store.py, `verified_remediations`, with backend/services/pr_agent.py). */
module ReplayOrder {
  import opened Prelude
  import opened Sorting
  import opened Patching
  import opened Store
  import PullRequest

  /** What matters of a verified row, and of an accepted patch. */
  datatype Fix = Fix(fingerprint: string, files: Tree)

  function RowFixes(rows: seq<Row>): seq<Fix> {
    if rows == [] then []
    else RowFixes(rows[..|rows| - 1]) + [Fix(rows[|rows| - 1].fingerprint, rows[|rows| - 1].files)]
  }

  /** The verified rows of a scan. */
  function ScanFixes(rows: seq<Row>, scanId: string): seq<Fix> {
    if rows == [] then []
    else
      var last := rows[|rows| - 1];
      ScanFixes(rows[..|rows| - 1], scanId) +
        if AwaitsApproval(last, scanId) then [Fix(last.fingerprint, last.files)] else []
  }

  function FixFingerprint(f: Fix): string {
    f.fingerprint
  }

  // ----- Rows as fixes -----

  lemma {:induction false} VerifiedRowFixes(rows: seq<Row>, scanId: string)
    ensures RowFixes(VerifiedRows(rows, scanId)) == ScanFixes(rows, scanId)
  {
    if rows != [] {
      var init, last := rows[..|rows| - 1], rows[|rows| - 1];
      VerifiedRowFixes(init, scanId);
      FilterSnoc(init, last, (r: Row) => AwaitsApproval(r, scanId));
      assert rows == init + [last];
      RowFixesSnoc(VerifiedRows(init, scanId), last);
    }
  }

  lemma {:induction false} RowFixesSnoc(rows: seq<Row>, row: Row)
    ensures RowFixes(rows + [row]) == RowFixes(rows) + [Fix(row.fingerprint, row.files)] &&
        RowFixes(rows + []) == RowFixes(rows)
  {
    assert (rows + [row])[..|rows|] == rows && rows + [] == rows;
  }

  function FixFiles(fixes: seq<Fix>): Tree {
    if fixes == [] then map[] else FixFiles(fixes[..|fixes| - 1]) + fixes[|fixes| - 1].files
  }

  lemma {:induction false} RowsOverlay(rows: seq<Row>)
    ensures PullRequest.Overlay(rows) == FixFiles(RowFixes(rows))
  {
    if rows != [] {
      var init := rows[..|rows| - 1];
      RowsOverlay(init);
      assert RowFixes(rows)[..|RowFixes(rows)| - 1] == RowFixes(init);
    }
  }

  lemma {:induction false} IndexOfFix(rows: seq<Row>, fingerprint: string)
    ensures IndexOfKey(RowFixes(rows), FixFingerprint, fingerprint) == IndexOfKey(rows, RowFingerprint, fingerprint)
  {
    if rows != [] {
      RowFixesHead(rows);
      IndexOfFix(rows[1..], fingerprint);
    }
  }

  lemma {:induction false} RowFixesHead(rows: seq<Row>)
    requires rows != []
    ensures RowFixes(rows) == [Fix(rows[0].fingerprint, rows[0].files)] + RowFixes(rows[1..])
  {
    if |rows| == 1 {
      assert rows[..0] == [] && rows[1..] == [];
    } else {
      RowFixesHead(rows[..|rows| - 1]);
      assert rows[1..][..|rows| - 2] == rows[..|rows| - 1][1..];
    }
  }

  lemma {:induction false} RowFixesUpdate(rows: seq<Row>, i: nat, row: Row)
    requires i < |rows|
    ensures |RowFixes(rows)| == |rows|
    ensures RowFixes(rows[i := row]) == RowFixes(rows)[i := Fix(row.fingerprint, row.files)]
  {
    var n := |rows| - 1;
    RowFixesLength(rows[..n]);
    if i < n {
      RowFixesUpdate(rows[..n], i, row);
      assert rows[i := row][..n] == rows[..n][i := row];
    } else {
      assert rows[i := row][..n] == rows[..n];
    }
  }

  lemma {:induction false} RowFixesLength(rows: seq<Row>)
    ensures |RowFixes(rows)| == |rows|
  {
    if rows != [] {
      RowFixesLength(rows[..|rows| - 1]);
    }
  }

  /** The dictionary of the rows has the fixes of the dictionary of their fixes. */
  lemma {:induction false} DictOfRows(rows: seq<Row>)
    ensures RowFixes(DictValues(rows, RowFingerprint)) == DictValues(RowFixes(rows), FixFingerprint)
  {
    if rows != [] {
      var init, last := rows[..|rows| - 1], rows[|rows| - 1];
      var d := DictValues(init, RowFingerprint);
      DictOfRows(init);
      IndexOfFix(d, last.fingerprint);
      assert RowFixes(rows)[..|RowFixes(rows)| - 1] == RowFixes(init);
      match IndexOfKey(d, RowFingerprint, last.fingerprint)
      case None => RowFixesSnoc(d, last);
      case Some(i) => RowFixesUpdate(d, i, last);
    }
  }

  /** What the branch gets is what the dictionary of the verified fixes writes. */
  lemma {:induction false} PendingOverlay(rows: seq<Row>, scanId: string)
    ensures PullRequest.Overlay(Pending(rows, scanId)) == FixFiles(DictValues(ScanFixes(rows, scanId), FixFingerprint))
  {
    RowsOverlay(Pending(rows, scanId));
    DictOfRows(VerifiedRows(rows, scanId));
    VerifiedRowFixes(rows, scanId);
  }

  // ----- The places in the dictionary -----

  /** No later element has the key of element `i`. */
  ghost predicate Survives<T, K>(s: seq<T>, key: T -> K, i: nat) {
    i < |s| && forall j :: i < j < |s| ==> key(s[j]) != key(s[i])
  }

  /** Where the key of element `i` first occurs. */
  function FirstAt<T, K(==)>(s: seq<T>, key: T -> K, i: nat): nat
    requires i < |s|
  {
    var first := IndexOfKey(s, key, key(s[i]));
    if first.Some? then first.value else 0
  }

  /** Which element of the list each place of the dictionary holds. */
  function Sources<T, K(==)>(s: seq<T>, key: T -> K): seq<nat> {
    if s == [] then []
    else
      var init, n := s[..|s| - 1], |s| - 1;
      var src := Sources(init, key);
      match IndexOfKey(DictValues(init, key), key, key(s[n]))
      case None => src + [n]
      case Some(i) => if i < |src| then src[i := n] else src
  }

  lemma {:induction false} IndexSnoc<T, K>(s: seq<T>, key: T -> K, x: T, k: K)
    ensures IndexOfKey(s + [x], key, k) ==
            if IndexOfKey(s, key, k).Some? then IndexOfKey(s, key, k) else if key(x) == k then Some(|s|) else None
  {
    if s == [] {
      assert s + [x] == [x] && [x][1..] == [];
      assert IndexOfKey([x][1..], key, k).None?;
    } else {
      assert (s + [x])[0] == s[0] && (s + [x])[1..] == s[1..] + [x];
      IndexSnoc(s[1..], key, x, k);
    }
  }

  lemma {:induction false} FirstAtSnoc<T, K>(s: seq<T>, key: T -> K, x: T, i: nat)
    requires i < |s|
    ensures FirstAt(s + [x], key, i) == FirstAt(s, key, i) < |s|
  {
    assert s[i] in s && (s + [x])[i] == s[i];
    IndexSnoc(s, key, x, key(s[i]));
  }

  /** The places of the dictionary are exactly the surviving elements, in the order in which their keys first occur. */
  ghost predicate Placed<T, K>(s: seq<T>, key: T -> K, d: seq<T>, src: seq<nat>) {
    && |src| == |d|
    && (forall a :: 0 <= a < |src| ==> Survives(s, key, src[a]) && s[src[a]] == d[a])
    && (forall a, b :: 0 <= a < b < |src| && src[a] < |s| && src[b] < |s| ==>
          FirstAt(s, key, src[a]) < FirstAt(s, key, src[b]))
    && (forall i: nat :: Survives(s, key, i) ==> i in src)
  }

  lemma {:induction false} SourcesArePlaced<T, K>(s: seq<T>, key: T -> K)
    ensures Placed(s, key, DictValues(s, key), Sources(s, key))
  {
    if s != [] {
      var n := |s| - 1;
      var init, x := s[..n], s[n];
      assert s == init + [x];
      SourcesArePlaced(init, key);
      DictKeysDistinct(init, key);
      match IndexOfKey(DictValues(init, key), key, key(x))
      case None => NewPlace(init, key, x, DictValues(init, key), Sources(init, key));
      case Some(i) => SamePlace(init, key, x, DictValues(init, key), Sources(init, key), i);
    }
  }

  lemma {:induction false} SurvivesSnoc<T, K>(s: seq<T>, key: T -> K, x: T, i: nat)
    requires i < |s|
    ensures Survives(s + [x], key, i) <==> Survives(s, key, i) && key(s[i]) != key(x)
  {
    var t := s + [x];
    if Survives(t, key, i) {
      assert t[|s|] == x;
      forall j | i < j < |s| ensures key(s[j]) != key(s[i]) {
        assert t[j] == s[j];
      }
    }
  }

  lemma {:induction false} NewPlace<T, K>(s: seq<T>, key: T -> K, x: T, d: seq<T>, src: seq<nat>)
    requires Placed(s, key, d, src) && forall y :: y in d ==> key(y) != key(x)
    ensures Placed(s + [x], key, d + [x], src + [|s|])
  {
    var t, d', src' := s + [x], d + [x], src + [|s|];
    forall a | 0 <= a < |src'| ensures Survives(t, key, src'[a]) && t[src'[a]] == d'[a] {
      if a < |src| {
        assert d[a] in d;
        SurvivesSnoc(s, key, x, src[a]);
      }
    }
    NoKeyLeft(s, key, x, d, src);
    IndexSnoc(s, key, x, key(x));
    forall a, b | 0 <= a < b < |src'| && src'[a] < |t| && src'[b] < |t|
      ensures FirstAt(t, key, src'[a]) < FirstAt(t, key, src'[b])
    {
      FirstAtSnoc(s, key, x, src[a]);
      if b < |src| {
        FirstAtSnoc(s, key, x, src[b]);
      }
    }
    forall i: nat | Survives(t, key, i) ensures i in src' {
      if i < |s| {
        SurvivesSnoc(s, key, x, i);
      }
    }
  }

  /** A key that is not in the dictionary is not in the list. */
  lemma {:induction false} NoKeyLeft<T, K>(s: seq<T>, key: T -> K, x: T, d: seq<T>, src: seq<nat>)
    requires Placed(s, key, d, src) && forall y :: y in d ==> key(y) != key(x)
    ensures IndexOfKey(s, key, key(x)).None?
  {
    forall i: nat | i < |s| ensures key(s[i]) != key(x) {
      var j := LastOfKey(s, key, i);
      assert j in src;
      var a :| 0 <= a < |src| && src[a] == j;
      assert d[a] in d;
    }
  }

  lemma {:induction false} LastOfKey<T, K>(s: seq<T>, key: T -> K, j: nat) returns (i: nat)
    requires j < |s|
    ensures i < |s| && key(s[i]) == key(s[j]) && Survives(s, key, i)
    decreases |s| - j
  {
    if Survives(s, key, j) {
      i := j;
    } else {
      var k :| j < k < |s| && key(s[k]) == key(s[j]);
      i := LastOfKey(s, key, k);
    }
  }

  lemma {:induction false} SamePlace<T, K>(s: seq<T>, key: T -> K, x: T, d: seq<T>, src: seq<nat>, p: nat)
    requires Placed(s, key, d, src) && DistinctBy(d, key) && p < |d| && key(d[p]) == key(x)
    ensures Placed(s + [x], key, d[p := x], src[p := |s|])
  {
    var t, d', src' := s + [x], d[p := x], src[p := |s|];
    assert Survives(s, key, src[p]);
    forall a | 0 <= a < |src'| ensures Survives(t, key, src'[a]) && t[src'[a]] == d'[a] {
      if a != p {
        assert key(d[a]) != key(d[p]);
        SurvivesSnoc(s, key, x, src[a]);
      }
    }
    IndexSnoc(s, key, x, key(x));
    FirstAtSnoc(s, key, x, src[p]);
    assert FirstAt(t, key, |s|) == FirstAt(s, key, src[p]);
    forall a, b | 0 <= a < b < |src'| && src'[a] < |t| && src'[b] < |t|
      ensures FirstAt(t, key, src'[a]) < FirstAt(t, key, src'[b])
    {
      FirstAtSnoc(s, key, x, src[a]);
      FirstAtSnoc(s, key, x, src[b]);
      assert FirstAt(s, key, src[a]) < FirstAt(s, key, src[b]);
    }
    forall i: nat | Survives(t, key, i) ensures i in src' {
      if i < |s| {
        SurvivesSnoc(s, key, x, i);
        var a :| 0 <= a < |src| && src[a] == i;
        assert src'[a] == i;
      } else {
        assert src'[p] == |s|;
      }
    }
  }

  // ----- Path by path -----

  function At(t: Tree, path: string): Option<string> {
    if path in t then Some(t[path]) else None
  }

  predicate Writes(fixes: seq<Fix>, path: string, i: nat) {
    i < |fixes| && path in fixes[i].files
  }

  /** Fix `i` writes the path, and no later one does. */
  ghost predicate LastWrites(fixes: seq<Fix>, path: string, i: nat) {
    Writes(fixes, path, i) && forall j :: i < j < |fixes| ==> !Writes(fixes, path, j)
  }

  /** Among the fixes that write the path and are the newest of their fingerprint, fix `i` is the one whose
      fingerprint was verified first most recently. */
  ghost predicate Decides(fixes: seq<Fix>, path: string, i: nat) {
    && Survives(fixes, FixFingerprint, i) && Writes(fixes, path, i)
    && forall j: nat :: Survives(fixes, FixFingerprint, j) && Writes(fixes, path, j) ==>
         FirstAt(fixes, FixFingerprint, j) <= FirstAt(fixes, FixFingerprint, i)
  }

  /** Fixes in their order leave, at a path, what the last of them writes there. */
  lemma {:induction false} OverlayAt(fixes: seq<Fix>, path: string)
    ensures path in FixFiles(fixes) <==> exists i: nat :: LastWrites(fixes, path, i)
    ensures forall i: nat :: LastWrites(fixes, path, i) ==> At(FixFiles(fixes), path) == Some(fixes[i].files[path])
  {
    if fixes != [] {
      var n := |fixes| - 1;
      var init := fixes[..n];
      OverlayAt(init, path);
      if path in fixes[n].files {
        assert LastWrites(fixes, path, n);
      } else {
        forall i: nat ensures LastWrites(fixes, path, i) <==> LastWrites(init, path, i) {
          WritesInit(fixes, path, i);
        }
      }
    }
  }

  lemma {:induction false} WritesInit(fixes: seq<Fix>, path: string, i: nat)
    requires fixes != [] && path !in fixes[|fixes| - 1].files
    ensures LastWrites(fixes, path, i) <==> LastWrites(fixes[..|fixes| - 1], path, i)
  {
    var n := |fixes| - 1;
    var init := fixes[..n];
    forall j: nat | j < n ensures Writes(fixes, path, j) <==> Writes(init, path, j) {
      assert init[j] == fixes[j];
    }
  }

  /** The replayed fixes leave, at a path, what the deciding fix writes there: not the newest fix of the path, but the
      newest of the fingerprint whose place in the dictionary is last. */
  lemma {:induction false} ReplayAt(fixes: seq<Fix>, path: string)
    ensures var replayed := FixFiles(DictValues(fixes, FixFingerprint));
            && (path in replayed <==> exists i: nat :: Decides(fixes, path, i))
            && (forall i: nat :: Decides(fixes, path, i) ==> At(replayed, path) == Some(fixes[i].files[path]))
  {
    var d, src := DictValues(fixes, FixFingerprint), Sources(fixes, FixFingerprint);
    SourcesArePlaced(fixes, FixFingerprint);
    OverlayAt(d, path);
    forall a: nat | LastWrites(d, path, a) ensures Decides(fixes, path, src[a]) {
      PlaceDecides(fixes, path, d, src, a);
    }
    forall i: nat | Decides(fixes, path, i)
      ensures path in FixFiles(d) && At(FixFiles(d), path) == Some(fixes[i].files[path])
    {
      var a := DeciderIsPlaced(fixes, path, d, src, i);
    }
  }

  lemma {:induction false} PlaceDecides(fixes: seq<Fix>, path: string, d: seq<Fix>, src: seq<nat>, a: nat)
    requires Placed(fixes, FixFingerprint, d, src) && LastWrites(d, path, a)
    ensures a < |src| && Decides(fixes, path, src[a])
  {
    forall j: nat | Survives(fixes, FixFingerprint, j) && Writes(fixes, path, j)
      ensures FirstAt(fixes, FixFingerprint, j) <= FirstAt(fixes, FixFingerprint, src[a])
    {
      assert j in src;
      var b :| 0 <= b < |src| && src[b] == j;
      assert Writes(d, path, b);
      assert b <= a;
    }
  }

  lemma {:induction false} DeciderIsPlaced(fixes: seq<Fix>, path: string, d: seq<Fix>, src: seq<nat>, i: nat)
    returns (a: nat)
    requires Placed(fixes, FixFingerprint, d, src) && Decides(fixes, path, i)
    ensures LastWrites(d, path, a) && d[a] == fixes[i]
  {
    assert i in src;
    a :| 0 <= a < |src| && src[a] == i;
    forall b | a < b < |d| ensures !Writes(d, path, b) {
      assert FirstAt(fixes, FixFingerprint, src[a]) < FirstAt(fixes, FixFingerprint, src[b]);
      assert Writes(d, path, b) ==> Writes(fixes, path, src[b]);
    }
  }

  /** Replaying the dictionary gives, at a path, the same as the fixes in their order exactly when nothing writes the
      path, or the deciding fix and the last fix that writes it agree on its text. */
  lemma {:induction false} ReplayAgreesExactly(fixes: seq<Fix>, path: string)
    ensures At(FixFiles(DictValues(fixes, FixFingerprint)), path) == At(FixFiles(fixes), path) <==>
            || (forall i: nat :: !Writes(fixes, path, i))
            || (exists i: nat, j: nat :: Decides(fixes, path, i) && LastWrites(fixes, path, j) &&
                                         fixes[i].files[path] == fixes[j].files[path])
  {
    OverlayAt(fixes, path);
    ReplayAt(fixes, path);
    if exists i: nat :: Writes(fixes, path, i) {
      var i: nat :| Writes(fixes, path, i);
      var j := SomeLastWrites(fixes, path, i);
    }
  }

  lemma {:induction false} SomeLastWrites(fixes: seq<Fix>, path: string, i: nat) returns (j: nat)
    requires Writes(fixes, path, i)
    ensures LastWrites(fixes, path, j)
    decreases |fixes| - i
  {
    if LastWrites(fixes, path, i) {
      j := i;
    } else {
      var k :| i < k < |fixes| && Writes(fixes, path, k);
      j := SomeLastWrites(fixes, path, k);
    }
  }

  // ----- On top of a tree -----

  /** The text at a path after replaying the dictionary of the fixes over a tree. */
  ghost predicate ReplayGives(fixes: seq<Fix>, root: Tree, path: string, text: Option<string>) {
    if exists i: nat :: Decides(fixes, path, i)
    then exists i: nat :: Decides(fixes, path, i) && text == Some(fixes[i].files[path])
    else text == At(root, path)
  }

  /** The text at a path after writing the fixes in their order over a tree. */
  ghost predicate OrderGives(fixes: seq<Fix>, root: Tree, path: string, text: Option<string>) {
    if exists i: nat :: LastWrites(fixes, path, i)
    then exists i: nat :: LastWrites(fixes, path, i) && text == Some(fixes[i].files[path])
    else text == At(root, path)
  }

  lemma {:induction false} ReplayOver(fixes: seq<Fix>, root: Tree, path: string, text: Option<string>)
    ensures ReplayGives(fixes, root, path, text) <==>
            text == At(root + FixFiles(DictValues(fixes, FixFingerprint)), path)
  {
    ReplayAt(fixes, path);
  }

  lemma {:induction false} OrderOver(fixes: seq<Fix>, root: Tree, path: string, text: Option<string>)
    ensures OrderGives(fixes, root, path, text) <==> text == At(root + FixFiles(fixes), path)
  {
    OverlayAt(fixes, path);
  }
}
