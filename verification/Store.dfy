/** The remediation rows (backend/services/store.py) as a list in the order of their autoincremented ids. */
module Store {
  import opened Prelude
  import opened Findings
  import opened Sorting
  import opened Patching
  import opened Verification

  // ----- A dictionary comprehension over a list -----

  /** The index of the element with this key. */
  function IndexOfKey<T, K(==)>(s: seq<T>, key: T -> K, k: K): (i: Option<nat>)
    ensures i.Some? ==> i.value < |s| && key(s[i.value]) == k
    ensures i.None? ==> forall x :: x in s ==> key(x) != k
  {
    if s == [] then None
    else if key(s[0]) == k then Some(0)
    else
      match IndexOfKey(s[1..], key, k)
      case None => None
      case Some(i) => Some(i + 1)
  }

  /** `{key(x): x for x in s}.values()`: the place of the first, the value of the last element of each key. */
  function DictValues<T, K(==)>(s: seq<T>, key: T -> K): seq<T> {
    if s == [] then []
    else
      var init, last := s[..|s| - 1], s[|s| - 1];
      var d := DictValues(init, key);
      match IndexOfKey(d, key, key(last))
      case None => d + [last]
      case Some(i) => d[i := last]
  }

  lemma {:induction false} DictKeysDistinct<T, K>(s: seq<T>, key: T -> K)
    ensures DistinctBy(DictValues(s, key), key)
  {
    if s != [] {
      DictKeysDistinct(s[..|s| - 1], key);
    }
  }

  /** Without repeated keys the dictionary changes nothing. */
  lemma {:induction false} DictOfDistinct<T, K>(s: seq<T>, key: T -> K)
    requires DistinctBy(s, key)
    ensures DictValues(s, key) == s
  {
    if s != [] {
      var n := |s| - 1;
      DictOfDistinct(s[..n], key);
      forall x | x in s[..n] ensures key(x) != key(s[n]) {
        var j :| 0 <= j < n && s[j] == x;
      }
    }
  }

  /** The dictionary changes nothing exactly when no key repeats. */
  lemma {:induction false} DictIsIdentity<T, K>(s: seq<T>, key: T -> K)
    ensures DictValues(s, key) == s <==> DistinctBy(s, key)
  {
    DictKeysDistinct(s, key);
    if DistinctBy(s, key) {
      DictOfDistinct(s, key);
    }
  }

  /** The dictionary holds elements of the list, and for every key the last of them. */
  lemma {:induction false} DictHoldsLast<T, K>(s: seq<T>, key: T -> K, x: T)
    requires x in DictValues(s, key)
    ensures exists i :: 0 <= i < |s| && s[i] == x && forall j :: i < j < |s| ==> key(s[j]) != key(x)
  {
    var n := |s| - 1;
    var d := DictValues(s[..n], key);
    if x in d && key(x) != key(s[n]) {
      DictHoldsLast(s[..n], key, x);
      var i :| 0 <= i < n && s[..n][i] == x && forall j :: i < j < n ==> key(s[..n][j]) != key(x);
      forall j | i < j < |s| ensures key(s[j]) != key(x) {
        if j < n {
          assert s[..n][j] == s[j];
        }
      }
    } else {
      KeyOwner(s, key, x);
      assert s[n] == x;
    }
  }

  lemma {:induction false} KeyOwner<T, K>(s: seq<T>, key: T -> K, x: T)
    requires s != [] && x in DictValues(s, key)
    requires x !in DictValues(s[..|s| - 1], key) || key(x) == key(s[|s| - 1])
    ensures x == s[|s| - 1]
  {
    var n := |s| - 1;
    var d := DictValues(s[..n], key);
    DictKeysDistinct(s[..n], key);
    var i := IndexOfKey(d, key, key(s[n]));
    var k :| 0 <= k < |DictValues(s, key)| && DictValues(s, key)[k] == x;
    assert k == |d| || i == Some(k);
  }

  lemma {:induction false} LastIsHeld<T, K>(s: seq<T>, key: T -> K, i: nat)
    requires i < |s| && forall j :: i < j < |s| ==> key(s[j]) != key(s[i])
    ensures s[i] in DictValues(s, key)
  {
    var n := |s| - 1;
    var d := DictValues(s[..n], key);
    if i < n {
      LastIsHeld(s[..n], key, i);
      var k :| 0 <= k < |d| && d[k] == s[i];
      assert DictValues(s, key)[k] == s[i];
    } else {
      match IndexOfKey(d, key, key(s[n]))
      case None => assert (d + [s[n]])[|d|] == s[n];
      case Some(k) => assert d[k := s[n]][k] == s[n];
    }
  }

  lemma {:induction false} DictSize<T, K>(s: seq<T>, key: T -> K)
    ensures |DictValues(s, key)| <= |s| && (s != [] ==> DictValues(s, key) != [])
  {
    if s != [] {
      DictSize(s[..|s| - 1], key);
    }
  }

  // ----- Rows -----

  datatype RowStatus = RowVerified | RowFailedVerification | RowFailed | RowDeclined | RowPrOpened

  datatype Row = Row(id: nat, scanId: string, fingerprint: string, attempt: int, status: RowStatus, files: Tree,
                     checks: Checks, approvedBy: Option<string>, prUrl: Option<string>)

  function RowId(r: Row): nat {
    r.id
  }

  function RowFingerprint(r: Row): string {
    r.fingerprint
  }

  predicate AwaitsApproval(r: Row, scanId: string) {
    r.scanId == scanId && r.status == RowVerified
  }

  function VerifiedRows(rows: seq<Row>, scanId: string): seq<Row> {
    Filter(rows, (r: Row) => AwaitsApproval(r, scanId))
  }

  /** `verified_remediations`: the latest verified row of every fingerprint. */
  function Pending(rows: seq<Row>, scanId: string): seq<Row> {
    DictValues(VerifiedRows(rows, scanId), RowFingerprint)
  }

  predicate HasId(rows: seq<Row>, id: nat) {
    rows != [] && (rows[0].id == id || HasId(rows[1..], id))
  }

  function MarkRow(r: Row, status: RowStatus, approvedBy: Option<string>, prUrl: Option<string>): Row {
    r.(status := status,
       approvedBy := if Truthy(approvedBy) then approvedBy else r.approvedBy,
       prUrl := if Truthy(prUrl) then prUrl else r.prUrl)
  }

  function Marked(rows: seq<Row>, chosen: seq<Row>, status: RowStatus, approvedBy: Option<string>,
                  prUrl: Option<string>)
    : (r: seq<Row>)
    ensures |r| == |rows|
    ensures forall i :: 0 <= i < |rows| ==>
              r[i] == if HasId(chosen, rows[i].id) then MarkRow(rows[i], status, approvedBy, prUrl) else rows[i]
  {
    Map((row: Row) => if HasId(chosen, row.id) then MarkRow(row, status, approvedBy, prUrl) else row, rows)
  }

  lemma {:induction false} HasIdMembers(rows: seq<Row>, id: nat)
    ensures HasId(rows, id) <==> exists r :: r in rows && r.id == id
  {
    if rows != [] {
      HasIdMembers(rows[1..], id);
      assert rows == [rows[0]] + rows[1..];
    }
  }

  /** The rows that an approval leaves verified: those that a later row of their fingerprint superseded. */
  function LeftOver(rows: seq<Row>, scanId: string): seq<Row> {
    Filter(VerifiedRows(rows, scanId), (r: Row) => !HasId(Pending(rows, scanId), r.id))
  }

  lemma {:induction false} FilterMap<T>(s: seq<T>, g: T -> T, keep: T -> bool, stay: T -> bool)
    requires forall x :: x in s ==> (keep(g(x)) <==> keep(x) && stay(x))
    requires forall x :: x in s && keep(x) && stay(x) ==> g(x) == x
    ensures Filter(Map(g, s), keep) == Filter(Filter(s, keep), stay)
  {
    if s != [] {
      var x, rest := s[0], s[1..];
      FilterMap(rest, g, keep, stay);
      var mapped, kept := Map(g, s), Filter(rest, keep);
      assert mapped == [g(x)] + Map(g, rest) && mapped[1..] == Map(g, rest);
      assert ([x] + kept)[1..] == kept && [] + kept == kept;
      assert Filter(mapped, keep) == (if keep(g(x)) then [g(x)] else []) + Filter(Map(g, rest), keep);
      assert Filter(s, keep) == (if keep(x) then [x] else []) + kept;
    }
  }

  lemma {:induction false} MarkFilters(rows: seq<Row>, chosen: seq<Row>, scanId: string, who: Option<string>,
                                       url: Option<string>)
    ensures VerifiedRows(Marked(rows, chosen, RowPrOpened, who, url), scanId) ==
            Filter(VerifiedRows(rows, scanId), (r: Row) => !HasId(chosen, r.id))
  {
    FilterMap(rows, (r: Row) => if HasId(chosen, r.id) then MarkRow(r, RowPrOpened, who, url) else r,
              (r: Row) => AwaitsApproval(r, scanId), (r: Row) => !HasId(chosen, r.id));
  }

  /** After an approval exactly the superseded rows are still pending approval; there are none exactly when no
      fingerprint was verified twice. */
  lemma {:induction false} ApprovalDrains(rows: seq<Row>, scanId: string, who: Option<string>, url: Option<string>)
    requires DistinctBy(rows, RowId)
    ensures var after := Marked(rows, Pending(rows, scanId), RowPrOpened, who, url);
            && VerifiedRows(after, scanId) == LeftOver(rows, scanId)
            && (Pending(after, scanId) == [] <==> DistinctBy(VerifiedRows(rows, scanId), RowFingerprint))
  {
    var verified, pending := VerifiedRows(rows, scanId), Pending(rows, scanId);
    var after := Marked(rows, pending, RowPrOpened, who, url);
    MarkFilters(rows, pending, scanId, who, url);
    DictSize(VerifiedRows(after, scanId), RowFingerprint);
    EmptyFilter(verified, (r: Row) => !HasId(pending, r.id));
    FilterDistinct(rows, (r: Row) => AwaitsApproval(r, scanId), RowId);
    if DistinctBy(verified, RowFingerprint) {
      DictOfDistinct(verified, RowFingerprint);
      forall r | r in verified ensures HasId(pending, r.id) {
        HasIdMembers(pending, r.id);
      }
    } else {
      var i, j :| 0 <= i < j < |verified| && RowFingerprint(verified[i]) == RowFingerprint(verified[j]);
      SupersededIsGone(verified, i, j);
      assert verified[i] in verified;
    }
  }

  lemma {:induction false} SupersededIsGone(verified: seq<Row>, i: nat, j: nat)
    requires i < j < |verified| && verified[i].fingerprint == verified[j].fingerprint
    requires DistinctBy(verified, RowId)
    ensures !HasId(DictValues(verified, RowFingerprint), verified[i].id)
  {
    var pending := DictValues(verified, RowFingerprint);
    HasIdMembers(pending, verified[i].id);
    forall r | r in pending ensures r.id != verified[i].id {
      DictHoldsLast(verified, RowFingerprint, r);
      var k :| 0 <= k < |verified| && verified[k] == r &&
               forall l :: k < l < |verified| ==> RowFingerprint(verified[l]) != RowFingerprint(r);
      assert k == i ==> RowFingerprint(verified[j]) == RowFingerprint(r);
      assert RowId(verified[k]) != RowId(verified[i]);
    }
  }

  lemma {:induction false} FilterDistinct<T, K>(s: seq<T>, keep: T -> bool, key: T -> K)
    requires DistinctBy(s, key)
    ensures DistinctBy(Filter(s, keep), key)
  {
    if s != [] {
      FilterDistinct(s[1..], keep, key);
      var rest := Filter(s[1..], keep);
      forall i | 0 <= i < |rest| ensures key(rest[i]) != key(s[0]) {
        FilterMember(s[1..], keep, rest[i]);
        var j :| 1 <= j < |s| && s[j] == rest[i];
      }
    }
  }

  // ----- The store -----

  /** Ids were handed out in order. */
  predicate Numbered(rows: seq<Row>, nextId: nat) {
    rows == [] || (rows[|rows| - 1].id < nextId && Numbered(rows[..|rows| - 1], rows[|rows| - 1].id))
  }

  lemma {:induction false} NumberedIsDistinct(rows: seq<Row>, nextId: nat)
    requires Numbered(rows, nextId)
    ensures DistinctBy(rows, RowId) && forall r :: r in rows ==> r.id < nextId
  {
    if rows != [] {
      var n := |rows| - 1;
      NumberedIsDistinct(rows[..n], rows[n].id);
      assert rows == rows[..n] + [rows[n]];
      forall i | 0 <= i < n ensures RowId(rows[i]) != RowId(rows[n]) {
        assert rows[..n][i] in rows[..n];
      }
    }
  }

  /** The newest verified row of its fingerprint and scan. */
  predicate Newest(rows: seq<Row>, scanId: string, r: Row) {
    && r in rows && r.scanId == scanId && r.status.RowVerified?
    && forall s :: s in rows && s.scanId == scanId && s.status.RowVerified? && s.fingerprint == r.fingerprint ==>
         s.id <= r.id
  }

  lemma {:induction false} NumberedAscends(rows: seq<Row>, nextId: nat, i: nat, j: nat)
    requires Numbered(rows, nextId) && i < j < |rows|
    ensures rows[i].id < rows[j].id
  {
    var n := |rows| - 1;
    if j < n {
      NumberedAscends(rows[..n], rows[n].id, i, j);
    } else {
      NumberedIsDistinct(rows[..n], rows[n].id);
      assert rows[..n][i] == rows[i];
    }
  }

  lemma {:induction false} VerifiedAscend(rows: seq<Row>, nextId: nat, scanId: string)
    requires Numbered(rows, nextId)
    ensures var kept := VerifiedRows(rows, scanId); forall i, j :: 0 <= i < j < |kept| ==> kept[i].id < kept[j].id
  {
    var kept, earlier := VerifiedRows(rows, scanId), (a: Row, b: Row) => a.id < b.id;
    forall i, j | 0 <= i < j < |rows| ensures earlier(rows[i], rows[j]) {
      NumberedAscends(rows, nextId, i, j);
    }
    FilterSorted(rows, earlier, (r: Row) => AwaitsApproval(r, scanId));
    forall i, j | 0 <= i < j < |kept| ensures kept[i].id < kept[j].id {
      assert earlier(kept[i], kept[j]);
    }
  }

  lemma {:induction false} PendingIsNewest(rows: seq<Row>, nextId: nat, scanId: string, r: Row)
    requires Numbered(rows, nextId) && r in Pending(rows, scanId)
    ensures Newest(rows, scanId, r)
  {
    var kept := VerifiedRows(rows, scanId);
    FilterMembers(rows, (x: Row) => AwaitsApproval(x, scanId));
    VerifiedAscend(rows, nextId, scanId);
    DictHoldsLast(kept, RowFingerprint, r);
    var i :| 0 <= i < |kept| && kept[i] == r &&
             forall j :: i < j < |kept| ==> RowFingerprint(kept[j]) != RowFingerprint(r);
    forall s | s in kept && s.fingerprint == r.fingerprint ensures s.id <= r.id {
      var k :| 0 <= k < |kept| && kept[k] == s;
      assert RowFingerprint(kept[k]) == RowFingerprint(r);
      assert k <= i;
    }
  }

  /** The rows that wait for approval are exactly the newest verified ones. */
  lemma {:induction false} PendingExactly(rows: seq<Row>, nextId: nat, scanId: string, r: Row)
    requires Numbered(rows, nextId)
    ensures r in Pending(rows, scanId) <==> Newest(rows, scanId, r)
  {
    var kept := VerifiedRows(rows, scanId);
    if r in Pending(rows, scanId) {
      PendingIsNewest(rows, nextId, scanId, r);
    }
    if Newest(rows, scanId, r) {
      FilterMembers(rows, (x: Row) => AwaitsApproval(x, scanId));
      assert r in kept;
      var i :| 0 <= i < |kept| && kept[i] == r;
      VerifiedAscend(rows, nextId, scanId);
      forall j | i < j < |kept| ensures RowFingerprint(kept[j]) != RowFingerprint(kept[i]) {
        assert kept[j] in kept;
      }
      LastIsHeld(kept, RowFingerprint, i);
    }
  }

  lemma {:induction false} MarkedNumbered(rows: seq<Row>, nextId: nat, chosen: seq<Row>, status: RowStatus,
                                          who: Option<string>, url: Option<string>)
    requires Numbered(rows, nextId)
    ensures Numbered(Marked(rows, chosen, status, who, url), nextId)
  {
    if rows != [] {
      var n := |rows| - 1;
      MarkedNumbered(rows[..n], rows[n].id, chosen, status, who, url);
      assert Marked(rows, chosen, status, who, url)[..n] == Marked(rows[..n], chosen, status, who, url);
    }
  }

  class RemediationStore {
    var rows: seq<Row>
    var nextId: nat

    predicate Valid()
      reads this
    {
      Numbered(rows, nextId)
    }

    constructor ()
      ensures Valid() && rows == []
    {
      rows, nextId := [], 1;
    }

    method Save(scanId: string, fingerprint: string, attempt: int, status: RowStatus, files: Tree, checks: Checks)
      requires Valid()
      modifies this
      ensures Valid() &&
          rows == old(rows) + [Row(old(nextId), scanId, fingerprint, attempt, status, files, checks, None, None)]
      ensures nextId == old(nextId) + 1
    {
      ghost var before := rows;
      rows := rows + [Row(nextId, scanId, fingerprint, attempt, status, files, checks, None, None)];
      nextId := nextId + 1;
      assert rows[..|rows| - 1] == before;
    }

    method VerifiedRemediations(scanId: string) returns (latest: seq<Row>)
      ensures latest == Pending(rows, scanId)
    {
      var selected := VerifiedRows(rows, scanId);
      latest := [];
      for i := 0 to |selected|
        invariant latest == DictValues(selected[..i], RowFingerprint)
      {
        assert selected[..i + 1][..i] == selected[..i];
        match IndexOfKey(latest, RowFingerprint, selected[i].fingerprint) {
          case None => latest := latest + [selected[i]];
          case Some(k) => latest := latest[k := selected[i]];
        }
      }
      assert selected[..|selected|] == selected;
    }

    /** The chosen rows, one by one. */
    method MarkRemediations(chosen: seq<Row>, status: RowStatus, approvedBy: Option<string>, prUrl: Option<string>)
      requires Valid()
      modifies this`rows
      ensures Valid() && rows == Marked(old(rows), chosen, status, approvedBy, prUrl)
    {
      ghost var before, after := rows, Marked(rows, chosen, status, approvedBy, prUrl);
      for i := 0 to |rows|
        invariant |rows| == |before|
        invariant forall k :: 0 <= k < i ==> rows[k] == after[k]
        invariant forall k :: i <= k < |rows| ==> rows[k] == before[k]
      {
        if HasId(chosen, rows[i].id) {
          var r := rows[i].(status := status);
          if Truthy(approvedBy) {
            r := r.(approvedBy := approvedBy);
          }
          if Truthy(prUrl) {
            r := r.(prUrl := prUrl);
          }
          rows := rows[i := r];
        }
      }
      assert rows == after;
      MarkedNumbered(before, nextId, chosen, status, approvedBy, prUrl);
    }
  }
}
