/** Greedy contiguous batching, shared by the analyst and the discovery pass
    (backend/services/analyst.py, backend/services/discovery.py): what the loops produce, and why no other
    contiguous split does better. */
module Batching {
  import opened Prelude

  /** A batch limit. The discovery pass has no limit on the number of items. */
  datatype Limit = Limit(charBudget: int, maxItems: Option<int>)

  function Weight<T>(block: seq<T>, w: T -> nat): nat {
    if block == [] then 0 else Weight(block[..|block| - 1], w) + w(block[|block| - 1])
  }

  /** A block may be sent if it is a single item, however large, or respects both limits. */
  predicate Fits<T>(block: seq<T>, w: T -> nat, lim: Limit) {
    || |block| == 1
    || (&& 1 < |block|
        && Weight(block, w) <= lim.charBudget
        && (lim.maxItems.Some? ==> |block| <= lim.maxItems.value))
  }

  /** A split of `items` into blocks that may be sent. */
  predicate Split<T(==)>(blocks: seq<seq<T>>, items: seq<T>, w: T -> nat, lim: Limit) {
    Flatten(blocks) == items && forall i :: 0 <= i < |blocks| ==> Fits(blocks[i], w, lim)
  }

  /** A split in which no block could have taken the first item of the next one. */
  predicate GreedySplit<T(==)>(blocks: seq<seq<T>>, items: seq<T>, w: T -> nat, lim: Limit) {
    && Split(blocks, items, w, lim)
    && forall i :: 0 <= i < |blocks| - 1 ==> !Fits(blocks[i] + [blocks[i + 1][0]], w, lim)
  }

  function Close<T(==)>(done: seq<seq<T>>, cur: seq<T>): seq<seq<T>> {
    if cur == [] then done else done + [cur]
  }

  /** The guard of both loops: the open batch must be closed before an item of weight `n`. */
  predicate MustClose<T(==)>(cur: seq<T>, size: int, n: int, lim: Limit) {
    cur != [] && (size + n > lim.charBudget || (lim.maxItems.Some? && |cur| >= lim.maxItems.value))
  }

  lemma {:induction false} WeightSnoc<T>(block: seq<T>, x: T, w: T -> nat)
    ensures Weight(block + [x], w) == Weight(block, w) + w(x)
  {
    assert (block + [x])[..|block|] == block;
  }

  /** Closing the open batch: the item starts a new one, and the closed one could not have taken it. */
  lemma {:induction false} CloseStaysGreedy<T>(done: seq<seq<T>>, cur: seq<T>, items: seq<T>, x: T, w: T -> nat,
                                        lim: Limit)
    requires GreedySplit(Close(done, cur), items, w, lim)
    requires MustClose(cur, Weight(cur, w), w(x), lim)
    ensures GreedySplit(Close(done + [cur], [x]), items + [x], w, lim)
  {
    WeightSnoc(cur, x, w);
    var before := done + [cur];
    FlattenSnoc(before, [x]);
    var after := before + [[x]];
    forall i | 0 <= i < |after| - 1 ensures !Fits(after[i] + [after[i + 1][0]], w, lim) {
      if i + 1 < |before| {
        assert after[i] == before[i] && after[i + 1] == before[i + 1];
      } else {
        assert after[i] == cur && after[i + 1] == [x];
      }
    }
  }

  /** Growing the open batch leaves every boundary before it as it was. */
  lemma {:induction false} GrowStaysGreedy<T>(done: seq<seq<T>>, cur: seq<T>, items: seq<T>, x: T, w: T -> nat,
                                        lim: Limit)
    requires cur == [] ==> done == []
    requires GreedySplit(Close(done, cur), items, w, lim)
    requires !MustClose(cur, Weight(cur, w), w(x), lim)
    ensures GreedySplit(Close(done, cur + [x]), items + [x], w, lim)
  {
    WeightSnoc(cur, x, w);
    if cur != [] {
      var before, after := done + [cur], done + [cur + [x]];
      FlattenSnoc(done, cur);
      FlattenSnoc(done, cur + [x]);
      forall i | 0 <= i < |after| ensures Fits(after[i], w, lim) {
        assert i < |done| ==> after[i] == before[i];
        assert Fits(before[i], w, lim);
      }
      forall i | 0 <= i < |after| - 1 ensures !Fits(after[i] + [after[i + 1][0]], w, lim) {
        assert after[i] == before[i] && after[i + 1][0] == before[i + 1][0];
      }
    } else {
      FlattenSnoc([], [x]);
      assert items == Flatten<T>([]) == [];
    }
  }

  // ----- No contiguous split does better -----

  function Covered<T>(blocks: seq<seq<T>>, k: nat): nat
    requires k <= |blocks|
  {
    |Flatten(blocks[..k])|
  }

  lemma {:induction false} WeightOfPart<T>(block: seq<T>, lo: nat, hi: nat, w: T -> nat)
    requires lo <= hi <= |block|
    ensures Weight(block[lo..hi], w) <= Weight(block, w)
    decreases |block|
  {
    if hi < |block| {
      WeightOfPart(block[..|block| - 1], lo, hi, w);
      assert block[..|block| - 1][lo..hi] == block[lo..hi];
    } else if lo < hi {
      var part, init := block[lo..hi], block[..hi - 1];
      WeightOfPart(init, lo, hi - 1, w);
      assert part[..|part| - 1] == init[lo..hi - 1];
      assert part[|part| - 1] == block[hi - 1];
    }
  }

  /** Any non-empty contiguous part of a block that fits also fits. */
  lemma {:induction false} PartFits<T>(block: seq<T>, lo: nat, hi: nat, w: T -> nat, lim: Limit)
    requires Fits(block, w, lim) && lo < hi <= |block|
    ensures Fits(block[lo..hi], w, lim)
  {
    WeightOfPart(block, lo, hi, w);
  }

  /** Block `k` of a split is the slice of the items between two covered lengths. */
  lemma {:induction false} BlockIsSlice<T>(blocks: seq<seq<T>>, k: nat)
    requires k < |blocks|
    ensures Covered(blocks, k + 1) == Covered(blocks, k) + |blocks[k]| <= |Flatten(blocks)|
    ensures Flatten(blocks)[Covered(blocks, k)..Covered(blocks, k + 1)] == blocks[k]
  {
    assert blocks[..k + 1] == blocks[..k] + [blocks[k]];
    FlattenSnoc(blocks[..k], blocks[k]);
    assert blocks == blocks[..k + 1] + blocks[k + 1..];
    FlattenConcat(blocks[..k + 1], blocks[k + 1..]);
  }

  lemma {:induction false} CoveredMonotone<T>(blocks: seq<seq<T>>, k: nat)
    requires k <= |blocks|
    ensures Covered(blocks, k) <= |Flatten(blocks)|
  {
    assert blocks == blocks[..k] + blocks[k..];
    FlattenConcat(blocks[..k], blocks[k..]);
  }

  /** A block that reaches past a greedy block contains that block and the item after it. */
  lemma {:induction false} CoveringBlock<T>(items: seq<T>, from: nat, to: nat, lo: nat, hi: nat)
    requires from <= lo <= hi < to <= |items|
    ensures items[from..to][lo - from..hi + 1 - from] == items[lo..hi] + [items[hi]]
  {
    var part, whole := items[from..to][lo - from..hi + 1 - from], items[lo..hi] + [items[hi]];
    assert |part| == |whole|;
    forall i | 0 <= i < |whole| ensures part[i] == whole[i] {
      assert part[i] == items[from..to][lo - from + i] == items[lo + i];
    }
  }

  /** If the other split is not ahead after `k` blocks, it is not ahead after `k + 1`. */
  lemma {:induction false} NotOvertaken<T>(greedy: seq<seq<T>>, other: seq<seq<T>>, items: seq<T>, prefix: seq<T>,
                        w: T -> nat, lim: Limit, k: nat)
    requires GreedySplit(greedy, items, w, lim)
    requires Split(other, prefix, w, lim) && prefix <= items
    requires k < |other| && k < |greedy| && Covered(other, k) <= Covered(greedy, k)
    ensures Covered(other, k + 1) <= Covered(greedy, k + 1)
  {
    BlockIsSlice(greedy, k);
    BlockIsSlice(other, k);
    var from, to := Covered(other, k), Covered(other, k + 1);
    var lo, hi := Covered(greedy, k), Covered(greedy, k + 1);
    if k + 1 == |greedy| {
      assert greedy[..k + 1] == greedy;
    } else if hi < to {
      BlockIsSlice(greedy, k + 1);
      assert items[hi] == greedy[k + 1][0];
      assert prefix[from..to] == items[from..to];
      CoveringBlock(items, from, to, lo, hi);
      PartFits(other[k], lo - from, hi + 1 - from, w, lim);
      assert false;
    }
  }

  /** Greedy stays ahead: the first `k` greedy blocks cover at least as much as the first `k` blocks of any
      split of any prefix of the items. */
  lemma {:induction false} GreedyStaysAhead<T>(greedy: seq<seq<T>>, other: seq<seq<T>>, items: seq<T>, prefix: seq<T>,
                                               w: T -> nat, lim: Limit, k: nat)
    requires GreedySplit(greedy, items, w, lim)
    requires Split(other, prefix, w, lim) && prefix <= items
    requires k <= |other|
    ensures if k <= |greedy| then Covered(other, k) <= Covered(greedy, k) else Covered(other, k) <= |items|
  {
    if 0 < k <= |greedy| {
      GreedyStaysAhead(greedy, other, items, prefix, w, lim, k - 1);
      NotOvertaken(greedy, other, items, prefix, w, lim, k - 1);
    } else {
      CoveredMonotone(other, k);
    }
  }

  /** No split into blocks that fit has fewer blocks than the greedy one. */
  lemma {:induction false} GreedyIsOptimal<T>(greedy: seq<seq<T>>, other: seq<seq<T>>, items: seq<T>, w: T -> nat,
                                        lim: Limit)
    requires GreedySplit(greedy, items, w, lim)
    requires Split(other, items, w, lim)
    ensures |greedy| <= |other|
  {
    var k := |other|;
    assert other[..k] == other;
    GreedyStaysAhead(greedy, other, items, items, w, lim, k);
    if k < |greedy| {
      BlockIsSlice(greedy, k);
    }
  }

  /** With a cap on the number of calls, the first `cap` greedy batches reach the longest prefix that any
      `cap` batches can reach. */
  lemma {:induction false} CappedPrefixIsLongest<T>(greedy: seq<seq<T>>, other: seq<seq<T>>, items: seq<T>,
                                                    prefix: seq<T>, w: T -> nat, lim: Limit, cap: nat)
    requires GreedySplit(greedy, items, w, lim)
    requires Split(other, prefix, w, lim) && prefix <= items && |other| <= cap
    ensures |prefix| <= |Flatten(greedy[..Min(cap, |greedy|)])|
    ensures Flatten(greedy[..Min(cap, |greedy|)]) <= items
  {
    var k := |other|;
    assert other[..k] == other;
    GreedyStaysAhead(greedy, other, items, prefix, w, lim, k);
    var m := Min(cap, |greedy|);
    assert greedy == greedy[..m] + greedy[m..];
    FlattenConcat(greedy[..m], greedy[m..]);
    if k <= |greedy| {
      assert greedy[..m] == greedy[..k] + greedy[k..m];
      FlattenConcat(greedy[..k], greedy[k..m]);
    } else {
      assert greedy[..m] == greedy;
    }
  }
}
