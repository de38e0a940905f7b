/** Greedy one-to-one assignment, for any notion of fit and distance: conservation, maximality, nearest choices,
    and the comparison with every other one-to-one matching (backend/bench/matching.py). */
module GreedyMatching {
  import opened Prelude

  datatype Rule<!P, !T> = Rule(fits: (P, T) -> bool, distance: (P, T) -> nat)

  function Candidates<P, T>(free: seq<P>, t: T, rule: Rule<P, T>): seq<P> {
    if free == [] then []
    else (if rule.fits(free[0], t) then [free[0]] else []) + Candidates(free[1..], t, rule)
  }

  /** `min(cands, key=...)`: the first candidate at the smallest distance. */
  function Closest<P, T>(cands: seq<P>, t: T, rule: Rule<P, T>): P
    requires cands != []
  {
    if |cands| == 1 then cands[0]
    else
      var rest := Closest(cands[1..], t, rule);
      if rule.distance(cands[0], t) <= rule.distance(rest, t) then cands[0] else rest
  }

  /** `free.remove(p)`: drop the first element equal to `p`. */
  function RemoveFirst<P(==)>(free: seq<P>, p: P): seq<P>
    requires p in free
  {
    if free[0] == p then free[1..] else [free[0]] + RemoveFirst(free[1..], p)
  }

  /** What greedy decided for each truth in turn, and the predictions still free. */
  datatype Assignment<P> = Assignment(chosen: seq<Option<P>>, free: seq<P>)

  function Assign<P(==), T>(a: Assignment<P>, t: T, rule: Rule<P, T>): Assignment<P> {
    var cands := Candidates(a.free, t, rule);
    if cands == [] then Assignment(a.chosen + [None], a.free)
    else
      var best := Closest(cands, t, rule);
      CandidatesSound(a.free, t, rule);
      ClosestIsNearest(cands, t, rule);
      Assignment(a.chosen + [Some(best)], RemoveFirst(a.free, best))
  }

  function Greedy<P(==), T>(preds: seq<P>, truths: seq<T>, rule: Rule<P, T>): (a: Assignment<P>)
    ensures |a.chosen| == |truths|
  {
    if truths == [] then Assignment([], preds)
    else Assign(Greedy(preds, truths[..|truths| - 1], rule), truths[|truths| - 1], rule)
  }

  function PairsOf<P, T>(chosen: seq<Option<P>>, truths: seq<T>): seq<(P, T)>
    requires |chosen| == |truths|
  {
    if chosen == [] then []
    else
      var n := |chosen| - 1;
      PairsOf(chosen[..n], truths[..n]) + if chosen[n].Some? then [(chosen[n].value, truths[n])] else []
  }

  function MissedOf<P, T>(chosen: seq<Option<P>>, truths: seq<T>): seq<T>
    requires |chosen| == |truths|
  {
    if chosen == [] then []
    else
      var n := |chosen| - 1;
      MissedOf(chosen[..n], truths[..n]) + if chosen[n].None? then [truths[n]] else []
  }

  /** The predictions that were taken. */
  function Taken<P>(chosen: seq<Option<P>>): seq<P> {
    if chosen == [] then []
    else
      var n := |chosen| - 1;
      Taken(chosen[..n]) + if chosen[n].Some? then [chosen[n].value] else []
  }

  lemma {:induction false} CandidatesSound<P, T>(free: seq<P>, t: T, rule: Rule<P, T>)
    ensures forall p :: p in Candidates(free, t, rule) <==> p in free && rule.fits(p, t)
  {
    if free != [] {
      CandidatesSound(free[1..], t, rule);
    }
  }

  lemma {:induction false} ClosestIsNearest<P, T>(cands: seq<P>, t: T, rule: Rule<P, T>)
    requires cands != []
    ensures Closest(cands, t, rule) in cands
    ensures forall p :: p in cands ==> rule.distance(Closest(cands, t, rule), t) <= rule.distance(p, t)
  {
    if |cands| > 1 {
      ClosestIsNearest(cands[1..], t, rule);
    }
  }

  lemma {:induction false} RemoveFirstMultiset<P>(free: seq<P>, p: P)
    requires p in free
    ensures multiset(free) == multiset(RemoveFirst(free, p)) + multiset{p}
    ensures |RemoveFirst(free, p)| == |free| - 1
  {
    assert free == [free[0]] + free[1..];
    if free[0] != p {
      RemoveFirstMultiset(free[1..], p);
    }
  }

  lemma {:induction false} RemoveFirstMembers<P>(free: seq<P>, p: P)
    requires p in free
    ensures forall q :: q in RemoveFirst(free, p) ==> q in free
  {
    if free[0] != p {
      RemoveFirstMembers(free[1..], p);
    }
  }

  /** One decision: it is appended, and the free list loses exactly the chosen prediction. */
  lemma {:induction false} AssignShape<P, T>(a: Assignment<P>, t: T, rule: Rule<P, T>)
    ensures var next, n := Assign(a, t, rule), |a.chosen|;
            && |next.chosen| == n + 1 && next.chosen[..n] == a.chosen
            && (forall q :: q in next.free ==> q in a.free)
            && (next.chosen[n].None? ==> next.free == a.free)
            && (next.chosen[n].Some? ==>
                  && multiset(a.free) == multiset(next.free) + multiset{next.chosen[n].value}
                  && |next.free| == |a.free| - 1)
  {
    var cands := Candidates(a.free, t, rule);
    CandidatesSound(a.free, t, rule);
    if cands != [] {
      ClosestIsNearest(cands, t, rule);
      RemoveFirstMultiset(a.free, Closest(cands, t, rule));
      RemoveFirstMembers(a.free, Closest(cands, t, rule));
    }
  }

  /** The decision takes a nearest free fit; there is none exactly when no free prediction fits. */
  lemma {:induction false} AssignNearest<P, T>(a: Assignment<P>, t: T, rule: Rule<P, T>)
    ensures var choice := Assign(a, t, rule).chosen[|a.chosen|];
            && (choice.None? ==> forall p :: p in a.free ==> !rule.fits(p, t))
            && (choice.Some? ==>
                  && choice.value in a.free && rule.fits(choice.value, t)
                  && forall p :: p in a.free && rule.fits(p, t) ==>
                      rule.distance(choice.value, t) <= rule.distance(p, t))
  {
    var cands := Candidates(a.free, t, rule);
    CandidatesSound(a.free, t, rule);
    if cands != [] {
      ClosestIsNearest(cands, t, rule);
    } else {
      forall p | p in a.free ensures !rule.fits(p, t) {
        assert p !in cands;
      }
    }
  }

  /** Later truths neither revise a decision nor give a prediction back. */
  lemma {:induction false} GreedyGrows<P, T>(preds: seq<P>, truths: seq<T>, rule: Rule<P, T>)
    requires truths != []
    ensures var n := |truths| - 1;
            && Greedy(preds, truths, rule).chosen[..n] == Greedy(preds, truths[..n], rule).chosen
            && forall q :: q in Greedy(preds, truths, rule).free ==> q in Greedy(preds, truths[..n], rule).free
  {
    var n := |truths| - 1;
    AssignShape(Greedy(preds, truths[..n], rule), truths[n], rule);
  }

  /** The decision on truth `j` depends on the truths up to `j` only. */
  lemma {:induction false} GreedyPrefix<P, T>(preds: seq<P>, truths: seq<T>, rule: Rule<P, T>, j: nat)
    requires j < |truths|
    ensures Greedy(preds, truths, rule).chosen[j] == Greedy(preds, truths[..j + 1], rule).chosen[j]
  {
    var n := |truths| - 1;
    if j < n {
      assert truths[..n][..j + 1] == truths[..j + 1];
      GreedyPrefix(preds, truths[..n], rule, j);
      GreedyGrows(preds, truths, rule);
      assert Greedy(preds, truths, rule).chosen[j] == Greedy(preds, truths, rule).chosen[..n][j];
    } else {
      assert truths[..j + 1] == truths;
    }
  }

  lemma {:induction false} FreeShrinks<P, T>(preds: seq<P>, truths: seq<T>, rule: Rule<P, T>, j: nat, q: P)
    requires j <= |truths| && q in Greedy(preds, truths, rule).free
    ensures q in Greedy(preds, truths[..j], rule).free
  {
    var n := |truths| - 1;
    if j <= n {
      assert truths[..n][..j] == truths[..j];
      GreedyGrows(preds, truths, rule);
      FreeShrinks(preds, truths[..n], rule, j, q);
    } else {
      assert truths[..j] == truths;
    }
  }

  /** A chosen prediction fits its truth and is a nearest fit among those the earlier truths left; a missed truth
      fits no prediction that is free at the end. */
  lemma {:induction false} GreedyIsMaximal<P, T>(preds: seq<P>, truths: seq<T>, rule: Rule<P, T>, j: nat)
    requires j < |truths|
    ensures var a, before := Greedy(preds, truths, rule), Greedy(preds, truths[..j], rule);
            && (a.chosen[j].None? ==> forall p :: p in a.free ==> !rule.fits(p, truths[j]))
            && (a.chosen[j].Some? ==>
                  var best := a.chosen[j].value;
                  && best in before.free && rule.fits(best, truths[j])
                  && forall p :: p in before.free && rule.fits(p, truths[j]) ==>
                       rule.distance(best, truths[j]) <= rule.distance(p, truths[j]))
  {
    var a, before := Greedy(preds, truths, rule), Greedy(preds, truths[..j], rule);
    GreedyPrefix(preds, truths, rule, j);
    assert truths[..j + 1][..j] == truths[..j];
    AssignNearest(before, truths[j], rule);
    forall p | p in a.free ensures p in before.free {
      FreeShrinks(preds, truths, rule, j, p);
    }
  }

  /** Predictions are split between the taken and the free ones. */
  lemma {:induction false} GreedyConserves<P, T>(preds: seq<P>, truths: seq<T>, rule: Rule<P, T>)
    ensures var a := Greedy(preds, truths, rule);
            && multiset(Taken(a.chosen)) + multiset(a.free) == multiset(preds)
            && |Taken(a.chosen)| + |a.free| == |preds|
  {
    if truths == [] {
      assert multiset(Taken<P>([])) == multiset{};
    } else {
      var n := |truths| - 1;
      var before, a := Greedy(preds, truths[..n], rule), Greedy(preds, truths, rule);
      GreedyConserves(preds, truths[..n], rule);
      AssignShape(before, truths[n], rule);
      TakenStep(before, a, multiset(preds), |preds|);
    }
  }

  lemma {:induction false} TakenStep<P>(before: Assignment<P>, a: Assignment<P>, all: multiset<P>, size: nat)
    requires var n := |before.chosen|;
             && |a.chosen| == n + 1 && a.chosen[..n] == before.chosen
             && (a.chosen[n].None? ==> a.free == before.free)
             && (a.chosen[n].Some? ==>
                   && multiset(before.free) == multiset(a.free) + multiset{a.chosen[n].value}
                   && |a.free| == |before.free| - 1)
    requires multiset(Taken(before.chosen)) + multiset(before.free) == all
    requires |Taken(before.chosen)| + |before.free| == size
    ensures multiset(Taken(a.chosen)) + multiset(a.free) == all
    ensures |Taken(a.chosen)| + |a.free| == size
  {
    var n := |before.chosen|;
    if a.chosen[n].Some? {
      var taken := Taken(before.chosen);
      assert Taken(a.chosen) == taken + [a.chosen[n].value];
      assert multiset(taken + [a.chosen[n].value]) == multiset(taken) + multiset{a.chosen[n].value};
    } else {
      assert Taken(a.chosen) == Taken(before.chosen);
    }
  }

  lemma {:induction false} PairCounts<P, T>(chosen: seq<Option<P>>, truths: seq<T>)
    requires |chosen| == |truths|
    ensures |PairsOf(chosen, truths)| == |Taken(chosen)|
    ensures |PairsOf(chosen, truths)| + |MissedOf(chosen, truths)| == |truths|
  {
    if chosen != [] {
      PairCounts(chosen[..|chosen| - 1], truths[..|chosen| - 1]);
    }
  }

  /** Pairs and missed truths are exactly the two kinds of decisions. */
  lemma {:induction false} SplitIsExact<P, T>(chosen: seq<Option<P>>, truths: seq<T>)
    requires |chosen| == |truths|
    ensures forall pair :: pair in PairsOf(chosen, truths) ==>
              exists j :: 0 <= j < |truths| && chosen[j] == Some(pair.0) && truths[j] == pair.1
    ensures forall t :: t in MissedOf(chosen, truths) ==>
              exists j :: 0 <= j < |truths| && chosen[j].None? && truths[j] == t
  {
    if chosen != [] {
      SplitIsExact(chosen[..|chosen| - 1], truths[..|chosen| - 1]);
    }
  }

  /** Every pair fits, and no prediction left over fits a missed truth. */
  lemma {:induction false} NothingLeftFits<P, T>(preds: seq<P>, truths: seq<T>, rule: Rule<P, T>)
    ensures var a := Greedy(preds, truths, rule);
            && (forall pair :: pair in PairsOf(a.chosen, truths) ==> rule.fits(pair.0, pair.1))
            && (forall t, p :: t in MissedOf(a.chosen, truths) && p in a.free ==> !rule.fits(p, t))
  {
    var a := Greedy(preds, truths, rule);
    SplitIsExact(a.chosen, truths);
    forall pair | pair in PairsOf(a.chosen, truths) ensures rule.fits(pair.0, pair.1) {
      var j :| 0 <= j < |truths| && a.chosen[j] == Some(pair.0) && truths[j] == pair.1;
      GreedyIsMaximal(preds, truths, rule, j);
    }
    forall t, p | t in MissedOf(a.chosen, truths) && p in a.free ensures !rule.fits(p, t) {
      var j :| 0 <= j < |truths| && a.chosen[j].None? && truths[j] == t;
      GreedyIsMaximal(preds, truths, rule, j);
    }
  }

  /** The matching loop. */
  method GreedyMatch<P(==), T>(preds: seq<P>, truths: seq<T>, rule: Rule<P, T>)
    returns (pairs: seq<(P, T)>, free: seq<P>, missed: seq<T>)
    ensures var a := Greedy(preds, truths, rule);
            pairs == PairsOf(a.chosen, truths) && missed == MissedOf(a.chosen, truths) && free == a.free
  {
    free, pairs, missed := preds, [], [];
    for i := 0 to |truths|
      invariant free == Greedy(preds, truths[..i], rule).free
      invariant pairs == PairsOf(Greedy(preds, truths[..i], rule).chosen, truths[..i])
      invariant missed == MissedOf(Greedy(preds, truths[..i], rule).chosen, truths[..i])
    {
      var t := truths[i];
      ghost var before := Greedy(preds, truths[..i], rule);
      assert truths[..i + 1][..i] == truths[..i];
      assert Greedy(preds, truths[..i + 1], rule) == Assign(before, t, rule);
      assert Assign(before, t, rule).chosen[..i] == before.chosen;
      var cands := Candidates(free, t, rule);
      if cands == [] {
        missed := missed + [t];
        continue;
      }
      CandidatesSound(free, t, rule);
      ClosestIsNearest(cands, t, rule);
      var best := Closest(cands, t, rule);
      free := RemoveFirst(free, best);
      pairs := pairs + [(best, t)];
    }
    assert truths[..|truths|] == truths;
  }

  // ----- Half of the optimum -----

  /** A one-to-one matching of fits, as a map from truth indices to prediction indices. */
  ghost predicate OneToOne<P, T>(m: map<int, int>, preds: seq<P>, truths: seq<T>, rule: Rule<P, T>) {
    && (forall j :: j in m ==> 0 <= j < |truths| && 0 <= m[j] < |preds| && rule.fits(preds[m[j]], truths[j]))
    && (forall j, k :: j in m && k in m && j != k ==> m[j] != m[k])
  }

  ghost function Paired<P>(chosen: seq<Option<P>>): set<int> {
    set j | 0 <= j < |chosen| && chosen[j].Some?
  }

  /** Positions that hold a prediction with no copy left. */
  ghost function Consumed<P>(preds: seq<P>, free: multiset<P>): set<int> {
    set i | 0 <= i < |preds| && preds[i] !in free
  }

  lemma {:induction false} PairedCount<P>(chosen: seq<Option<P>>)
    ensures |Paired(chosen)| == |Taken(chosen)|
  {
    if chosen != [] {
      var n := |chosen| - 1;
      PairedCount(chosen[..n]);
      assert Paired(chosen) == Paired(chosen[..n]) + if chosen[n].Some? then {n} else {};
    }
  }

  lemma {:induction false} MultisetSnoc<P>(init: seq<P>, last: P)
    ensures multiset(init + [last]) == multiset(init) + multiset{last}
  {
  }

  lemma {:induction false} FewerCopies<P>(free: multiset<P>, rest: multiset<P>, last: P)
    requires free <= rest + multiset{last}
    ensures last in free ==> free - multiset{last} <= rest && |free - multiset{last}| == |free| - 1
    ensures last !in free ==> free <= rest
  {
  }

  lemma {:induction false} ConsumedSnoc<P>(init: seq<P>, last: P, free: multiset<P>)
    ensures last in free ==> Consumed(init + [last], free) <= Consumed(init, free - multiset{last})
    ensures last !in free ==> Consumed(init + [last], free) == Consumed(init, free) + {|init|}
  {
    var preds := init + [last];
    forall i | i in Consumed(preds, free) && i < |init| ensures i in Consumed(init, free) {
      assert preds[i] == init[i];
    }
    if last !in free {
      forall i | i in Consumed(init, free) ensures i in Consumed(preds, free) {
        assert preds[i] == init[i];
      }
    }
  }

  lemma {:induction false} ConsumedBound<P>(preds: seq<P>, free: multiset<P>)
    requires free <= multiset(preds)
    ensures |Consumed(preds, free)| <= |preds| - |free|
  {
    if preds == [] {
      assert free == multiset{};
    } else {
      var init, last := preds[..|preds| - 1], preds[|preds| - 1];
      assert preds == init + [last];
      MultisetSnoc(init, last);
      FewerCopies(free, multiset(init), last);
      ConsumedSnoc(init, last, free);
      if last in free {
        ConsumedBound(init, free - multiset{last});
        SubsetSize(Consumed(preds, free), Consumed(init, free - multiset{last}));
      } else {
        ConsumedBound(init, free);
      }
    }
  }

  /** A matched truth that greedy missed is matched with a prediction that greedy used up. */
  lemma {:induction false} MissedUsesConsumed<P, T>(preds: seq<P>, truths: seq<T>, rule: Rule<P, T>, m: map<int, int>,
                                        j: int)
    requires OneToOne(m, preds, truths, rule) && j in m && Greedy(preds, truths, rule).chosen[j].None?
    ensures m[j] in Consumed(preds, multiset(Greedy(preds, truths, rule).free))
  {
    GreedyIsMaximal(preds, truths, rule, j);
    assert preds[m[j]] !in Greedy(preds, truths, rule).free;
  }

  /** Greedy is within a factor of two of every one-to-one matching. */
  lemma {:induction false} GreedyIsHalfOptimal<P, T>(preds: seq<P>, truths: seq<T>, rule: Rule<P, T>, m: map<int, int>)
    requires OneToOne(m, preds, truths, rule)
    ensures |m| <= 2 * |PairsOf(Greedy(preds, truths, rule).chosen, truths)|
  {
    var a := Greedy(preds, truths, rule);
    GreedyConserves(preds, truths, rule);
    PairCounts(a.chosen, truths);
    PairedCount(a.chosen);
    ConsumedBound(preds, multiset(a.free));
    forall j | j in m.Keys - Paired(a.chosen) ensures m[j] in Consumed(preds, multiset(a.free)) {
      MissedUsesConsumed(preds, truths, rule, m, j);
    }
    TwoWaySplit(m, Paired(a.chosen), Consumed(preds, multiset(a.free)));
  }

  lemma {:induction false} TwoWaySplit(m: map<int, int>, direct: set<int>, image: set<int>)
    requires forall j, k :: j in m && k in m && j != k ==> m[j] != m[k]
    requires forall j :: j in m.Keys - direct ==> m[j] in image
    ensures |m| <= |direct| + |image|
  {
    var here := m.Keys * direct;
    var there := m.Keys - here;
    SubsetSize(here, direct);
    forall j | j in there ensures m[j] in image {
    }
    forall j, k | j in there && k in there && j != k ensures m[j] != m[k] {
    }
    InjectiveSize(there, m, image);
    assert m.Keys == here + there;
  }

  /** A near prediction that fits both truths goes to the first, and the second stays missed although two pairs
      were possible. */
  lemma {:induction false} GreedyCanHalve<P, T>(near: P, far: P, first: T, second: T, rule: Rule<P, T>)
    requires rule.fits(near, first) && rule.fits(far, first) && rule.fits(near, second) && !rule.fits(far, second)
    requires rule.distance(near, first) <= rule.distance(far, first)
    ensures Greedy([near, far], [first, second], rule) == Assignment([Some(near), None], [far])
    ensures |PairsOf(Greedy([near, far], [first, second], rule).chosen, [first, second])| == 1
    ensures OneToOne(map[0 := 1, 1 := 0], [near, far], [first, second], rule)
  {
    var preds, truths := [near, far], [first, second];
    assert preds[1..] == [far] && [far][1..] == [];
    assert Candidates([far], first, rule) == [far];
    assert Candidates(preds, first, rule) == preds;
    assert Closest([far], first, rule) == far;
    assert truths[..1] == [first] && [first][..0] == [];
    assert Greedy(preds, [], rule) == Assignment([], preds);
    assert Greedy(preds, [first], rule) == Assignment([Some(near)], [far]);
    assert Candidates([far], second, rule) == [];
    assert Greedy(preds, truths, rule) == Assignment([Some(near), None], [far]);
    assert [Some(near), None][..1] == [Some(near)] && [Some(near)][..0] == [];
    assert PairsOf([Some(near)], [first]) == [(near, first)];
  }
}
