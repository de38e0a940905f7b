/** Ground-truth matching and metrics (backend/bench/matching.py).
    The greedy matcher is compared with every one-to-one matching, and the counters with what they count. */
module Matching {
  import opened Prelude
  import opened Text
  import opened Cwe
  import opened GreedyMatching

  const LINE_TOLERANCE := 6

  datatype Pred = Pred(file: string, line: int, cwe: Option<Cwe>, severity: string, title: string, verdict: string)
  datatype Truth = Truth(file: string, line: int, cwe: Cwe)
  datatype Case = Case(preds: seq<Pred>, truths: seq<Truth>)

  predicate IsConfig(file: string) {
    var low := Lower(file);
    exists name :: name in {"requirements.txt", "dockerfile", ".yml", ".yaml", ".toml", "package.json"} &&
      (EndsWith(low, name) || name <= LastSegment(low))
  }

  predicate Matches(p: Pred, t: Truth) {
    && LStrip(p.file, {'.', '/'}) == t.file
    && (var fp, ft := Family(p.cwe), Family(Some(t.cwe));
        || fp == ft
        || ("dockerfile" <= Lower(t.file) &&
            {fp, ft} <= {Some(Numbered(16)), Some(Numbered(798)), Some(Numbered(1104))}))
    && (IsConfig(t.file) || Abs(p.line - t.line) <= LINE_TOLERANCE)
  }

  // ----- Matching one case -----

  /** Predictions compete for a truth by line distance. */
  function ByLine(): Rule<Pred, Truth> {
    Rule(Matches, (p: Pred, t: Truth) => Abs(p.line - t.line))
  }

  /** Only dots and slashes stand before the path. */
  ghost predicate PathIs(file: string, path: string) {
    exists prefix :: file == prefix + path && (forall c :: c in prefix ==> c == '.' || c == '/') &&
      (path != "" ==> path[0] != '.' && path[0] != '/')
  }

  /** A file whose name or last segment marks it as configuration, whatever the case of its letters. */
  predicate Configures(file: string) {
    var low := Lower(file);
    || EndsWith(low, "requirements.txt") || EndsWith(low, "dockerfile") || EndsWith(low, ".yml")
    || EndsWith(low, ".yaml") || EndsWith(low, ".toml") || EndsWith(low, "package.json")
    || "requirements.txt" <= LastSegment(low) || "dockerfile" <= LastSegment(low) || ".yml" <= LastSegment(low)
    || ".yaml" <= LastSegment(low) || ".toml" <= LastSegment(low) || "package.json" <= LastSegment(low)
  }

  /** Family 16, 798 or 1104. */
  predicate ContainerWeakness(cwe: Option<Cwe>) {
    Family(cwe) == Some(Numbered(16)) || Family(cwe) == Some(Numbered(798)) || Family(cwe) == Some(Numbered(1104))
  }

  /** What counts as having found a vulnerability: the file, the family, and a line no more than six away. In a
      configuration file the line does not matter, and in a Dockerfile any container weakness stands for any other. */
  ghost predicate Finds(p: Pred, t: Truth) {
    && PathIs(p.file, t.file)
    && (|| Family(p.cwe) == Family(Some(t.cwe))
        || ("dockerfile" <= Lower(t.file) && ContainerWeakness(p.cwe) && ContainerWeakness(Some(t.cwe))))
    && (Configures(t.file) || -6 <= p.line - t.line <= 6)
  }

  lemma {:induction false} StripLeaves(file: string)
    ensures PathIs(file, LStrip(file, {'.', '/'}))
  {
    if file != "" && file[0] in {'.', '/'} {
      StripLeaves(file[1..]);
      var path := LStrip(file, {'.', '/'});
      var prefix :| file[1..] == prefix + path && forall c :: c in prefix ==> c == '.' || c == '/';
      assert file == [file[0]] + prefix + path;
    } else {
      assert file == "" + file;
    }
  }

  lemma {:induction false} PathUnique(file: string, a: string, b: string)
    requires PathIs(file, a) && PathIs(file, b)
    ensures a == b
  {
    var p :| file == p + a && forall c :: c in p ==> c == '.' || c == '/';
    var q :| file == q + b && forall c :: c in q ==> c == '.' || c == '/';
    PrefixNotLonger(file, p, a, q, b);
    PrefixNotLonger(file, q, b, p, a);
    assert a == file[|p|..] && b == file[|q|..];
  }

  lemma {:induction false} PrefixNotLonger(file: string, p: string, a: string, q: string, b: string)
    requires file == p + a && file == q + b && (forall c :: c in p ==> c == '.' || c == '/')
    requires b != "" ==> b[0] != '.' && b[0] != '/'
    ensures |p| <= |q|
  {
    forall i | 0 <= i < |p| ensures file[i] == '.' || file[i] == '/' {
      assert p[i] in p && file[i] == p[i];
    }
    assert b != "" ==> file[|q|] == b[0];
  }

  lemma {:induction false} ConfigNames(file: string)
    ensures IsConfig(file) <==> Configures(file)
  {
    var names := {"requirements.txt", "dockerfile", ".yml", ".yaml", ".toml", "package.json"};
    var low := Lower(file);
    assert "requirements.txt" in names && "dockerfile" in names && ".yml" in names;
    assert ".yaml" in names && ".toml" in names && "package.json" in names;
  }

  lemma {:induction false} PathIsStripped(file: string, path: string)
    ensures PathIs(file, path) <==> LStrip(file, {'.', '/'}) == path
  {
    StripLeaves(file);
    if PathIs(file, path) {
      PathUnique(file, path, LStrip(file, {'.', '/'}));
    }
  }

  lemma {:induction false} ContainerPair(a: Option<Cwe>, b: Option<Cwe>)
    ensures {Family(a), Family(b)} <= {Some(Numbered(16)), Some(Numbered(798)), Some(Numbered(1104))} <==>
            ContainerWeakness(a) && ContainerWeakness(b)
  {
    var fa, fb := Family(a), Family(b);
    assert fa in {fa, fb} && fb in {fa, fb};
  }

  lemma {:induction false} MatchesExactly(p: Pred, t: Truth)
    ensures Matches(p, t) <==> Finds(p, t)
  {
    PathIsStripped(p.file, t.file);
    ConfigNames(t.file);
    ContainerPair(p.cwe, Some(t.cwe));
  }

  /** Every truth is paired or missed and every prediction paired or free; pairs match; and nothing that is left
      over could still be paired. */
  method MatchCase(preds: seq<Pred>, truths: seq<Truth>)
    returns (pairs: seq<(Pred, Truth)>, free: seq<Pred>, missed: seq<Truth>)
    ensures var a := Greedy(preds, truths, ByLine());
            pairs == PairsOf(a.chosen, truths) && missed == MissedOf(a.chosen, truths) && free == a.free
    ensures |pairs| + |missed| == |truths| && |pairs| + |free| == |preds|
    ensures multiset(Taken(Greedy(preds, truths, ByLine()).chosen)) + multiset(free) == multiset(preds)
    ensures forall pair :: pair in pairs ==> Finds(pair.0, pair.1)
    ensures forall t, p :: t in missed && p in free ==> !Finds(p, t)
  {
    pairs, free, missed := GreedyMatch(preds, truths, ByLine());
    GreedyConserves(preds, truths, ByLine());
    PairCounts(Greedy(preds, truths, ByLine()).chosen, truths);
    NothingLeftFits(preds, truths, ByLine());
    MatchesAreFinds();
  }

  lemma {:induction false} MatchesAreFinds()
    ensures forall p, t :: Matches(p, t) <==> Finds(p, t)
  {
    forall p, t ensures Matches(p, t) <==> Finds(p, t) {
      MatchesExactly(p, t);
    }
  }

  /** The factor cannot be improved: here greedy finds one pair where two are possible. */
  lemma {:induction false} HalfIsTight()
    ensures var near, far := Pred("a.py", 12, Some(Numbered(89)), "", "", ""),
        Pred("a.py", 5, Some(Numbered(89)), "", "", "");
            var first, second := Truth("a.py", 10, Numbered(89)), Truth("a.py", 18, Numbered(89));
            && |PairsOf(Greedy([near, far], [first, second], ByLine()).chosen, [first, second])| == 1
            && OneToOne(map[0 := 1, 1 := 0], [near, far], [first, second], ByLine())
  {
    var near, far := Pred("a.py", 12, Some(Numbered(89)), "", "", ""), Pred("a.py", 5, Some(Numbered(89)), "", "", "");
    var first, second := Truth("a.py", 10, Numbered(89)), Truth("a.py", 18, Numbered(89));
    assert LStrip("a.py", {'.', '/'}) == "a.py";
    NotConfig();
    GreedyCanHalve(near, far, first, second, ByLine());
  }

  lemma {:induction false} NotConfig()
    ensures !IsConfig("a.py") && !("dockerfile" <= Lower("a.py"))
  {
    var low := Lower("a.py");
    assert low == "a.py";
    LastSegmentIsSuffix(low);
    forall name | name in {"requirements.txt", "dockerfile", ".yml", ".yaml", ".toml", "package.json"}
      ensures !EndsWith(low, name) && !(name <= LastSegment(low))
    {
      assert |name| >= 4 && name[0] != 'a' && name[|name| - 1] != 'y';
    }
  }

  // ----- Counters and metrics -----

  function Second(pairs: seq<(Pred, Truth)>): seq<Truth> {
    if pairs == [] then [] else Second(pairs[..|pairs| - 1]) + [pairs[|pairs| - 1].1]
  }

  function MatchedIn(c: Case): seq<Truth> {
    Second(PairsOf(Greedy(c.preds, c.truths, ByLine()).chosen, c.truths))
  }

  function MissedIn(c: Case): seq<Truth> {
    MissedOf(Greedy(c.preds, c.truths, ByLine()).chosen, c.truths)
  }

  function Matched(cases: seq<Case>): seq<Truth> {
    if cases == [] then [] else Matched(cases[..|cases| - 1]) + MatchedIn(cases[|cases| - 1])
  }

  function Missed(cases: seq<Case>): seq<Truth> {
    if cases == [] then [] else Missed(cases[..|cases| - 1]) + MissedIn(cases[|cases| - 1])
  }

  function PredCount(cases: seq<Case>): nat {
    if cases == [] then 0 else PredCount(cases[..|cases| - 1]) + |cases[|cases| - 1].preds|
  }

  function TruthCount(cases: seq<Case>): nat {
    if cases == [] then 0 else TruthCount(cases[..|cases| - 1]) + |cases[|cases| - 1].truths|
  }

  function Classes(truths: seq<Truth>): seq<Class> {
    if truths == [] then [] else Classes(truths[..|truths| - 1]) + [ClassOf(Some(truths[|truths| - 1].cwe))]
  }

  datatype Row = Row(hit: nat, miss: nat)
  type ClassTable<K> = map<K, Row>

  /** The per-class table holds the multiplicity of every class among the matched and the missed truths. */
  ghost predicate Tabulates<K>(table: ClassTable<K>, matched: multiset<K>, missed: multiset<K>) {
    && (forall name :: name in table ==> table[name] == Row(matched[name], missed[name]))
    && (forall name :: name in matched ==> name in table)
    && (forall name :: name in missed ==> name in table)
  }

  function Bump<K>(table: ClassTable<K>, name: K, hit: bool): ClassTable<K> {
    var row := if name in table then table[name] else Row(0, 0);
    table[name := if hit then Row(row.hit + 1, row.miss) else Row(row.hit, row.miss + 1)]
  }

  function BumpAll<K>(table: ClassTable<K>, names: seq<K>, hit: bool): ClassTable<K> {
    if names == [] then table
    else Bump(BumpAll(table, names[..|names| - 1], hit), names[|names| - 1], hit)
  }

  lemma {:induction false} BumpTabulates<K>(table: ClassTable<K>, matched: multiset<K>, missed: multiset<K>, name: K)
    requires Tabulates(table, matched, missed)
    ensures Tabulates(Bump(table, name, true), matched + multiset{name}, missed)
    ensures Tabulates(Bump(table, name, false), matched, missed + multiset{name})
  {
  }

  lemma {:induction false} BumpAllMatched<K>(table: ClassTable<K>, matched: multiset<K>, missed: multiset<K>,
                                        names: seq<K>)
    requires Tabulates(table, matched, missed)
    ensures Tabulates(BumpAll(table, names, true), matched + multiset(names), missed)
  {
    if names == [] {
      assert matched + multiset(names) == matched;
    } else {
      var rest, name := names[..|names| - 1], names[|names| - 1];
      assert names == rest + [name];
      BumpAllMatched(table, matched, missed, rest);
      BumpTabulates(BumpAll(table, rest, true), matched + multiset(rest), missed, name);
      assert matched + multiset(names) == matched + multiset(rest) + multiset{name};
    }
  }

  lemma {:induction false} BumpAllMissed<K>(table: ClassTable<K>, matched: multiset<K>, missed: multiset<K>,
                                        names: seq<K>)
    requires Tabulates(table, matched, missed)
    ensures Tabulates(BumpAll(table, names, false), matched, missed + multiset(names))
  {
    if names == [] {
      assert missed + multiset(names) == missed;
    } else {
      var rest, name := names[..|names| - 1], names[|names| - 1];
      assert names == rest + [name];
      BumpAllMissed(table, matched, missed, rest);
      BumpTabulates(BumpAll(table, rest, false), matched, missed + multiset(rest), name);
      assert missed + multiset(names) == missed + multiset(rest) + multiset{name};
    }
  }

  ghost function ColumnSum<K>(table: ClassTable<K>, hit: bool): nat {
    if table.Keys == {} then 0
    else
      var name :| name in table;
      (if hit then table[name].hit else table[name].miss) + ColumnSum(table - {name}, hit)
  }

  lemma {:induction false} ColumnIsCardinality<K>(table: ClassTable<K>, classes: multiset<K>, hit: bool)
    requires forall name :: name in table ==> (if hit then table[name].hit else table[name].miss) == classes[name]
    requires forall name :: name in classes ==> name in table
    ensures ColumnSum(table, hit) == |classes|
  {
    if table.Keys == {} {
      assert classes == multiset{};
    } else {
      var name :| name in table && ColumnSum(table, hit) ==
        (if hit then table[name].hit else table[name].miss) + ColumnSum(table - {name}, hit);
      ColumnIsCardinality(table - {name}, classes[name := 0], hit);
    }
  }

  /** The columns of the per-class table add up to the matched and to the missed truths. */
  lemma {:induction false} ColumnsAddUp<K>(table: ClassTable<K>, matched: seq<K>, missed: seq<K>)
    requires Tabulates(table, multiset(matched), multiset(missed))
    ensures ColumnSum(table, true) == |matched| && ColumnSum(table, false) == |missed|
  {
    ColumnIsCardinality(table, multiset(matched), true);
    ColumnIsCardinality(table, multiset(missed), false);
  }

  lemma {:induction false} ClassesConcat(a: seq<Truth>, b: seq<Truth>)
    ensures Classes(a + b) == Classes(a) + Classes(b)
    ensures |Classes(b)| == |b|
  {
    if b == [] {
      assert a + b == a;
    } else {
      var n := |b| - 1;
      assert (a + b)[..|a| + n] == a + b[..n];
      ClassesConcat(a, b[..n]);
    }
  }

  lemma {:induction false} SecondLength(pairs: seq<(Pred, Truth)>)
    ensures |Second(pairs)| == |pairs|
  {
    if pairs != [] {
      SecondLength(pairs[..|pairs| - 1]);
    }
  }

  /** Sizes of one-to-one matchings, one per case. */
  ghost predicate Matchings(ms: seq<map<int, int>>, cases: seq<Case>) {
    |ms| == |cases| && forall i :: 0 <= i < |cases| ==> OneToOne(ms[i], cases[i].preds, cases[i].truths, ByLine())
  }

  ghost function TotalSize(ms: seq<map<int, int>>): nat {
    if ms == [] then 0 else TotalSize(ms[..|ms| - 1]) + |ms[|ms| - 1]|
  }

  /** The true positives of a whole benchmark are at least half of what any one-to-one scoring could count. */
  lemma {:induction false} TruePositivesAreHalfOptimal(ms: seq<map<int, int>>, cases: seq<Case>)
    requires Matchings(ms, cases)
    ensures TotalSize(ms) <= 2 * |Matched(cases)|
  {
    if cases != [] {
      var n := |cases| - 1;
      TruePositivesAreHalfOptimal(ms[..n], cases[..n]);
      GreedyIsHalfOptimal(cases[n].preds, cases[n].truths, ByLine(), ms[n]);
      SecondLength(PairsOf(Greedy(cases[n].preds, cases[n].truths, ByLine()).chosen, cases[n].truths));
    }
  }

  function Ratio(x: nat, y: nat): real {
    if x + y != 0 then x as real / (x + y) as real else 0.0
  }

  /** `r` times the whole is the part; nothing is a share of nothing. */
  predicate IsShare(r: real, part: nat, whole: nat) {
    if whole == 0 then part == 0 && r == 0.0 else r * whole as real == part as real
  }

  function HarmonicMean(p: real, r: real): real {
    if p + r != 0.0 then 2.0 * p * r / (p + r) else 0.0
  }

  /** All the counters of a benchmark run. */
  datatype Tally = Tally(tp: nat, fp: nat, fn: nat, safeCases: nat, safeCasesFlagged: nat, perClass: ClassTable<Class>)

  function ScoreWith(t: Tally, c: Case, pairs: seq<(Pred, Truth)>, fps: seq<Pred>, missed: seq<Truth>): Tally {
    Tally(t.tp + |pairs|, t.fp + |fps|, t.fn + |missed|,
          t.safeCases + (if c.truths == [] then 1 else 0),
          t.safeCasesFlagged + (if c.truths == [] && c.preds != [] then 1 else 0),
          BumpAll(BumpAll(t.perClass, Classes(Second(pairs)), true), Classes(missed), false))
  }

  function ScoreCase(t: Tally, c: Case): Tally {
    var a := Greedy(c.preds, c.truths, ByLine());
    ScoreWith(t, c, PairsOf(a.chosen, c.truths), a.free, MissedOf(a.chosen, c.truths))
  }

  function Score(cases: seq<Case>): Tally {
    if cases == [] then Tally(0, 0, 0, 0, 0, map[])
    else ScoreCase(Score(cases[..|cases| - 1]), cases[|cases| - 1])
  }

  /** Over any list of cases every truth and every prediction is counted exactly once, and the counters are
      the sizes of what they count. */
  lemma {:induction false} ScoreConserves(cases: seq<Case>)
    ensures var t := Score(cases);
            && t.tp + t.fn == TruthCount(cases) && t.tp + t.fp == PredCount(cases)
            && t.tp == |Matched(cases)| && t.fn == |Missed(cases)|
            && t.safeCasesFlagged <= t.safeCases <= |cases|
  {
    if cases != [] {
      var c := cases[|cases| - 1];
      ScoreConserves(cases[..|cases| - 1]);
      GreedyConserves(c.preds, c.truths, ByLine());
      PairCounts(Greedy(c.preds, c.truths, ByLine()).chosen, c.truths);
      SecondLength(PairsOf(Greedy(c.preds, c.truths, ByLine()).chosen, c.truths));
    }
  }

  /** The per-class table holds, for every class, its matched and its missed truths over all cases, and its
      columns add up to `tp` and `fn`. */
  lemma {:induction false} ScoreTabulates(cases: seq<Case>)
    ensures var t := Score(cases);
            && Tabulates(t.perClass, multiset(Classes(Matched(cases))), multiset(Classes(Missed(cases))))
            && ColumnSum(t.perClass, true) == t.tp && ColumnSum(t.perClass, false) == t.fn
  {
    TableIsExact(cases);
    ScoreConserves(cases);
    ClassesConcat([], Matched(cases));
    ClassesConcat([], Missed(cases));
    ColumnsAddUp(Score(cases).perClass, Classes(Matched(cases)), Classes(Missed(cases)));
  }

  lemma {:induction false} TableIsExact(cases: seq<Case>)
    ensures Tabulates(Score(cases).perClass, multiset(Classes(Matched(cases))), multiset(Classes(Missed(cases))))
  {
    if cases != [] {
      var before, c := cases[..|cases| - 1], cases[|cases| - 1];
      TableIsExact(before);
      var hits, misses := Classes(Matched(before)), Classes(Missed(before));
      var found, lost := Classes(MatchedIn(c)), Classes(MissedIn(c));
      ClassesConcat(Matched(before), MatchedIn(c));
      ClassesConcat(Missed(before), MissedIn(c));
      BumpAllMatched(Score(before).perClass, multiset(hits), multiset(misses), found);
      BumpAllMissed(BumpAll(Score(before).perClass, found, true),
                    multiset(hits) + multiset(found), multiset(misses), lost);
      assert multiset(hits + found) == multiset(hits) + multiset(found);
      assert multiset(misses + lost) == multiset(misses) + multiset(lost);
    }
  }

  /** The two loops that fill the per-class table. */
  method CountClasses<K(==)>(table: ClassTable<K>, found: seq<K>, lost: seq<K>) returns (r: ClassTable<K>)
    ensures r == BumpAll(BumpAll(table, found, true), lost, false)
  {
    r := table;
    for i := 0 to |found|
      invariant r == BumpAll(table, found[..i], true)
    {
      assert found[..i + 1][..i] == found[..i];
      r := Bump(r, found[i], true);
    }
    assert found[..|found|] == found;
    for i := 0 to |lost|
      invariant r == BumpAll(BumpAll(table, found, true), lost[..i], false)
    {
      assert lost[..i + 1][..i] == lost[..i];
      r := Bump(r, lost[i], false);
    }
    assert lost[..|lost|] == lost;
  }

  class Counts {
    var tp: nat
    var fp: nat
    var fn: nat
    var safeCases: nat
    var safeCasesFlagged: nat
    var perClass: ClassTable<Class>

    function Snapshot(): Tally
      reads this
    {
      Tally(tp, fp, fn, safeCases, safeCasesFlagged, perClass)
    }

    constructor ()
      ensures Snapshot() == Score([])
    {
      tp, fp, fn, safeCases, safeCasesFlagged, perClass := 0, 0, 0, 0, 0, map[];
    }

    method AddCase(preds: seq<Pred>, truths: seq<Truth>)
      modifies this
      ensures Snapshot() == ScoreCase(old(Snapshot()), Case(preds, truths))
    {
      var pairs, fps, missed := MatchCase(preds, truths);
      Record(Case(preds, truths), pairs, fps, missed);
    }

    /** The updates of `add_case` once the case is matched. */
    method Record(c: Case, pairs: seq<(Pred, Truth)>, fps: seq<Pred>, missed: seq<Truth>)
      modifies this
      ensures Snapshot() == ScoreWith(old(Snapshot()), c, pairs, fps, missed)
    {
      tp := tp + |pairs|;
      fp := fp + |fps|;
      fn := fn + |missed|;
      if c.truths == [] {
        safeCases := safeCases + 1;
        safeCasesFlagged := safeCasesFlagged + if c.preds != [] then 1 else 0;
      }
      perClass := CountClasses(perClass, Classes(Second(pairs)), Classes(missed));
    }

    function Precision(): real
      reads this
    {
      Ratio(tp, fp)
    }

    function Recall(): real
      reads this
    {
      Ratio(tp, fn)
    }

    function F1(): real
      reads this
    {
      HarmonicMean(Precision(), Recall())
    }
  }

  /** The scores of a benchmark that counted these cases: precision is the share of the predictions that found
      something, recall the share of the vulnerabilities that were found, and F1 is the share of both together that
      twice the found ones are. */
  lemma {:induction false} ScoresOfCases(counts: Counts, cases: seq<Case>)
    requires counts.Snapshot() == Score(cases)
    ensures IsShare(counts.Precision(), |Matched(cases)|, PredCount(cases))
    ensures IsShare(counts.Recall(), |Matched(cases)|, TruthCount(cases))
    ensures IsShare(counts.F1(), 2 * |Matched(cases)|, PredCount(cases) + TruthCount(cases))
  {
    ScoreConserves(cases);
    SameShares(counts, |Matched(cases)|, PredCount(cases), TruthCount(cases));
  }

  lemma {:induction false} SameShares(counts: Counts, found: nat, preds: nat, truths: nat)
    requires found == counts.tp && preds == counts.tp + counts.fp && truths == counts.tp + counts.fn
    ensures IsShare(counts.Precision(), found, preds) && IsShare(counts.Recall(), found, truths)
    ensures IsShare(counts.F1(), 2 * found, preds + truths)
  {
    RatioIsShare(counts.tp, counts.fp);
    RatioIsShare(counts.tp, counts.fn);
    F1IsShare(counts.tp, counts.fp, counts.fn);
  }

  lemma {:induction false} RatioIsShare(x: nat, y: nat)
    ensures IsShare(Ratio(x, y), x, x + y)
  {
  }

  lemma {:induction false} F1IsShare(tp: nat, fp: nat, fn: nat)
    ensures IsShare(HarmonicMean(Ratio(tp, fp), Ratio(tp, fn)), 2 * tp, 2 * tp + fp + fn)
  {
    F1ClosedForm(tp, fp, fn);
    if tp > 0 {
      QuotientOf(2 * tp, 2 * tp + fp + fn);
    }
  }

  lemma {:induction false} QuotientOf(x: nat, y: nat)
    requires y > 0
    ensures (x as real / y as real) * y as real == x as real
  {
  }

  /** F1 in closed form, and between precision and recall. */
  lemma {:induction false} F1ClosedForm(tp: nat, fp: nat, fn: nat)
    ensures var p, r, f := Ratio(tp, fp), Ratio(tp, fn), HarmonicMean(Ratio(tp, fp), Ratio(tp, fn));
            && (tp > 0 ==> f == (2 * tp) as real / (2 * tp + fp + fn) as real)
            && (tp == 0 ==> f == 0.0)
            && (p <= r ==> p <= f <= r) && (r <= p ==> r <= f <= p)
  {
    if tp > 0 {
      var t, a, b := tp as real, (tp + fp) as real, (tp + fn) as real;
      MeanOfQuotients(t, a, b);
    }
  }

  lemma {:induction false} MeanOfQuotients(t: real, a: real, b: real)
    requires t > 0.0 && a > 0.0 && b > 0.0
    ensures HarmonicMean(t / a, t / b) == (2.0 * t) / (a + b)
    ensures a <= b ==> t / b <= (2.0 * t) / (a + b) <= t / a
    ensures b <= a ==> t / a <= (2.0 * t) / (a + b) <= t / b
  {
    var m := (2.0 * t) / (a + b);
    assert t / a + t / b > 0.0;
    assert (t / a) * a == t && (t / b) * b == t && m * (a + b) == 2.0 * t;
    if a <= b {
      assert m * a <= t <= m * b;
    } else {
      assert m * b <= t <= m * a;
    }
  }
}
