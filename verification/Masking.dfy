/** What correlating a rescan hides from the check that the original weakness is gone
    (backend/services/verification.py, line 176, with backend/services/correlator.py). */
module Masking {
  import opened Prelude
  import opened Cwe
  import opened Findings
  import opened Sorting
  import opened Grouping
  import opened Correlator
  import Verification

  /** The fields that decide whether a finding is the same weakness as another. */
  predicate SamePlace(m: Finding, f: Finding) {
    && m.file == f.file && Family(m.cwe) == Family(f.cwe) && m.package == f.package && m.cve == f.cve
    && m.symbol == f.symbol && m.line == f.line
  }

  lemma {:induction false} SamePlaceSameWeakness(t: Finding, m: Finding, f: Finding)
    requires SamePlace(m, f)
    ensures Verification.SameWeakness(t, m) <==> Verification.SameWeakness(t, f)
  {
  }

  lemma {:induction false} SortOne<T>(x: T, leq: (T, T) -> bool)
    ensures StableSort([x], leq) == [x]
  {
    assert [x][1..] == [];
    assert StableSort([x][1..], leq) == [];
  }

  lemma {:induction false} SortTwo<T>(x: T, y: T, leq: (T, T) -> bool)
    ensures StableSort([x, y], leq) == if leq(x, y) then [x, y] else [y, x]
  {
    assert [x, y][1..] == [y];
    SortOne(y, leq);
    assert [y][1..] == [];
    assert Insert(x, [], leq) == [x];
  }

  /** Merging one finding keeps what identifies it. */
  lemma {:induction false} MergeOne(f: Finding)
    requires WellFormed(f)
    ensures var m := Merge([f]);
            && SamePlace(m, f) && m.scanner == f.scanner && m.severity == f.severity && m.fingerprint == f.fingerprint
            && EndOf(m) == EndOf(f) && Present(m.cwe) == Present(f.cwe)
  {
    var one := [f];
    SortOne(f, RankLeq);
    assert one[1..] == [] && one[0] == f;
    assert Merge(one) == Combine(one);
    assert FirstCwe(one[1..]) == None;
    assert MaxEnd(one) == EndOf(f) && TopSeverity(one) == f.severity;
  }

  lemma {:induction false} GroupOne(f: Finding, fp: string)
    ensures WithFp([f], fp) == if f.fingerprint == fp then [f] else []
    ensures FirstSeen([f]) == [f.fingerprint]
  {
    var one := [f];
    assert one[..|one| - 1] == [];
    assert WithKey(one[..|one| - 1], Fp, fp) == [];
    assert WithFp(one, fp) == [] + (if Fp(f) == fp then [f] else []);
    assert FirstSeen(one) == [] + [f.fingerprint];
  }

  lemma {:induction false} GroupTwo(f: Finding, g: Finding)
    requires f.fingerprint != g.fingerprint
    ensures FirstSeen([f, g]) == [f.fingerprint, g.fingerprint]
    ensures WithFp([f, g], f.fingerprint) == [f] && WithFp([f, g], g.fingerprint) == [g]
  {
    assert [f, g][..1] == [f];
    GroupOne(f, f.fingerprint);
    GroupOne(f, g.fingerprint);
  }

  lemma {:induction false} MergeTwoGroups(f: Finding, g: Finding)
    requires f.fingerprint != g.fingerprint
    ensures forall fp :: fp in FirstSeen([f, g]) ==> WithFp([f, g], fp) != []
    ensures MergeAll([f, g], FirstSeen([f, g])) == [Merge([f]), Merge([g])]
  {
    GroupTwo(f, g);
    var keys := [f.fingerprint, g.fingerprint];
    assert keys[..1] == [f.fingerprint] && [f.fingerprint][..0] == [];
    assert MergeAll([f, g], []) == [];
    assert MergeAll([f, g], [f.fingerprint]) == [Merge([f])];
  }

  lemma {:induction false} OneRun(x: Finding, y: Finding)
    requires SameIssue(x, y)
    ensures RunsOf([x, y], SameIssue) == [[x, y]]
  {
    var one, two := [x], [x, y];
    assert two[..|two| - 1] == one && one[..|one| - 1] == [];
    assert RunsOf(one[..|one| - 1], SameIssue) == [];
    assert RunsOf(one, SameIssue) == AddToRuns([], x, SameIssue) == [[x]];
    assert Last(Last([[x]])) == x;
    assert RunsOf(two, SameIssue) == AddToRuns([[x]], y, SameIssue);
    assert [x] + [y] == [x, y];
  }

  lemma {:induction false} FinishOneRun(x: Finding, y: Finding)
    ensures FinishAll([[x, y]]) == [Merge([x, y])]
  {
    var runs := [[x, y]];
    assert runs[0] == [x, y];
    assert FinishAll(runs)[0] == Merge([x, y]);
  }

  // ----- Who speaks for a run -----

  /** The member whose place the merged finding takes: the richest scanner's, then the most severe. */
  function Voice(run: seq<Finding>): Finding
    requires run != []
  {
    SortMultiset(run, RankLeq);
    StableSort(run, RankLeq)[0]
  }

  lemma {:induction false} VoiceIsMember(run: seq<Finding>)
    requires run != []
    ensures Voice(run) in run
  {
    SortMultiset(run, RankLeq);
    SortMembers(run, RankLeq);
    assert StableSort(run, RankLeq)[0] in StableSort(run, RankLeq);
  }

  /** Every output stands at the place of the voice of its run. */
  lemma {:induction false} VoiceSpeaks(raw: seq<Finding>, k: nat)
    requires k < |ProximityRuns(raw)|
    ensures SamePlace(Finish(ProximityRuns(raw)[k]), Voice(ProximityRuns(raw)[k]))
  {
    var run := ProximityRuns(raw)[k];
    if |run| > 1 {
      VoiceIsMember(run);
      var i :| 0 <= i < |run| && run[i] == Voice(run);
      RunsAreHomogeneous(raw, k, i);
      MergeAtVoice(run);
    } else {
      assert run == [run[0]];
      SortOne(run[0], RankLeq);
    }
  }

  lemma {:induction false} MergeAtVoice(run: seq<Finding>)
    requires run != [] && Present(Voice(run).cwe)
    ensures SamePlace(Merge(run), Voice(run))
  {
  }

  lemma {:induction false} OutputOfRun(raw: seq<Finding>, k: nat)
    requires k < |ProximityRuns(raw)|
    ensures Finish(ProximityRuns(raw)[k]) in Correlated(raw)
  {
    var out := FinishAll(ProximityRuns(raw));
    assert out[k] in out;
    SortMembers(out, SeverityLeq);
  }

  lemma {:induction false} RunOfOutput(raw: seq<Finding>, x: Finding) returns (k: nat)
    requires x in Correlated(raw)
    ensures k < |ProximityRuns(raw)| && x == Finish(ProximityRuns(raw)[k])
  {
    var out := FinishAll(ProximityRuns(raw));
    SortMembers(out, SeverityLeq);
    k :| 0 <= k < |out| && out[k] == x;
  }

  /** Some run speaks with the voice of the weakness `t`. */
  predicate Heard(t: Finding, runs: seq<seq<Finding>>)
    requires forall k :: 0 <= k < |runs| ==> runs[k] != []
  {
    exists k :: 0 <= k < |runs| && Verification.SameWeakness(t, Voice(runs[k]))
  }

  /** The rescan notices the original weakness exactly when it is the voice of some run; reports that are not the
      voice of their run do not count. */
  lemma {:induction false} NoticedExactly(t: Finding, raw: seq<Finding>)
    ensures Verification.Persisting(t, Correlated(raw)) != [] <==> Heard(t, ProximityRuns(raw))
  {
    var runs := ProximityRuns(raw);
    EmptyFilter(Correlated(raw), (x: Finding) => Verification.SameWeakness(t, x));
    if exists x :: x in Correlated(raw) && Verification.SameWeakness(t, x) {
      var x :| x in Correlated(raw) && Verification.SameWeakness(t, x);
      var k := RunOfOutput(raw, x);
      VoiceSpeaks(raw, k);
      SamePlaceSameWeakness(t, x, Voice(runs[k]));
    }
    if Heard(t, runs) {
      var k :| 0 <= k < |runs| && Verification.SameWeakness(t, Voice(runs[k]));
      OutputOfRun(raw, k);
      VoiceSpeaks(raw, k);
      SamePlaceSameWeakness(t, Finish(runs[k]), Voice(runs[k]));
    }
  }

  lemma {:induction false} FinishSeverity(run: seq<Finding>)
    requires run != []
    ensures SeverityOf(Finish(run)) == Peak(run, SeverityOf)
  {
    if |run| > 1 {
      var sorted := StableSort(run, RankLeq);
      SortMultiset(run, RankLeq);
      SortMembers(run, RankLeq);
      CombinePeaks(sorted);
      SamePeak(sorted, run, SeverityOf);
    }
  }

  /** No run with a medium or worse member speaks with a voice unknown to the baseline. */
  predicate NothingNew(runs: seq<seq<Finding>>, baseline: seq<Finding>)
    requires forall k :: 0 <= k < |runs| ==> runs[k] != []
  {
    forall k :: 0 <= k < |runs| && Peak(runs[k], SeverityOf) >= SeverityIndex(Medium) ==>
      Verification.IsKnown(baseline, Voice(runs[k]))
  }

  lemma {:induction false} KnownByVoice(baseline: seq<Finding>, m: Finding, f: Finding)
    requires SamePlace(m, f)
    ensures Verification.IsKnown(baseline, m) <==> Verification.IsKnown(baseline, f)
  {
    forall b ensures Verification.SameWeakness(b, m) <==> Verification.SameWeakness(b, f) {
      SamePlaceSameWeakness(b, m, f);
    }
  }

  lemma {:induction false} NothingNewExactly(raw: seq<Finding>, baseline: seq<Finding>)
    ensures Verification.Introduced(baseline, Correlated(raw)) == [] <==> NothingNew(ProximityRuns(raw), baseline)
  {
    var runs := ProximityRuns(raw);
    EmptyFilter(Correlated(raw), (x: Finding) => Verification.IsIntroduced(baseline, x));
    forall k | 0 <= k < |runs|
      ensures Finish(runs[k]) in Correlated(raw) && SeverityOf(Finish(runs[k])) == Peak(runs[k], SeverityOf)
      ensures Verification.IsKnown(baseline, Finish(runs[k])) <==> Verification.IsKnown(baseline, Voice(runs[k]))
    {
      OutputOfRun(raw, k);
      FinishSeverity(runs[k]);
      VoiceSpeaks(raw, k);
      KnownByVoice(baseline, Finish(runs[k]), Voice(runs[k]));
    }
    if NothingNew(runs, baseline) {
      forall x | x in Correlated(raw) ensures !Verification.IsIntroduced(baseline, x) {
        var k := RunOfOutput(raw, x);
      }
    }
  }

  /** The verdict on a rescan, from its raw reports: it passes exactly when every scanner ran, no run speaks with the
      voice of the original weakness, and every run with a medium or worse member has a voice known to the baseline. */
  lemma {:induction false} PassesExactly(outs: seq<Verification.ScanOut>, t: Finding, baseline: seq<Finding>,
                                         checks: Verification.Checks)
    ensures Verification.JudgeScans(outs, t, baseline, checks).Judged?
    ensures var runs := ProximityRuns(Verification.RawFindings(outs));
            Verification.JudgeScans(outs, t, baseline, checks).passed <==>
              (forall out :: out in outs ==> out.error == "") && !Heard(t, runs) && NothingNew(runs, baseline)
  {
    var raw := Verification.RawFindings(outs);
    Verification.NoScanErrors(outs);
    NoticedExactly(t, raw);
    NothingNewExactly(raw, baseline);
  }

  /** So the weakness persists in the raw reports of a rescan that passes exactly when some report shows it but only
      in runs that other members speak for, all of them known to the baseline if they matter. */
  lemma {:induction false} MissedExactly(outs: seq<Verification.ScanOut>, t: Finding, baseline: seq<Finding>,
                                         checks: Verification.Checks)
    ensures var raw, runs := Verification.RawFindings(outs), ProximityRuns(Verification.RawFindings(outs));
            (Verification.JudgeScans(outs, t, baseline, checks).passed && Verification.Persisting(t, raw) != []) <==>
              && (forall out :: out in outs ==> out.error == "")
              && (exists f :: f in raw && Verification.SameWeakness(t, f))
              && !Heard(t, runs) && NothingNew(runs, baseline)
  {
    PassesExactly(outs, t, baseline, checks);
    EmptyFilter(Verification.RawFindings(outs), (x: Finding) => Verification.SameWeakness(t, x));
  }

  // ----- The case arises -----

  /** In order of line, the two findings are the same issue. */
  predicate Neighbours(f: Finding, g: Finding) {
    if f.line <= g.line then SameIssue(f, g) else SameIssue(g, f)
  }

  /** Two neighbouring findings of one family become one, at the place of the one of the richer scanner. */
  lemma {:induction false} PairBecomesOne(f: Finding, g: Finding)
    requires WellFormed(f) && WellFormed(g) && f.fingerprint != g.fingerprint
    requires Neighbours(f, g) && ScannerRank(g.scanner) < ScannerRank(f.scanner)
    ensures |Correlated([f, g])| == 1 && SamePlace(Correlated([f, g])[0], g)
  {
    var x, y := Merge([f]), Merge([g]);
    MergeOne(f);
    MergeOne(g);
    MergeTwoGroups(f, g);
    SortTwo(x, y, PlaceLeq);
    var a, b := if f.line <= g.line then x else y, if f.line <= g.line then y else x;
    assert ByPlace([f, g]) == [a, b];
    PairRuns(f, g, a, b);
    FinishOneRun(a, b);
    SortOne(Merge([a, b]), SeverityLeq);
    PrimaryOfTwo(x, y);
  }

  lemma {:induction false} PairRuns(f: Finding, g: Finding, x: Finding, y: Finding)
    requires ByPlace([f, g]) == [x, y] && SameIssue(x, y)
    ensures ProximityRuns([f, g]) == [[x, y]]
  {
    OneRun(x, y);
  }

  lemma {:induction false} PrimaryOfTwo(x: Finding, y: Finding)
    requires ScannerRank(y.scanner) < ScannerRank(x.scanner) && Present(y.cwe)
    ensures SamePlace(Merge([x, y]), y) && SamePlace(Merge([y, x]), y)
  {
    SortTwo(x, y, RankLeq);
    SortTwo(y, x, RankLeq);
  }

  /** A patch passes although a scanner still reports the weakness it should remove: the report is absorbed by a
      neighbour of the same family from a richer scanner, which the baseline knows and which is too far away to be
      the same weakness. */
  lemma {:induction false} AbsorbedReportPasses(t: Finding, f: Finding, g: Finding, outs: seq<Verification.ScanOut>,
                                                baseline: seq<Finding>, checks: Verification.Checks)
    requires WellFormed(f) && WellFormed(g) && f.fingerprint != g.fingerprint
    requires Neighbours(f, g) && ScannerRank(g.scanner) < ScannerRank(f.scanner)
    requires Verification.SameWeakness(t, f) && !Verification.SameWeakness(t, g) && g in baseline
    requires Verification.RawFindings(outs) == [f, g] && forall out :: out in outs ==> out.error == ""
    ensures Verification.Persisting(t, Verification.RawFindings(outs)) != []
    ensures Verification.JudgeScans(outs, t, baseline, checks).Judged?
    ensures Verification.JudgeScans(outs, t, baseline, checks).passed
  {
    PairBecomesOne(f, g);
    var out := Correlated([f, g]);
    Verification.NoScanErrors(outs);
    SamePlaceSameWeakness(t, out[0], g);
    EmptyFilter(out, (x: Finding) => Verification.SameWeakness(t, x));
    EmptyFilter([f, g], (x: Finding) => Verification.SameWeakness(t, x));
    assert f in [f, g];
    Verification.SameWeaknessIsTolerance(g, g);
    KnownByVoice(baseline, out[0], g);
    EmptyFilter(out, (x: Finding) => Verification.IsIntroduced(baseline, x));
  }

  function Report(scanner: string, fingerprint: string, line: int): Finding {
    Finding("", scanner, "", "a.py", line, None, Medium, Some(Numbered(89)), None, "", "", Unvalidated, None,
            fingerprint, UnknownScope, None, None, [], [], None, None)
  }

  /** A semgrep report eight lines below the target, absorbed by a codeql report three lines further down that the
      scan knew from the start: the verification passes. */
  lemma {:induction false} AbsorptionExample(t: Finding, f: Finding, g: Finding, checks: Verification.Checks)
    requires t == Report("semgrep", "t", 1) && f == Report("semgrep", "f", 9) && g == Report("codeql", "g", 12)
    ensures var outs := [Verification.ScanOut("semgrep", [f], ""), Verification.ScanOut("codeql", [g], "")];
            && Verification.Persisting(t, Verification.RawFindings(outs)) != []
            && Verification.JudgeScans(outs, t, [t, g], checks).Judged?
            && Verification.JudgeScans(outs, t, [t, g], checks).passed
  {
    var one := [Verification.ScanOut("semgrep", [f], "")];
    var outs := [Verification.ScanOut("semgrep", [f], ""), Verification.ScanOut("codeql", [g], "")];
    assert outs[..1] == one && one[..0] == [];
    assert Verification.RawFindings(one[..0]) == [] && Verification.RawFindings(one) == [f];
    assert f.fingerprint[0] != g.fingerprint[0];
    assert "semgrep"[0] != "codeql"[0];
    AbsorbedReportPasses(t, f, g, outs, [t, g], checks);
  }

  /** A report that is merged with no other is noticed. */
  lemma {:induction false} UnmergedReportIsNoticed(t: Finding, raw: seq<Finding>, f: Finding)
    requires forall x :: x in raw ==> WellFormed(x)
    requires f in raw && WithFp(raw, f.fingerprint) == [f] && [Merge([f])] in ProximityRuns(raw)
    requires Verification.SameWeakness(t, f)
    ensures Verification.Persisting(t, Correlated(raw)) != []
  {
    var runs := ProximityRuns(raw);
    var k :| 0 <= k < |runs| && runs[k] == [Merge([f])];
    assert FinishAll(runs)[k] == Merge([f]);
    SortMembers(FinishAll(runs), SeverityLeq);
    assert Merge([f]) in Correlated(raw);
    MergeOne(f);
    SamePlaceSameWeakness(t, Merge([f]), f);
    EmptyFilter(Correlated(raw), (x: Finding) => Verification.SameWeakness(t, x));
  }
}
