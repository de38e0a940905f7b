/** The security analyst (backend/services/analyst.py): every finding leaves with an analysis, and every
    verdict of the model is grounded in the code it was shown. */
module Analyst {
  import opened Prelude
  import opened Text
  import opened Findings
  import opened Sorting
  import opened Batching

  datatype CodeContext = CodeContext(text: string, firstLine: int, lastLine: int, imports: string,
      callers: seq<string>) {
    predicate HasLine(n: int) {
      firstLine <= n <= lastLine
    }
  }

  /** One result of the model's reply. */
  datatype Item = Item(id: string, verdict: Verdict, confidence: real, priority: int, exploitability: string,
                       reasoning: string, citedLines: seq<int>)

  datatype Reply = Results(items: seq<Item>) | BudgetExceeded | Failed(message: string)

  type Pending = (Finding, CodeContext)

  /** What the analyst is run with: tool evidence, code retrieval, and the model's reply to each batch. */
  datatype Sources = Sources(deterministic: Finding -> Option<Analysis>, context: Finding -> CodeContext,
                             replies: nat -> Reply, model: string)

  function ItemWeight(it: Pending): nat {
    |it.1.text| + SumLengths(it.1.callers) + 500
  }

  /** A finding weighs as much as all the code shown for it, and 500 more. */
  lemma {:induction false} WeighsItsCode(it: Pending)
    ensures ItemWeight(it) == |it.1.text + Flatten(it.1.callers)| + 500
  {
    LengthOfJoined(it.1.callers);
  }

  method Batches(items: seq<Pending>, charBudget: int, maxN: int) returns (batches: seq<seq<Pending>>)
    ensures GreedySplit(batches, items, ItemWeight, Limit(charBudget, Some(maxN)))
  {
    var lim := Limit(charBudget, Some(maxN));
    var cur: seq<Pending> := [];
    var size := 0;
    batches := [];
    for i := 0 to |items|
      invariant cur == [] ==> batches == []
      invariant size == Weight(cur, ItemWeight)
      invariant GreedySplit(Close(batches, cur), items[..i], ItemWeight, lim)
    {
      var it := items[i];
      var n := ItemWeight(it);
      assert items[..i + 1] == items[..i] + [it];
      WeightSnoc(cur, it, ItemWeight);
      if MustClose(cur, size, n, lim) {
        CloseStaysGreedy(batches, cur, items[..i], it, ItemWeight, lim);
        batches := batches + [cur];
        WeightSnoc([], it, ItemWeight);
        cur, size := [], 0;
      } else {
        GrowStaysGreedy(batches, cur, items[..i], it, ItemWeight, lim);
      }
      cur := cur + [it];
      size := size + n;
    }
    assert items[..|items|] == items;
    if cur != [] {
      batches := batches + [cur];
    }
  }

  function Cited(lines: seq<int>, ctx: CodeContext): (r: seq<int>)
    ensures forall n :: n in r <==> n in lines && ctx.HasLine(n)
  {
    if lines == [] then []
    else (if ctx.HasLine(lines[0]) then [lines[0]] else []) + Cited(lines[1..], ctx)
  }

  function Apply(item: Item, ctx: CodeContext, model: string): Analysis {
    var valid := Cited(item.citedLines, ctx);
    var ungrounded := item.verdict != NeedsReview && valid == [];
    Analysis(if ungrounded then NeedsReview else item.verdict, item.confidence, item.priority,
             Cut(item.exploitability, 400),
             Cut(item.reasoning, 600) +
               (if ungrounded then " [downgraded: verdict cited no line from the shown code]" else ""),
             valid, model)
  }

  /** A definite verdict cites at least one line, and only lines that were shown. */
  predicate Grounded(a: Analysis, ctx: CodeContext) {
    && (forall n :: n in a.citedLines ==> ctx.HasLine(n))
    && (a.verdict != NeedsReview ==> a.citedLines != [])
  }

  function PriorityOf(s: Severity): int {
    match s
    case Critical => 0
    case High => 1
    case Medium => 2
    case _ => 3
  }

  function Unjudged(f: Finding, reason: string, model: string): Analysis {
    Analysis(NeedsReview, 0.0, PriorityOf(f.severity), "", reason, [], model)
  }

  /** `{i.id: i for i in res.results}[id]`: the last result with this id. */
  function LastItem(items: seq<Item>, id: string): Option<Item> {
    if items == [] then None
    else if items[|items| - 1].id == id then Some(items[|items| - 1])
    else LastItem(items[..|items| - 1], id)
  }

  function Judge(p: Pending, reply: Reply, model: string): (a: Analysis)
    ensures Grounded(a, p.1)
  {
    var item := if reply.Results? then LastItem(reply.items, p.0.id) else None;
    match item
    case Some(it) => Apply(it, p.1, model)
    case None => Unjudged(p.0, "Analyst produced no verdict for this finding.", model)
  }

  /** Item `k` is the last one with this id. */
  predicate LastOf(items: seq<Item>, id: string, k: nat) {
    k < |items| && items[k].id == id && forall l :: k < l < |items| ==> items[l].id != id
  }

  /** The analysis is the item as far as the shown code bears it out: it cites exactly the lines of the item that were
      shown, and a definite verdict stands only if there is one. */
  ghost predicate Follows(a: Analysis, item: Item, ctx: CodeContext) {
    && a.confidence == item.confidence && a.priority == item.priority
    && (forall n :: n in a.citedLines <==> n in item.citedLines && ctx.firstLine <= n <= ctx.lastLine)
    && a.verdict == (if item.verdict == NeedsReview || a.citedLines != [] then item.verdict else NeedsReview)
    && StartOf(item.exploitability, 400, a.exploitability)
    && exists said :: StartOf(item.reasoning, 600, said) && a.reasoning == said +
         if a.verdict == item.verdict then "" else " [downgraded: verdict cited no line from the shown code]"
  }

  /** Nothing is known of the finding but its severity. */
  ghost predicate LeftOpen(a: Analysis, f: Finding, reason: string) {
    && a.verdict == NeedsReview && a.confidence == 0.0 && a.citedLines == [] && a.exploitability == ""
    && a.reasoning == reason && 0 <= a.priority <= 3
    && (a.priority == 0 <==> f.severity == Critical) && (a.priority == 1 <==> f.severity == High)
    && (a.priority == 2 <==> f.severity == Medium)
  }

  /** What the model's reply makes of a finding: the last item with its id decides, and without one it stays open. */
  ghost predicate JudgedBy(a: Analysis, f: Finding, ctx: CodeContext, reply: Reply) {
    if reply.Results? && exists k: nat :: LastOf(reply.items, f.id, k) then
      exists k: nat :: LastOf(reply.items, f.id, k) && Follows(a, reply.items[k], ctx)
    else LeftOpen(a, f, "Analyst produced no verdict for this finding.")
  }

  lemma {:induction false} LastItemIsLast(items: seq<Item>, id: string)
    ensures match LastItem(items, id)
            case Some(it) => exists k: nat :: LastOf(items, id, k) && items[k] == it
            case None => forall k: nat :: !LastOf(items, id, k)
  {
    if items != [] {
      var n := |items| - 1;
      if items[n].id == id {
        assert LastOf(items, id, n);
      } else {
        LastItemIsLast(items[..n], id);
        forall k: nat ensures LastOf(items, id, k) <==> LastOf(items[..n], id, k) {
        }
      }
    }
  }

  lemma {:induction false} ApplyFollows(item: Item, ctx: CodeContext, model: string)
    ensures Follows(Apply(item, ctx, model), item, ctx)
  {
    var said := Cut(item.reasoning, 600);
    var note := " [downgraded: verdict cited no line from the shown code]";
    assert StartOf(item.reasoning, 600, said) && said + "" == said;
    assert Apply(item, ctx, model).reasoning == said + "" || Apply(item, ctx, model).reasoning == said + note;
  }

  lemma {:induction false} JudgeIsJudged(p: Pending, reply: Reply, model: string)
    ensures JudgedBy(Judge(p, reply, model), p.0, p.1, reply) && Judge(p, reply, model).model == model
  {
    if reply.Results? {
      LastItemIsLast(reply.items, p.0.id);
      var item := LastItem(reply.items, p.0.id);
      if item.Some? {
        ApplyFollows(item.value, p.1, model);
      }
    }
  }

  /** `r` is `g` with an analysis: the one the tools decide, or else a grounded one. */
  predicate Explains(g: Finding, r: Finding, s: Sources) {
    && r.analysis.Some?
    && r == g.(analysis := r.analysis)
    && (s.deterministic(g).Some? ==> r.analysis == s.deterministic(g))
    && (s.deterministic(g).None? ==> Grounded(r.analysis.value, s.context(g)))
  }

  /** `r` explains some input finding with this id. */
  ghost predicate Answers(findings: seq<Finding>, s: Sources, id: string, r: Finding) {
    exists g :: g in findings && g.id == id && Explains(g, r, s)
  }

  ghost predicate Sound(out: map<string, Finding>, findings: seq<Finding>, s: Sources) {
    forall id :: id in out ==> Answers(findings, s, id, out[id])
  }

  /** The pending list holds undecided input findings with their contexts. */
  ghost predicate Undecided(pending: seq<Pending>, findings: seq<Finding>, s: Sources) {
    forall p :: p in pending ==> p.0 in findings && s.deterministic(p.0).None? && p.1 == s.context(p.0)
  }

  lemma {:induction false} SoundUpdate(out: map<string, Finding>, findings: seq<Finding>, s: Sources, g: Finding,
                                       r: Finding)
    requires Sound(out, findings, s)
    requires g in findings && Explains(g, r, s)
    ensures Sound(out[g.id := r], findings, s)
  {
  }

  const SKIPPED := "Not analyzed: per-scan LLM finding limit reached."

  /** A finding with the analysis it gets without the model: the tools', or that it was skipped. */
  function Settled(f: Finding, s: Sources): Finding {
    f.(analysis := if s.deterministic(f).Some? then s.deterministic(f) else Some(Unjudged(f, SKIPPED, "skipped")))
  }

  /** The findings that the first loop queues, with their contexts. */
  function Queued(findings: seq<Finding>, s: Sources, cap: int): seq<Pending> {
    if findings == [] then []
    else
      var f, before := findings[|findings| - 1], Queued(findings[..|findings| - 1], s, cap);
      before + if s.deterministic(f).None? && |before| < cap then [(f, s.context(f))] else []
  }

  /** The findings that the tools do not decide. */
  function Open(findings: seq<Finding>, s: Sources): seq<Finding> {
    Filter(findings, (f: Finding) => s.deterministic(f).None?)
  }

  /** How many of `n` open findings the model is asked about. */
  function Capped(n: nat, cap: int): nat {
    if cap < 0 then 0 else if cap < n then cap else n
  }

  /** The warnings of the first loop. */
  function SkipWarnings(findings: seq<Finding>, s: Sources, cap: int): seq<string> {
    if findings == [] then []
    else
      var f, before := findings[|findings| - 1], findings[..|findings| - 1];
      SkipWarnings(before, s, cap) +
        if s.deterministic(f).None? && |Queued(before, s, cap)| >= cap then [f.id + " skipped (LLM finding cap)"]
        else []
  }

  /** What the log says of a reply: that the budget is gone, or the start of what failed. */
  function Complaint(reply: Reply): seq<string> {
    match reply
    case BudgetExceeded => ["LLM token budget exhausted; remaining findings left as NEEDS_REVIEW"]
    case Failed(message) =>
      ["LLM analysis failed for a batch: " + if |message| > 120 then message[..120] else message]
    case Results(_) => []
  }

  function Complaints(replies: nat -> Reply, n: nat): seq<seq<string>> {
    seq(n, (b: nat) => Complaint(replies(b)))
  }

  /** The warnings name the findings above the cap, and then say which of the `n` replies failed. */
  ghost predicate WarnsOf(warnings: seq<string>, findings: seq<Finding>, s: Sources, cap: int, n: nat) {
    warnings == SkipWarnings(findings, s, cap) + Flatten(Complaints(s.replies, n))
  }

  /** Every finding waits for the model or is settled. */
  ghost predicate Triaged(out: map<string, Finding>, pending: seq<Pending>, findings: seq<Finding>, s: Sources) {
    forall f :: f in findings ==>
      (f, s.context(f)) in pending || (f.id in out && out[f.id] == Settled(f, s))
  }

  /** After some findings: what is settled answers for its id, what is queued is undecided, and nothing is lost. */
  ghost predicate TriageHolds(out: map<string, Finding>, pending: seq<Pending>, findings: seq<Finding>, n: nat,
                              s: Sources, cap: int)
    requires n <= |findings|
  {
    && Sound(out, findings, s) && Undecided(pending, findings, s) && pending == Queued(findings[..n], s, cap)
    && (forall f :: f in findings[..n] ==> f.id in out || (f, s.context(f)) in pending)
    && (Distinct(Ids(findings)) ==> Triaged(out, pending, findings[..n], s))
  }

  /** First loop: the tools decide, or the finding is queued for the model up to the cap. */
  method Triage(findings: seq<Finding>, s: Sources, maxLlm: int)
    returns (out: map<string, Finding>, pending: seq<Pending>, warnings: seq<string>)
    ensures TriageHolds(out, pending, findings, |findings|, s, maxLlm)
    ensures warnings == SkipWarnings(findings, s, maxLlm)
  {
    out, pending, warnings := map[], [], [];
    for i := 0 to |findings|
      invariant TriageHolds(out, pending, findings, i, s, maxLlm)
      invariant warnings == SkipWarnings(findings[..i], s, maxLlm)
    {
      var f := findings[i];
      var a := s.deterministic(f);
      assert findings[..i + 1][..i] == findings[..i] && findings[..i + 1][i] == f;
      if a.None? && |pending| < maxLlm {
        QueueStep(out, pending, findings, i, s, maxLlm);
        pending := pending + [(f, s.context(f))];
      } else {
        SettleStep(out, pending, findings, i, s, maxLlm);
        if a.Some? {
          out := out[f.id := f.(analysis := a)];
        } else {
          out := out[f.id := f.(analysis := Some(Unjudged(f, SKIPPED, "skipped")))];
          warnings := warnings + [f.id + " skipped (LLM finding cap)"];
        }
      }
    }
    assert findings[..|findings|] == findings;
  }

  lemma {:induction false} QueueStep(out: map<string, Finding>, pending: seq<Pending>, findings: seq<Finding>, i: nat,
                                     s: Sources, cap: int)
    requires i < |findings| && TriageHolds(out, pending, findings, i, s, cap)
    requires s.deterministic(findings[i]).None? && |pending| < cap
    ensures TriageHolds(out, pending + [(findings[i], s.context(findings[i]))], findings, i + 1, s, cap)
  {
    var f := findings[i];
    assert findings[..i + 1][..i] == findings[..i] && findings[..i + 1] == findings[..i] + [f];
    TriagedQueue(out, pending, findings, s, i);
    assert (f, s.context(f)) in pending + [(f, s.context(f))];
  }

  lemma {:induction false} SettleStep(out: map<string, Finding>, pending: seq<Pending>, findings: seq<Finding>, i: nat,
                                      s: Sources, cap: int)
    requires i < |findings| && TriageHolds(out, pending, findings, i, s, cap)
    requires !(s.deterministic(findings[i]).None? && |pending| < cap)
    ensures TriageHolds(out[findings[i].id := Settled(findings[i], s)], pending, findings, i + 1, s, cap)
  {
    var f := findings[i];
    assert findings[..i + 1][..i] == findings[..i] && findings[..i + 1] == findings[..i] + [f];
    TriagedSettle(out, pending, findings, s, i);
    SoundUpdate(out, findings, s, f, Settled(f, s));
  }

  lemma {:induction false} TriagedQueue(out: map<string, Finding>, pending: seq<Pending>, findings: seq<Finding>,
                                        s: Sources, i: nat)
    requires i < |findings|
    ensures Triaged(out, pending, findings[..i], s) ==>
              Triaged(out, pending + [(findings[i], s.context(findings[i]))], findings[..i + 1], s)
  {
    var f := findings[i];
    assert findings[..i + 1] == findings[..i] + [f];
    assert (f, s.context(f)) in pending + [(f, s.context(f))];
  }

  lemma {:induction false} TriagedSettle(out: map<string, Finding>, pending: seq<Pending>, findings: seq<Finding>,
                                         s: Sources, i: nat)
    requires i < |findings|
    ensures Distinct(Ids(findings)) && Triaged(out, pending, findings[..i], s) ==>
              Triaged(out[findings[i].id := Settled(findings[i], s)], pending, findings[..i + 1], s)
  {
    var f := findings[i];
    assert findings[..i + 1] == findings[..i] + [f];
    if Distinct(Ids(findings)) {
      forall g | g in findings[..i] ensures g.id != f.id {
        var k :| 0 <= k < i && findings[..i][k] == g;
        assert Ids(findings)[k] != Ids(findings)[i];
      }
    }
  }

  /** Queued are the first undecided findings, up to the cap. */
  lemma {:induction false} QueuedAreFirst(findings: seq<Finding>, s: Sources, cap: int)
    ensures Queued(findings, s, cap) == Shown(findings, s, cap)
  {
    var undecided, shown := (f: Finding) => s.deterministic(f).None?, (f: Finding) => (f, s.context(f));
    var open, n := Filter(findings, undecided), |findings| - 1;
    if findings == [] {
      assert open[..0] == [];
    } else {
      var before, f := Filter(findings[..n], undecided), findings[n];
      QueuedAreFirst(findings[..n], s, cap);
      FilterSnoc(findings[..n], f, undecided);
      assert findings == findings[..n] + [f];
      if undecided(f) && |before| < cap {
        assert open[..Capped(|open|, cap)] == before[..Capped(|before|, cap)] + [f];
        MapSnoc(shown, before[..Capped(|before|, cap)], f);
      } else {
        assert open[..Capped(|open|, cap)] == before[..Capped(|before|, cap)];
      }
    }
  }

  /** One warning for each finding that is left out: those the tools do not decide, after the first `cap`. */
  lemma {:induction false} TheRestIsSkipped(findings: seq<Finding>, s: Sources, cap: int)
    ensures var open := Open(findings, s);
            SkipWarnings(findings, s, cap) ==
            Map((f: Finding) => f.id + " skipped (LLM finding cap)", open[Capped(|open|, cap)..])
  {
    if findings != [] {
      var n := |findings| - 1;
      var before, f := findings[..n], findings[n];
      TheRestIsSkipped(before, s, cap);
      QueuedAreFirst(before, s, cap);
      FilterSnoc(before, f, (g: Finding) => s.deterministic(g).None?);
      assert findings == before + [f];
      if s.deterministic(f).None? {
        SkipStep(Open(before, s), f, cap);
      }
    }
  }

  lemma {:induction false} SkipStep(open: seq<Finding>, f: Finding, cap: int)
    ensures var note := (f: Finding) => f.id + " skipped (LLM finding cap)";
            Map(note, (open + [f])[Capped(|open| + 1, cap)..]) ==
            Map(note, open[Capped(|open|, cap)..]) + if |open| < cap then [] else [note(f)]
  {
    var k := Capped(|open|, cap);
    if |open| < cap {
      assert (open + [f])[k + 1..] == open[k..];
    } else {
      assert (open + [f])[k..] == open[k..] + [f];
      MapSnoc((f: Finding) => f.id + " skipped (LLM finding cap)", open[k..], f);
    }
  }

  lemma {:induction false} JudgementIsSound(out: map<string, Finding>, p: Pending, reply: Reply,
                                            findings: seq<Finding>, s: Sources)
    requires Sound(out, findings, s) && Undecided([p], findings, s)
    ensures Sound(out[p.0.id := p.0.(analysis := Some(Judge(p, reply, s.model)))], findings, s)
  {
    assert p in [p];
    SoundUpdate(out, findings, s, p.0, p.0.(analysis := Some(Judge(p, reply, s.model))));
  }

  /** A queued finding with the analysis that the model's reply gives it. */
  function Judged(p: Pending, reply: Reply, s: Sources): Finding {
    p.0.(analysis := Some(Judge(p, reply, s.model)))
  }

  ghost predicate DistinctPending(ps: seq<Pending>) {
    forall i, j :: 0 <= i < j < |ps| ==> ps[i].0.id != ps[j].0.id
  }

  ghost predicate AllJudged(out: map<string, Finding>, ps: seq<Pending>, reply: Reply, s: Sources) {
    forall p :: p in ps ==> p.0.id in out && out[p.0.id] == Judged(p, reply, s)
  }

  /** After some findings of a batch: they are judged, all others are as before. */
  ghost predicate BatchHolds(out: map<string, Finding>, out0: map<string, Finding>, batch: seq<Pending>, n: nat,
                             reply: Reply, findings: seq<Finding>, s: Sources)
    requires n <= |batch|
  {
    && Sound(out, findings, s) && out0.Keys <= out.Keys && (forall p :: p in batch[..n] ==> p.0.id in out)
    && (DistinctPending(batch) ==> AllJudged(out, batch[..n], reply, s))
    && (forall id :: id in out0 && (forall p :: p in batch ==> p.0.id != id) ==> out[id] == out0[id])
  }

  /** Second loop: one model call per batch; a failed call leaves its batch for review. */
  method JudgeBatch(batch: seq<Pending>, reply: Reply, out0: map<string, Finding>,
                    ghost findings: seq<Finding>, s: Sources)
    returns (out: map<string, Finding>)
    requires Sound(out0, findings, s) && Undecided(batch, findings, s)
    ensures BatchHolds(out, out0, batch, |batch|, reply, findings, s)
  {
    out := out0;
    for i := 0 to |batch|
      invariant BatchHolds(out, out0, batch, i, reply, findings, s)
    {
      var p := batch[i];
      BatchStep(out, out0, batch, i, reply, findings, s);
      out := out[p.0.id := p.0.(analysis := Some(Judge(p, reply, s.model)))];
    }
  }

  lemma {:induction false} BatchStep(out: map<string, Finding>, out0: map<string, Finding>, batch: seq<Pending>, i: nat,
                                     reply: Reply, findings: seq<Finding>, s: Sources)
    requires i < |batch| && BatchHolds(out, out0, batch, i, reply, findings, s) && Undecided(batch, findings, s)
    ensures BatchHolds(out[batch[i].0.id := Judged(batch[i], reply, s)], out0, batch, i + 1, reply, findings, s)
  {
    JudgementIsSound(out, batch[i], reply, findings, s);
    JudgedSnoc(out, batch, i, reply, s);
    assert batch[..i + 1] == batch[..i] + [batch[i]];
  }

  lemma {:induction false} JudgedSnoc(out: map<string, Finding>, batch: seq<Pending>, i: nat, reply: Reply, s: Sources)
    requires i < |batch|
    ensures DistinctPending(batch) && AllJudged(out, batch[..i], reply, s) ==>
              AllJudged(out[batch[i].0.id := Judged(batch[i], reply, s)], batch[..i + 1], reply, s)
  {
    assert batch[..i + 1] == batch[..i] + [batch[i]];
  }

  ghost predicate BatchesJudged(out: map<string, Finding>, batches: seq<seq<Pending>>, n: nat, s: Sources)
    requires n <= |batches|
  {
    forall b :: 0 <= b < n ==> AllJudged(out, batches[b], s.replies(b), s)
  }

  /** After some batches: their findings are judged, all others are as before. */
  ghost predicate BatchesHold(out: map<string, Finding>, out0: map<string, Finding>, batches: seq<seq<Pending>>, n: nat,
                              findings: seq<Finding>, s: Sources)
    requires n <= |batches|
  {
    && Sound(out, findings, s) && out0.Keys <= out.Keys
    && (forall p :: p in Flatten(batches[..n]) ==> p.0.id in out)
    && (DistinctPending(Flatten(batches)) ==> BatchesJudged(out, batches, n, s))
    && (forall id :: id in out0 && (forall p :: p in Flatten(batches) ==> p.0.id != id) ==> out[id] == out0[id])
  }

  method JudgeAll(batches: seq<seq<Pending>>, out0: map<string, Finding>, ghost findings: seq<Finding>, s: Sources)
    returns (out: map<string, Finding>, warnings: seq<string>)
    requires Sound(out0, findings, s) && Undecided(Flatten(batches), findings, s)
    ensures BatchesHold(out, out0, batches, |batches|, findings, s)
    ensures warnings == Flatten(Complaints(s.replies, |batches|))
  {
    out, warnings := out0, [];
    for b := 0 to |batches|
      invariant BatchesHold(out, out0, batches, b, findings, s)
      invariant warnings == Flatten(Complaints(s.replies, b))
    {
      ComplaintStep(s.replies, b);
      FlattenMember(batches, b);
      var reply := s.replies(b);
      if reply.BudgetExceeded? {
        warnings := warnings + ["LLM token budget exhausted; remaining findings left as NEEDS_REVIEW"];
      } else if reply.Failed? {
        warnings := warnings + ["LLM analysis failed for a batch: " + Cut(reply.message, 120)];
      }
      ghost var before := out;
      out := JudgeBatch(batches[b], reply, out, findings, s);
      BatchesStep(before, out, out0, batches, b, findings, s);
    }
  }

  lemma {:induction false} ComplaintStep(replies: nat -> Reply, b: nat)
    ensures Flatten(Complaints(replies, b + 1)) == Flatten(Complaints(replies, b)) + Complaint(replies(b))
  {
    FlattenSnoc(Complaints(replies, b), Complaint(replies(b)));
    assert Complaints(replies, b + 1) == Complaints(replies, b) + [Complaint(replies(b))];
  }

  lemma {:induction false} BatchesStep(before: map<string, Finding>, out: map<string, Finding>,
                                       out0: map<string, Finding>, batches: seq<seq<Pending>>, b: nat,
                                       findings: seq<Finding>, s: Sources)
    requires b < |batches| && BatchesHold(before, out0, batches, b, findings, s)
    requires BatchHolds(out, before, batches[b], |batches[b]|, s.replies(b), findings, s)
    ensures BatchesHold(out, out0, batches, b + 1, findings, s)
  {
    assert batches[b][..|batches[b]|] == batches[b];
    assert batches[..b + 1] == batches[..b] + [batches[b]];
    FlattenSnoc(batches[..b], batches[b]);
    FlattenMember(batches, b);
    BatchesSnoc(before, out, batches, b, s);
  }

  lemma {:induction false} BatchesSnoc(before: map<string, Finding>, out: map<string, Finding>,
                                       batches: seq<seq<Pending>>, b: nat, s: Sources)
    requires b < |batches| && before.Keys <= out.Keys
    requires DistinctPending(batches[b]) ==> AllJudged(out, batches[b], s.replies(b), s)
    requires forall id :: id in before && (forall p :: p in batches[b] ==> p.0.id != id) ==> out[id] == before[id]
    ensures DistinctPending(Flatten(batches)) && BatchesJudged(before, batches, b, s) ==>
              BatchesJudged(out, batches, b + 1, s)
  {
    if DistinctPending(Flatten(batches)) && BatchesJudged(before, batches, b, s) {
      BatchIsDistinct(batches, b);
      forall c | 0 <= c < b ensures AllJudged(out, batches[c], s.replies(c), s) {
        forall p | p in batches[c] ensures p.0.id in out && out[p.0.id] == Judged(p, s.replies(c), s) {
          forall q | q in batches[b] ensures q.0.id != p.0.id {
            OtherBatch(batches, c, b, p, q);
          }
        }
      }
    }
  }

  lemma {:induction false} BatchIsDistinct(batches: seq<seq<Pending>>, b: nat)
    requires b < |batches| && DistinctPending(Flatten(batches))
    ensures DistinctPending(batches[b])
  {
    var all, n := Flatten(batches), |batches[0]|;
    assert all == batches[0] + Flatten(batches[1..]);
    if b == 0 {
      assert forall i :: 0 <= i < n ==> batches[0][i] == all[i];
    } else {
      RestIsDistinct(batches[0], Flatten(batches[1..]));
      BatchIsDistinct(batches[1..], b - 1);
    }
  }

  lemma {:induction false} RestIsDistinct(first: seq<Pending>, rest: seq<Pending>)
    requires DistinctPending(first + rest)
    ensures DistinctPending(rest)
    ensures forall p, q :: p in first && q in rest ==> p.0.id != q.0.id
  {
    var all := first + rest;
    forall i, j | 0 <= i < j < |rest| ensures rest[i].0.id != rest[j].0.id {
      assert all[|first| + i] == rest[i] && all[|first| + j] == rest[j];
    }
    forall p, q | p in first && q in rest ensures p.0.id != q.0.id {
      var i :| 0 <= i < |first| && first[i] == p;
      var j :| 0 <= j < |rest| && rest[j] == q;
      assert all[i] == p && all[|first| + j] == q;
    }
  }

  lemma {:induction false} OtherBatch(batches: seq<seq<Pending>>, c: nat, b: nat, p: Pending, q: Pending)
    requires c < b < |batches| && DistinctPending(Flatten(batches)) && p in batches[c] && q in batches[b]
    ensures p.0.id != q.0.id
  {
    RestIsDistinct(batches[0], Flatten(batches[1..]));
    if c == 0 {
      FlattenMember(batches[1..], b - 1);
    } else {
      OtherBatch(batches[1..], c - 1, b - 1, p, q);
    }
  }

  /** With distinct ids every finding gets what its source says: the reply to the batch in which it was sent, or the
      tools, or that it was skipped. `sent` are the batches shown to the model. */
  ghost predicate EachJudged(findings: seq<Finding>, result: seq<Finding>, sent: seq<seq<Pending>>, s: Sources)
    requires |result| == |findings|
  {
    && (forall b, i :: 0 <= b < |sent| && 0 <= i < |findings| && (findings[i], s.context(findings[i])) in sent[b] ==>
          && result[i].analysis.Some? && result[i].analysis.value.model == s.model
          && JudgedBy(result[i].analysis.value, findings[i], s.context(findings[i]), s.replies(b)))
    && (forall i :: 0 <= i < |findings| && (findings[i], s.context(findings[i])) !in Flatten(sent) ==>
          && result[i].analysis.Some?
          && if s.deterministic(findings[i]).Some? then result[i].analysis == s.deterministic(findings[i])
             else result[i].analysis.value.model == "skipped" &&
                  LeftOpen(result[i].analysis.value, findings[i], "Not analyzed: per-scan LLM finding limit reached."))
  }

  /** The findings that are shown to the model: the first ones the tools do not decide, up to the cap. */
  function Shown(findings: seq<Finding>, s: Sources, cap: int): seq<Pending> {
    var open := Open(findings, s); Map((f: Finding) => (f, s.context(f)), open[..Capped(|open|, cap)])
  }

  /** Every result answers for the id of its finding, and equal ids get equal results. */
  ghost predicate InPlace(findings: seq<Finding>, result: seq<Finding>, s: Sources) {
    && |result| == |findings|
    && (forall i :: 0 <= i < |result| ==> Answers(findings, s, findings[i].id, result[i]))
    && (forall i, j :: 0 <= i < |result| && 0 <= j < |result| && findings[i].id == findings[j].id ==>
          result[i] == result[j])
  }

  /** The findings keep their order, and no lookup in the result dictionary can miss; equal ids get equal
      results, and with distinct ids each finding gets what its source says. */
  method AnalyzeFindings(findings: seq<Finding>, s: Sources, maxLlm: int)
    returns (result: seq<Finding>, warnings: seq<string>, sent: seq<seq<Pending>>)
    ensures InPlace(findings, result, s)
    ensures GreedySplit(sent, Shown(findings, s, maxLlm), ItemWeight, Limit(9000, Some(5)))
    ensures Distinct(Ids(findings)) ==> EachJudged(findings, result, sent, s)
    ensures WarnsOf(warnings, findings, s, maxLlm, |sent|)
  {
    var out, pending, skipped := Triage(findings, s, maxLlm);
    ghost var triaged := out;
    sent := Batches(pending, 9000, 5);
    var failures;
    out, failures := JudgeAll(sent, out, findings, s);
    warnings := skipped + failures;
    NoneIsLost(findings, sent, s, maxLlm, triaged, out);
    result := InOrder(findings, out);
    AllIsSaid(findings, result, pending, sent, s, maxLlm, triaged, out);
  }

  lemma {:induction false} AllInPlace(findings: seq<Finding>, result: seq<Finding>, s: Sources,
                                      out: map<string, Finding>)
    requires |result| == |findings| && forall id :: id in out ==> Answers(findings, s, id, out[id])
    requires forall i :: 0 <= i < |findings| ==> findings[i].id in out && result[i] == out[findings[i].id]
    ensures InPlace(findings, result, s)
  {
  }

  lemma {:induction false} SentAreShown(findings: seq<Finding>, sent: seq<Pending>, s: Sources, cap: int,
                                        triaged: map<string, Finding>)
    requires TriageHolds(triaged, sent, findings, |findings|, s, cap)
    ensures sent == Shown(findings, s, cap) && sent == Queued(findings, s, cap)
    ensures Undecided(sent, findings, s) && (Distinct(Ids(findings)) ==> Triaged(triaged, sent, findings, s))
  {
    assert findings[..|findings|] == findings;
    QueuedAreFirst(findings, s, cap);
  }

  lemma {:induction false} EachIsJudged(findings: seq<Finding>, result: seq<Finding>, sent: seq<seq<Pending>>,
                                        s: Sources, cap: int, triaged: map<string, Finding>, out: map<string, Finding>)
    requires Distinct(Ids(findings)) && |result| == |findings|
    requires TriageHolds(triaged, Flatten(sent), findings, |findings|, s, cap)
    requires BatchesHold(out, triaged, sent, |sent|, findings, s)
    requires forall i :: 0 <= i < |findings| ==> findings[i].id in out && result[i] == out[findings[i].id]
    ensures EachJudged(findings, result, sent, s)
  {
    SentAreShown(findings, Flatten(sent), s, cap, triaged);
    PendingIsDistinct(findings, s, cap);
    AllAreJudged(findings, result, sent, s, triaged, out);
  }

  lemma {:induction false} AllIsSaid(findings: seq<Finding>, result: seq<Finding>, pending: seq<Pending>,
                                     sent: seq<seq<Pending>>, s: Sources, cap: int, triaged: map<string, Finding>,
                                     out: map<string, Finding>)
    requires TriageHolds(triaged, pending, findings, |findings|, s, cap)
    requires GreedySplit(sent, pending, ItemWeight, Limit(9000, Some(5)))
    requires BatchesHold(out, triaged, sent, |sent|, findings, s) && |result| == |findings|
    requires forall i :: 0 <= i < |findings| ==> findings[i].id in out && result[i] == out[findings[i].id]
    ensures InPlace(findings, result, s)
    ensures GreedySplit(sent, Shown(findings, s, cap), ItemWeight, Limit(9000, Some(5)))
    ensures Distinct(Ids(findings)) ==> EachJudged(findings, result, sent, s)
  {
    NoneIsLost(findings, sent, s, cap, triaged, out);
    AllInPlace(findings, result, s, out);
    SentAreShown(findings, Flatten(sent), s, cap, triaged);
    if Distinct(Ids(findings)) {
      EachIsJudged(findings, result, sent, s, cap, triaged, out);
    }
  }

  lemma {:induction false} NoneIsLost(findings: seq<Finding>, sent: seq<seq<Pending>>, s: Sources, cap: int,
                                      triaged: map<string, Finding>, out: map<string, Finding>)
    requires TriageHolds(triaged, Flatten(sent), findings, |findings|, s, cap)
    requires BatchesHold(out, triaged, sent, |sent|, findings, s)
    ensures forall f :: f in findings ==> f.id in out
    ensures forall id :: id in out ==> Answers(findings, s, id, out[id])
  {
    assert findings[..|findings|] == findings && sent[..|sent|] == sent;
    forall f | f in findings ensures f.id in out {
      assert f.id in triaged || (f, s.context(f)) in Flatten(sent);
    }
  }

  lemma {:induction false} PendingIsDistinct(findings: seq<Finding>, s: Sources, cap: int)
    requires Distinct(Ids(findings))
    ensures DistinctPending(Queued(findings, s, cap))
    ensures forall p :: p in Queued(findings, s, cap) ==> p.0 in findings
  {
    if findings != [] {
      var n := |findings| - 1;
      assert Ids(findings)[..n] == Ids(findings[..n]);
      PendingIsDistinct(findings[..n], s, cap);
      forall p | p in Queued(findings[..n], s, cap) ensures p.0.id != findings[n].id {
        var k :| 0 <= k < n && findings[..n][k] == p.0;
        assert Ids(findings)[k] != Ids(findings)[n];
      }
    }
  }

  lemma {:induction false} SameFinding(findings: seq<Finding>, i: nat, f: Finding)
    requires Distinct(Ids(findings)) && i < |findings| && f in findings && f.id == findings[i].id
    ensures f == findings[i]
  {
    var k :| 0 <= k < |findings| && findings[k] == f;
    assert Ids(findings)[k] == Ids(findings)[i];
  }

  lemma {:induction false} AllAreJudged(findings: seq<Finding>, result: seq<Finding>, sent: seq<seq<Pending>>,
                                        s: Sources, triaged: map<string, Finding>, out: map<string, Finding>)
    requires Distinct(Ids(findings)) && |result| == |findings|
    requires forall i :: 0 <= i < |findings| ==> findings[i].id in out && result[i] == out[findings[i].id]
    requires Undecided(Flatten(sent), findings, s) && Triaged(triaged, Flatten(sent), findings, s)
    requires BatchesJudged(out, sent, |sent|, s) && triaged.Keys <= out.Keys
    requires forall id :: id in triaged && (forall p :: p in Flatten(sent) ==> p.0.id != id) ==> out[id] == triaged[id]
    ensures EachJudged(findings, result, sent, s)
  {
    forall b, i | 0 <= b < |sent| && 0 <= i < |findings| && (findings[i], s.context(findings[i])) in sent[b]
      ensures result[i].analysis.Some? && result[i].analysis.value.model == s.model
      ensures JudgedBy(result[i].analysis.value, findings[i], s.context(findings[i]), s.replies(b))
    {
      var p := (findings[i], s.context(findings[i]));
      assert AllJudged(out, sent[b], s.replies(b), s);
      JudgeIsJudged(p, s.replies(b), s.model);
      assert result[i] == Judged(p, s.replies(b), s);
    }
    forall i | 0 <= i < |findings| && (findings[i], s.context(findings[i])) !in Flatten(sent)
      ensures result[i] == Settled(findings[i], s)
    {
      assert findings[i] in findings;
      forall p | p in Flatten(sent) ensures p.0.id != findings[i].id {
        if p.0.id == findings[i].id {
          SameFinding(findings, i, p.0);
        }
      }
    }
  }

  /** `[out[f.id] for f in findings]`. */
  method InOrder(findings: seq<Finding>, out: map<string, Finding>) returns (result: seq<Finding>)
    requires forall f :: f in findings ==> f.id in out
    ensures |result| == |findings| && forall i :: 0 <= i < |result| ==> result[i] == out[findings[i].id]
  {
    result := [];
    for i := 0 to |findings|
      invariant |result| == i
      invariant forall k :: 0 <= k < i ==> result[k] == out[findings[k].id]
    {
      result := result + [out[findings[i].id]];
    }
  }

  lemma {:induction false} FlattenMember(batches: seq<seq<Pending>>, b: nat)
    requires b < |batches|
    ensures forall p :: p in batches[b] ==> p in Flatten(batches)
  {
    assert batches == batches[..b] + ([batches[b]] + batches[b + 1..]);
    FlattenConcat(batches[..b], [batches[b]] + batches[b + 1..]);
  }

  // ----- What comes back -----

  function Bare(f: Finding): Finding {
    f.(analysis := None)
  }

  /** Findings that share an id are the same finding up to their analysis. */
  predicate IdsIdentify(findings: seq<Finding>) {
    forall i, j :: 0 <= i < |findings| && 0 <= j < |findings| && findings[i].id == findings[j].id ==>
      Bare(findings[i]) == Bare(findings[j])
  }

  /** Only the analysis changes, exactly when an id identifies its finding: otherwise the dictionary keyed by
      id returns one finding in place of another. */
  lemma {:induction false} OnlyAnalysisChanges(findings: seq<Finding>, result: seq<Finding>, s: Sources)
    requires |result| == |findings|
    requires forall i :: 0 <= i < |result| ==> Answers(findings, s, findings[i].id, result[i])
    requires forall i, j :: 0 <= i < |result| && 0 <= j < |result| && findings[i].id == findings[j].id ==>
               result[i] == result[j]
    ensures IdsIdentify(findings) <==> (forall i :: 0 <= i < |result| ==> Bare(result[i]) == Bare(findings[i]))
  {
    if IdsIdentify(findings) {
      forall i | 0 <= i < |result| ensures Bare(result[i]) == Bare(findings[i]) {
        assert Answers(findings, s, findings[i].id, result[i]);
        var g :| g in findings && g.id == findings[i].id && Explains(g, result[i], s);
        var k :| 0 <= k < |findings| && findings[k] == g;
        assert Bare(findings[k]) == Bare(findings[i]);
      }
    }
  }

  /** With distinct ids every finding gets its own analysis: the tools' if they decide, else a grounded one. */
  lemma {:induction false} DistinctIdsExplain(findings: seq<Finding>, result: seq<Finding>, s: Sources, i: nat)
    requires Distinct(Ids(findings))
    requires i < |result| == |findings|
    requires Answers(findings, s, findings[i].id, result[i])
    ensures Explains(findings[i], result[i], s)
  {
    var g :| g in findings && g.id == findings[i].id && Explains(g, result[i], s);
    var k :| 0 <= k < |findings| && findings[k] == g;
    assert Ids(findings)[k] == Ids(findings)[i];
  }
}
