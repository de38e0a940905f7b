/** The discovery pass (backend/services/discovery.py): which claims of the model become findings. */
module Discovery {
  import opened Prelude
  import opened Text
  import opened Cwe
  import opened Findings
  import opened Batching

  const AUTH_FAMILY := Some(Numbered(639))

  /** A file as shown to the model: its path and its numbered, redacted lines. */
  datatype Source = Source(rel: string, lines: seq<string>)

  datatype Claim = Claim(file: string, line: int, cwe: Option<string>, severity: string, title: string,
                         exploitability: string, reasoning: string, confidence: real, citedLines: seq<int>)

  datatype Reply = Claims(claims: seq<Claim>) | BudgetExceeded | Failed(message: string)

  /** The bounds the reply schema enforces before the code sees a reply. */
  predicate SchemaValid(r: Reply) {
    r.Claims? ==> forall c :: c in r.claims ==> 1 <= c.line && 0.0 <= c.confidence <= 1.0
  }

  /** Code retrieval, hashing and redaction, as given functions. */
  datatype Env = Env(snippet: (string, int) -> string, symbol: (string, int) -> Option<string>,
                     redact: string -> string, shortId: (Option<Cwe>, string, int) -> string,
                     fingerprint: (Option<Cwe>, string, Option<string>, string) -> string,
                     cweText: Cwe -> string, model: string)

  function SourceWeight(s: Source): nat {
    SumLengths(s.lines)
  }

  /** A file weighs as much as all its lines. */
  lemma {:induction false} WeighsItsLines(s: Source)
    ensures SourceWeight(s) == |Flatten(s.lines)|
  {
    LengthOfJoined(s.lines);
  }

  method Batches(files: seq<Source>, charBudget: int) returns (out: seq<seq<Source>>)
    ensures GreedySplit(out, files, SourceWeight, Limit(charBudget, None))
  {
    var lim := Limit(charBudget, None);
    var cur: seq<Source> := [];
    var size := 0;
    out := [];
    for i := 0 to |files|
      invariant cur == [] ==> out == []
      invariant size == Weight(cur, SourceWeight)
      invariant GreedySplit(Close(out, cur), files[..i], SourceWeight, lim)
    {
      var file := files[i];
      var n := SourceWeight(file);
      assert files[..i + 1] == files[..i] + [file];
      WeightSnoc(cur, file, SourceWeight);
      if cur != [] && size + n > charBudget {
        CloseStaysGreedy(out, cur, files[..i], file, SourceWeight, lim);
        out := out + [cur];
        WeightSnoc([], file, SourceWeight);
        cur, size := [], 0;
      } else {
        GrowStaysGreedy(out, cur, files[..i], file, SourceWeight, lim);
      }
      cur := cur + [file];
      size := size + n;
    }
    assert files[..|files|] == files;
    if cur != [] {
      out := out + [cur];
    }
  }

  function ReadNumber(s: string, acc: nat): nat {
    if s != "" && IsDigit(s[0]) then ReadNumber(s[1..], 10 * acc + (s[0] - '0') as nat) else acc
  }

  /** The first number in the text, as a CWE. */
  function NormCwe(text: string): Option<Cwe> {
    if text == "" then None
    else if IsDigit(text[0]) then Some(Numbered(ReadNumber(text, 0)))
    else NormCwe(text[1..])
  }

  function ClaimCwe(c: Claim): Option<Cwe> {
    NormCwe(if c.cwe.Some? then c.cwe.value else "")
  }

  function CleanFile(c: Claim): string {
    LStrip(c.file, {'.', '/'})
  }

  /** A finding already covers a weakness of family `fam` at this place; an unknown family is covered by any. */
  predicate Covers(f: Finding, file: string, line: int, fam: Option<Cwe>) {
    f.file == file && Abs(f.line - line) <= 3 && (Family(f.cwe) == fam || fam.None?)
  }

  predicate Duplicate(c: Claim, existing: seq<Finding>) {
    exists f :: f in existing && Covers(f, CleanFile(c), c.line, Family(ClaimCwe(c)))
  }

  function Lens(batch: seq<Source>): map<string, nat> {
    if batch == [] then map[]
    else Lens(batch[..|batch| - 1])[batch[|batch| - 1].rel := |batch[|batch| - 1].lines|]
  }

  function CitedIn(lines: seq<int>, length: nat): (r: seq<int>)
    ensures forall n :: n in r <==> n in lines && 1 <= n <= length
  {
    if lines == [] then []
    else (if 1 <= lines[0] <= length then [lines[0]] else []) + CitedIn(lines[1..], length)
  }

  /** The claim points at real lines of a file in this batch, and the model is at least half sure. */
  predicate Verifiable(c: Claim, lens: map<string, nat>) {
    && CleanFile(c) in lens
    && c.line <= lens[CleanFile(c)]
    && CitedIn(c.citedLines, lens[CleanFile(c)]) != []
    && c.confidence >= 0.5
  }

  /** A missing-authorization claim needs code that has a notion of authorization. */
  predicate Meaningful(c: Claim, authConcept: bool) {
    Family(ClaimCwe(c)) == AUTH_FAMILY ==> authConcept
  }

  function ClaimSeverity(c: Claim): Severity {
    var s := Lower(c.severity);
    if s == "critical" then Critical else if s == "high" then High else if s == "medium" then Medium else Low
  }

  function ToFinding(c: Claim, length: nat, env: Env): Finding {
    var file, cwe := CleanFile(c), ClaimCwe(c);
    var sev := ClaimSeverity(c);
    var snippet := env.snippet(file, c.line);
    var symbol := env.symbol(file, c.line);
    Finding(env.shortId(cwe, file, c.line), "llm-review",
            "llm-review." + (if cwe.Some? then env.cweText(cwe.value) else "logic"), file, c.line, None, sev, cwe, None,
            Cut(c.title, 200), Cut(env.redact(snippet), 600), Unvalidated, symbol,
            env.fingerprint(cwe, file, symbol, snippet), UnknownScope, None, None, [], [], None,
            Some(Analysis(if c.confidence >= 0.75 then TruePositive else NeedsReview, c.confidence,
                          match sev { case Critical => 0 case High => 1 case Medium => 2 case _ => 3 },
                          Cut(c.exploitability, 400), Cut(c.reasoning, 600), CitedIn(c.citedLines, length), env.model)))
  }

  // ----- What an accepted finding is -----

  /** The first number in the text is `n`. */
  ghost predicate FirstNumber(text: string, n: int) {
    exists before, digits, after :: text == before + (digits + after) && (forall c :: c in before ==> !IsDigit(c)) &&
      digits != "" && AllDigits(digits) && (after != "" ==> !IsDigit(after[0])) && Value(digits) == n
  }

  /** The label of a claim: the first number in it, and none without a number. */
  ghost predicate LabelIs(text: Option<string>, cwe: Option<Cwe>) {
    match cwe
    case Some(Numbered(n)) => text.Some? && FirstNumber(text.value, n)
    case Some(Named(_)) => false
    case None => text.Some? ==> forall c :: c in text.value ==> !IsDigit(c)
  }

  /** The file as it was shown last in the batch has this many lines. */
  ghost predicate ShownWith(batch: seq<Source>, file: string, length: nat) {
    exists i :: 0 <= i < |batch| && batch[i].rel == file && |batch[i].lines| == length &&
      forall j :: i < j < |batch| ==> batch[j].rel != file
  }

  ghost predicate IsClaimedFile(c: Claim, file: string) {
    FrontDropped(c.file, {'.', '/'}, file)
  }

  /** The claim can be checked: its file was shown, its line and one of the lines it cites are lines of the file, and
      the model is at least half sure. If it is about missing authorization, the code has a notion of it. */
  ghost predicate Tenable(c: Claim, batch: seq<Source>, authConcept: bool, file: string, length: nat,
                          cwe: Option<Cwe>)
  {
    && IsClaimedFile(c, file) && ShownWith(batch, file, length) && c.line <= length
    && (exists n :: n in c.citedLines && 1 <= n <= length) && c.confidence >= 0.5
    && LabelIs(c.cwe, cwe) && (Family(cwe) == Some(Numbered(639)) ==> authConcept)
  }

  /** Something was found at most three lines from here, of the same family if this one is known. */
  predicate Near(f: Finding, file: string, line: int, cwe: Option<Cwe>) {
    f.file == file && f.line <= line + 3 && line <= f.line + 3 && (Family(cwe) != None ==> Family(f.cwe) == Family(cwe))
  }

  ghost predicate GradedBy(c: Claim, severity: Severity) {
    && severity in {Critical, High, Medium, Low} && (severity == Critical <==> SaysWord(c.severity, "critical"))
    && (severity == High <==> SaysWord(c.severity, "high")) && (severity == Medium <==> SaysWord(c.severity, "medium"))
  }

  /** What the analysis of a finding keeps of the claim: it is definite from three quarters on. */
  ghost predicate Assessed(a: Analysis, c: Claim, length: nat, severity: Severity, model: string) {
    && a.verdict == (if c.confidence < 0.75 then NeedsReview else TruePositive) && a.confidence == c.confidence
    && 0 <= a.priority <= 3 && (a.priority == 0 <==> severity == Critical) && (a.priority == 1 <==> severity == High)
    && (a.priority == 2 <==> severity == Medium)
    && StartOf(c.exploitability, 400, a.exploitability) && StartOf(c.reasoning, 600, a.reasoning)
    && (forall n :: n in a.citedLines <==> n in c.citedLines && 1 <= n <= length) && a.model == model
  }

  /** The finding says what the claim says. */
  ghost predicate Transcribed(f: Finding, c: Claim, length: nat, env: Env) {
    && f.line == c.line && GradedBy(c, f.severity) && StartOf(c.title, 200, f.title)
    && f.scanner == "llm-review" && f.id == env.shortId(f.cwe, f.file, c.line)
    && f.ruleId == "llm-review." + (match f.cwe case Some(cwe) => env.cweText(cwe) case None => "logic")
    && StartOf(env.redact(env.snippet(f.file, c.line)), 600, f.evidence) && f.symbol == env.symbol(f.file, c.line)
    && f.fingerprint == env.fingerprint(f.cwe, f.file, f.symbol, env.snippet(f.file, c.line))
    && f.package.None? && f.endLine.None? && f.analysis.Some?
    && Assessed(f.analysis.value, c, length, f.severity, env.model)
  }

  /** No accepted finding repeats a scanner finding or an earlier accepted one. */
  ghost predicate NoRepeats(found: seq<Finding>, existing: seq<Finding>) {
    && (forall f, e :: f in found && e in existing ==> !Near(e, f.file, f.line, f.cwe))
    && (forall i, j :: 0 <= i < j < |found| ==> !Near(found[i], found[j].file, found[j].line, found[j].cwe))
  }

  /** Every tenable claim is represented: it was accepted itself, or something already covers it. */
  ghost predicate Represented(claims: seq<Claim>, batch: seq<Source>, known: seq<Finding>, authConcept: bool) {
    forall c, file, length: nat, cwe :: c in claims && Tenable(c, batch, authConcept, file, length, cwe) ==>
      exists f :: f in known && Near(f, file, c.line, cwe)
  }

  /** A finding that a tenable claim of the reply became. */
  ghost predicate FromClaim(f: Finding, claims: seq<Claim>, batch: seq<Source>, authConcept: bool, env: Env) {
    exists c, length: nat :: c in claims && Tenable(c, batch, authConcept, f.file, length, f.cwe) &&
      Transcribed(f, c, length, env)
  }

  ghost predicate Accounted(f: Finding, reply: Reply, batch: seq<Source>, authConcept: bool, env: Env) {
    reply.Claims? && FromClaim(f, reply.claims, batch, authConcept, env)
  }

  // ----- The code computes it -----

  lemma {:induction false} LensHold(batch: seq<Source>, file: string)
    ensures file in Lens(batch) ==> ShownWith(batch, file, Lens(batch)[file])
    ensures forall length: nat :: ShownWith(batch, file, length) ==> file in Lens(batch) && Lens(batch)[file] == length
  {
    if batch != [] {
      var n := |batch| - 1;
      LensHold(batch[..n], file);
      if batch[n].rel != file {
        forall length: nat ensures ShownWith(batch, file, length) <==> ShownWith(batch[..n], file, length) {
          ShownBefore(batch, file, length);
        }
      } else {
        assert ShownWith(batch, file, |batch[n].lines|);
      }
    }
  }

  lemma {:induction false} ShownBefore(batch: seq<Source>, file: string, length: nat)
    requires batch != [] && batch[|batch| - 1].rel != file
    ensures ShownWith(batch, file, length) <==> ShownWith(batch[..|batch| - 1], file, length)
  {
    var before := batch[..|batch| - 1];
    if ShownWith(batch, file, length) {
      var i :| 0 <= i < |batch| && batch[i].rel == file && |batch[i].lines| == length &&
               forall j :: i < j < |batch| ==> batch[j].rel != file;
      assert before[i].rel == file;
    }
    if ShownWith(before, file, length) {
      var i :| 0 <= i < |before| && before[i].rel == file && |before[i].lines| == length &&
               forall j :: i < j < |before| ==> before[j].rel != file;
      assert batch[i].rel == file;
    }
  }

  /** Reading on after a digit multiplies by ten. */
  lemma {:induction false} ReadDigit(digits: string, d: char, after: string, acc: nat)
    requires AllDigits(digits) && IsDigit(d) && (after != "" ==> !IsDigit(after[0]))
    ensures ReadNumber(digits + [d] + after, acc) == 10 * ReadNumber(digits + after, acc) + (d - '0') as nat
  {
    if digits == "" {
      assert digits + [d] + after == [d] + after && digits + after == after && ([d] + after)[1..] == after;
    } else {
      AllDigitsTail(digits);
      var next := 10 * acc + (digits[0] - '0') as nat;
      assert (digits + [d] + after)[1..] == digits[1..] + [d] + after && (digits + after)[1..] == digits[1..] + after;
      ReadDigit(digits[1..], d, after, next);
    }
  }

  lemma {:induction false} ReadsValue(digits: string, after: string)
    requires AllDigits(digits) && (after != "" ==> !IsDigit(after[0]))
    ensures ReadNumber(digits + after, 0) == Value(digits)
  {
    if digits == "" {
      assert digits + after == after;
    } else {
      var n := |digits| - 1;
      ReadsValue(digits[..n], after);
      ReadDigit(digits[..n], digits[n], after, 0);
      assert digits[..n] + [digits[n]] + after == digits + after;
    }
  }

  /** The label is read as the first number in it. */
  lemma {:induction false} LabelIsRead(text: string, before: string, digits: string, after: string)
    requires text == before + (digits + after) && (forall c :: c in before ==> !IsDigit(c))
    requires digits != "" && AllDigits(digits) && (after != "" ==> !IsDigit(after[0]))
    ensures Value(digits) >= 0 && NormCwe(text) == Some(Numbered(Value(digits)))
  {
    if before == "" {
      assert text == digits + after;
      AllDigitsTail(digits);
      ReadsValue(digits, after);
    } else {
      assert before[0] in before;
      assert text[1..] == before[1..] + (digits + after);
      LabelIsRead(text[1..], before[1..], digits, after);
    }
  }

  lemma {:induction false} NoNumberIsRead(text: string)
    requires forall c :: c in text ==> !IsDigit(c)
    ensures NormCwe(text) == None
  {
    if text != "" {
      assert text[0] in text;
      NoNumberIsRead(text[1..]);
    }
  }

  /** Every text has a first number or none. */
  lemma {:induction false} SplitNumber(text: string) returns (before: string, digits: string, after: string)
    ensures text == before + (digits + after) && forall c :: c in before ==> !IsDigit(c)
    ensures AllDigits(digits) && (after != "" ==> !IsDigit(after[0])) && (digits == "" ==> after == "")
  {
    if text == "" {
      before, digits, after := "", "", "";
    } else {
      before, digits, after := SplitNumber(text[1..]);
      if !IsDigit(text[0]) {
        before := [text[0]] + before;
      } else if before == "" {
        FrontDigit(text[0], digits);
        digits := [text[0]] + digits;
      } else {
        assert !IsDigit(before[0]) by {
          assert before[0] in before;
        }
        assert [text[0]][..0] == "";
        before, digits, after := "", [text[0]], before + (digits + after);
      }
    }
  }

  lemma {:induction false} FrontDigit(d: char, digits: string)
    requires IsDigit(d) && AllDigits(digits)
    ensures AllDigits([d] + digits)
  {
    var all := [d] + digits;
    if digits == "" {
      assert all[..0] == "";
    } else {
      var n := |digits| - 1;
      FrontDigit(d, digits[..n]);
      assert all[..n + 1] == [d] + digits[..n];
    }
  }

  lemma {:induction false} ClaimIsLabelled(c: Claim, cwe: Option<Cwe>)
    ensures LabelIs(c.cwe, cwe) <==> cwe == ClaimCwe(c)
  {
    var text := if c.cwe.Some? then c.cwe.value else "";
    var before, digits, after := SplitNumber(text);
    if digits == "" {
      assert text == before;
      NoNumberIsRead(text);
    } else {
      LabelIsRead(text, before, digits, after);
      assert FirstNumber(text, Value(digits));
      assert IsDigit(text[|before|]) by {
        AllDigitsTail(digits);
        assert text[|before|] == digits[0];
      }
      assert text[|before|] in text;
    }
    if cwe.Some? && cwe.value.Numbered? && c.cwe.Some? && FirstNumber(text, cwe.value.n) {
      var b, d, a :| text == b + (d + a) && (forall c :: c in b ==> !IsDigit(c)) && d != "" && AllDigits(d) &&
                     (a != "" ==> !IsDigit(a[0])) && Value(d) == cwe.value.n;
      LabelIsRead(text, b, d, a);
    }
  }

  lemma {:induction false} CoversIsNear(f: Finding, file: string, line: int, cwe: Option<Cwe>)
    ensures Covers(f, file, line, Family(cwe)) <==> Near(f, file, line, cwe)
  {
  }

  /** The two guards of the loop hold for exactly the claims that can be checked. */
  lemma {:induction false} GuardsAreExact(c: Claim, batch: seq<Source>, authConcept: bool, file: string, length: nat,
                                          cwe: Option<Cwe>)
    ensures Tenable(c, batch, authConcept, file, length, cwe) <==>
            && Verifiable(c, Lens(batch)) && Meaningful(c, authConcept)
            && file == CleanFile(c) && length == Lens(batch)[file] && cwe == ClaimCwe(c)
  {
    LStripDrops(c.file, {'.', '/'});
    if IsClaimedFile(c, file) {
      FrontDroppedUnique(c.file, {'.', '/'}, file, CleanFile(c));
    }
    LensHold(batch, file);
    ClaimIsLabelled(c, cwe);
    CitesOne(c.citedLines, length);
  }

  lemma {:induction false} CitesOne(lines: seq<int>, length: nat)
    ensures CitedIn(lines, length) != [] <==> exists n :: n in lines && 1 <= n <= length
  {
    var cited := CitedIn(lines, length);
    if cited != [] {
      assert cited[0] in cited;
    }
  }

  lemma {:induction false} ClaimIsGraded(c: Claim)
    ensures GradedBy(c, ClaimSeverity(c))
  {
    LowerSaysWord(c.severity, "critical");
    LowerSaysWord(c.severity, "high");
    LowerSaysWord(c.severity, "medium");
  }

  lemma {:induction false} ClaimIsTranscribed(c: Claim, length: nat, env: Env)
    ensures Transcribed(ToFinding(c, length, env), c, length, env)
  {
    ClaimIsGraded(c);
  }

  lemma {:induction false} DuplicateIsNear(c: Claim, known: seq<Finding>)
    ensures Duplicate(c, known) <==> exists f :: f in known && Near(f, CleanFile(c), c.line, ClaimCwe(c))
  {
    forall f
      ensures Covers(f, CleanFile(c), c.line, Family(ClaimCwe(c))) <==> Near(f, CleanFile(c), c.line, ClaimCwe(c))
    {
      CoversIsNear(f, CleanFile(c), c.line, ClaimCwe(c));
    }
  }

  /** The acceptance loop over one reply. */
  method Accept(claims: seq<Claim>, batch: seq<Source>, existing: seq<Finding>, found0: seq<Finding>,
                authConcept: bool, env: Env)
    returns (found: seq<Finding>)
    requires SchemaValid(Claims(claims))
    requires NoRepeats(found0, existing)
    ensures found0 <= found && NoRepeats(found, existing)
    ensures forall i :: |found0| <= i < |found| ==> FromClaim(found[i], claims, batch, authConcept, env)
    ensures Represented(claims, batch, existing + found, authConcept)
  {
    found := found0;
    var lens := Lens(batch);
    for i := 0 to |claims|
      invariant found0 <= found && NoRepeats(found, existing)
      invariant forall i :: |found0| <= i < |found| ==> FromClaim(found[i], claims, batch, authConcept, env)
      invariant Represented(claims[..i], batch, existing + found, authConcept)
    {
      var c := claims[i];
      assert claims[..i + 1] == claims[..i] + [c];
      if !Verifiable(c, lens) || Duplicate(c, existing + found) || !Meaningful(c, authConcept) {
        RejectOne(c, claims[..i], batch, existing + found, authConcept);
        continue;
      }
      AcceptOne(c, claims, i, batch, existing, found, authConcept, env);
      found := found + [ToFinding(c, lens[CleanFile(c)], env)];
    }
    assert claims[..|claims|] == claims;
  }

  lemma {:induction false} RejectOne(c: Claim, seen: seq<Claim>, batch: seq<Source>, known: seq<Finding>,
                                     authConcept: bool)
    requires !Verifiable(c, Lens(batch)) || Duplicate(c, known) || !Meaningful(c, authConcept)
    requires Represented(seen, batch, known, authConcept)
    ensures Represented(seen + [c], batch, known, authConcept)
  {
    forall d, file, length: nat, cwe | d in seen + [c] && Tenable(d, batch, authConcept, file, length, cwe)
      ensures exists f :: f in known && Near(f, file, d.line, cwe)
    {
      if d !in seen {
        GuardsAreExact(c, batch, authConcept, file, length, cwe);
        DuplicateIsNear(c, known);
      }
    }
  }

  /** Accepting a claim nothing covers keeps the list free of repeats, and adds a finding with evidence. */
  lemma {:induction false} AcceptOne(c: Claim, claims: seq<Claim>, i: nat, batch: seq<Source>, existing: seq<Finding>,
                                     found: seq<Finding>, authConcept: bool, env: Env)
    requires i < |claims| && c == claims[i]
    requires Verifiable(c, Lens(batch)) && Meaningful(c, authConcept) && !Duplicate(c, existing + found)
    requires NoRepeats(found, existing) && Represented(claims[..i], batch, existing + found, authConcept)
    ensures var f := ToFinding(c, Lens(batch)[CleanFile(c)], env);
            && NoRepeats(found + [f], existing) && FromClaim(f, claims, batch, authConcept, env)
            && Represented(claims[..i] + [c], batch, existing + (found + [f]), authConcept)
  {
    var length := Lens(batch)[CleanFile(c)];
    var f := ToFinding(c, length, env);
    GuardsAreExact(c, batch, authConcept, f.file, length, f.cwe);
    ClaimIsTranscribed(c, length, env);
    DuplicateIsNear(c, existing + found);
    ClaimRepeatsNothing(existing, found, f);
    ClaimIsRepresented(c, claims[..i], batch, existing + found, authConcept, f);
    assert existing + found + [f] == existing + (found + [f]);
  }

  lemma {:induction false} ClaimRepeatsNothing(existing: seq<Finding>, found: seq<Finding>, f: Finding)
    requires NoRepeats(found, existing)
    requires forall e :: e in existing + found ==> !Near(e, f.file, f.line, f.cwe)
    ensures NoRepeats(found + [f], existing)
  {
    forall e | e in existing || e in found ensures !Near(e, f.file, f.line, f.cwe) {
      assert e in existing + found;
    }
  }

  lemma {:induction false} ClaimIsRepresented(c: Claim, seen: seq<Claim>, batch: seq<Source>, known: seq<Finding>,
                                              authConcept: bool, f: Finding)
    requires Represented(seen, batch, known, authConcept)
    requires f.file == CleanFile(c) && f.line == c.line && f.cwe == ClaimCwe(c)
    ensures Represented(seen + [c], batch, known + [f], authConcept)
  {
    forall d, file, length: nat, cwe | d in seen + [c] && Tenable(d, batch, authConcept, file, length, cwe)
      ensures exists g :: g in known + [f] && Near(g, file, d.line, cwe)
    {
      if d in seen {
        var g :| g in known && Near(g, file, d.line, cwe);
        assert g in known + [f];
      } else {
        GuardsAreExact(c, batch, authConcept, file, length, cwe);
        assert f in known + [f] && Near(f, file, d.line, cwe);
      }
    }
  }

  lemma {:induction false} RepresentedGrows(claims: seq<Claim>, batch: seq<Source>, existing: seq<Finding>,
                                            found: seq<Finding>, more: seq<Finding>, authConcept: bool)
    requires Represented(claims, batch, existing + found, authConcept) && found <= more
    ensures Represented(claims, batch, existing + more, authConcept)
  {
    forall c, file, length: nat, cwe | c in claims && Tenable(c, batch, authConcept, file, length, cwe)
      ensures exists g :: g in existing + more && Near(g, file, c.line, cwe)
    {
      var g :| g in existing + found && Near(g, file, c.line, cwe);
      assert g in existing + more;
    }
  }

  /** What the log says of a reply: that the budget is gone, or the start of what failed. */
  function Complaint(reply: Reply): seq<string> {
    match reply
    case BudgetExceeded => ["LLM token budget exhausted during discovery"]
    case Failed(message) => ["discovery failed for a batch: " + if |message| > 100 then message[..100] else message]
    case Claims(_) => []
  }

  function Complaints(replies: nat -> Reply, n: nat): seq<seq<string>> {
    seq(n, (b: nat) => Complaint(replies(b)))
  }

  lemma {:induction false} ComplaintStep(replies: nat -> Reply, b: nat)
    ensures Flatten(Complaints(replies, b + 1)) == Flatten(Complaints(replies, b)) + Complaint(replies(b))
  {
    FlattenSnoc(Complaints(replies, b), Complaint(replies(b)));
    assert Complaints(replies, b + 1) == Complaints(replies, b) + [Complaint(replies(b))];
  }

  /** The pass: at most `maxCalls` batches, stopping when the token budget is gone. `calls` is the number of
      batches the model was asked about. */
  method DiscoverFindings(files: seq<Source>, existing: seq<Finding>, replies: nat -> Reply, maxCalls: nat,
                          authConcept: bool, env: Env)
    returns (found: seq<Finding>, warnings: seq<string>, batches: seq<seq<Source>>, calls: nat)
    requires forall b: nat :: SchemaValid(replies(b))
    ensures GreedySplit(batches, files, SourceWeight, Limit(10000, None))
    ensures calls <= Min(maxCalls, |batches|)
    ensures calls < Min(maxCalls, |batches|) ==> 0 < calls && replies(calls - 1).BudgetExceeded?
    ensures NoRepeats(found, existing) && warnings == Flatten(Complaints(replies, calls))
    ensures forall f :: f in found ==>
              exists b :: 0 <= b < calls && Accounted(f, replies(b), batches[b], authConcept, env)
    ensures forall b :: 0 <= b < calls && replies(b).Claims? ==>
              Represented(replies(b).claims, batches[b], existing + found, authConcept)
  {
    found, warnings, calls := [], [], 0;
    batches := Batches(files, 10000);
    while calls < |batches| && calls < maxCalls
      invariant calls <= Min(maxCalls, |batches|)
      invariant NoRepeats(found, existing) && warnings == Flatten(Complaints(replies, calls))
      invariant forall f :: f in found ==>
                  exists b :: 0 <= b < calls && Accounted(f, replies(b), batches[b], authConcept, env)
      invariant forall b :: 0 <= b < calls && replies(b).Claims? ==>
                  Represented(replies(b).claims, batches[b], existing + found, authConcept)
    {
      var reply := replies(calls);
      ComplaintStep(replies, calls);
      calls := calls + 1;
      match reply {
        case BudgetExceeded =>
          warnings := warnings + ["LLM token budget exhausted during discovery"];
          break;
        case Failed(message) =>
          warnings := warnings + ["discovery failed for a batch: " + Cut(message, 100)];
        case Claims(claims) =>
          ghost var before := found;
          found := Accept(claims, batches[calls - 1], existing, found, authConcept, env);
          forall b | 0 <= b < calls && replies(b).Claims?
            ensures Represented(replies(b).claims, batches[b], existing + found, authConcept)
          {
            if b < calls - 1 {
              RepresentedGrows(replies(b).claims, batches[b], existing, before, found, authConcept);
            }
          }
          forall f | f in found
            ensures exists b :: 0 <= b < calls && Accounted(f, replies(b), batches[b], authConcept, env)
          {
            if f !in before {
              assert Accounted(f, reply, batches[calls - 1], authConcept, env);
            }
          }
      }
    }
  }
}
