/** The patch engine (backend/services/remediation.py): edits are folded over the files on disk, and a patch
    leaves only if every guardrail holds. */
module Patching {
  import opened Prelude
  import opened Text
  import opened TextSearch
  import opened Findings

  const MAX_CHANGED_LINES := 40

  /** The text files below a workspace root, by relative path. */
  type Tree = map<string, string>

  /** Search and replace, or, with a line number, the replacement of a whole line. */
  datatype Edit = Edit(file: string, oldText: string, newText: string, line: Option<int>, startsWith: string)

  datatype Proposal = Proposal(canFix: bool, reason: string, explanation: string, edits: seq<Edit>)

  datatype AppliedPatch = AppliedPatch(files: map<string, string>, diff: seq<seq<string>>, changedLines: nat,
      explanation: string)

  datatype PatchError =
    | ModelDeclined(reason: string)
    | NoEdits
    | OutsideScope(rel: string, allowed: set<string>)
    | TestFile(rel: string)
    | NotFound(rel: string)
    | NoSuchLine(line: int, rel: string)
    | WrongStart(line: int, rel: string, startsWith: string)
    | NotUnique(rel: string)
    | NothingChanged(rel: string)
    | BadSyntax(rel: string, message: string)
    | NewDependencies(modules: set<string>)
    | TooManyLines(count: nat)
    | NoFixedVersion
    | UpgradeUnsupported(file: string)
    | NotPinned(package: string, file: string)

  datatype PatchCheck = PatchCheck(ok: bool, errors: seq<PatchError>, patch: Option<AppliedPatch>)

  function Reject(errors: seq<PatchError>): PatchCheck {
    PatchCheck(false, errors, None)
  }

  /** A line of a unified diff. */
  datatype DiffLine = Meta(text: string) | Context(text: string) | Removed(text: string) | Added(text: string)

  datatype Version = Version(text: string, key: seq<nat>)

  /** One match of the pin pattern: the text is `before + version + after`. */
  datatype Pin = Pin(before: string, version: string, after: string)

  /** What the guardrails consult: path rules, the Python parser, the diff and the advisory data. */
  datatype Env = Env(isTestPath: string -> bool, syntaxError: string -> Option<string>,
                     importsOf: string -> set<string>, stdlib: set<string>, projectImports: Tree -> set<string>,
                     diff: (string, string, string) -> seq<DiffLine>,
                     fixedVersions: Finding -> seq<Version>, pins: (string, string) -> seq<Pin>)

  // ----- One edit -----

  datatype Edited = Done(text: string) | Refused(error: PatchError)

  function ReplaceLine(rel: string, text: string, e: Edit, n: int): Edited {
    var lines := SplitKeep(text);
    if !(1 <= n <= |lines|) then Refused(NoSuchLine(n, rel))
    else
      var current := lines[n - 1];
      if Strip(e.startsWith) == "" || !(Strip(e.startsWith) <= Strip(current)) then
        Refused(WrongStart(n, rel, e.startsWith))
      else
        Done(Flatten(lines[n - 1 := NewLine(e, current)]))
  }

  function NewLine(e: Edit, current: string): string {
    RStripNewlines(e.newText) + if EndsWith(current, "\n") then "\n" else ""
  }

  function ApplyEdit(rel: string, text: string, e: Edit): Edited {
    if e.line.Some? then ReplaceLine(rel, text, e, e.line.value)
    else
      match FindUnique(text, e.oldText)
      case None => Refused(NotUnique(rel))
      case Some((a, b)) =>
        FindUniqueSpan(text, e.oldText);
        Done(text[..a] + e.newText + text[b..])
  }

  lemma {:induction false} FlattenUpdate(lines: seq<string>, k: nat, line: string)
    requires k < |lines|
    ensures Flatten(lines[k := line]) == Flatten(lines[..k]) + line + Flatten(lines[k + 1..])
  {
    assert lines[k := line] == lines[..k] + ([line] + lines[k + 1..]);
    FlattenConcat(lines[..k], [line] + lines[k + 1..]);
    FlattenCons(line, lines[k + 1..]);
  }

  /** `result` is the text with the part that is meant by `search` replaced, and nothing else. */
  ghost predicate Replaces(text: string, search: string, replacement: string, result: string) {
    exists pre, mid, post ::
      text == pre + mid + post && result == pre + replacement + post && Located(text, search, pre, mid)
  }

  lemma {:induction false} ThreeParts(text: string, a: nat, b: nat)
    requires a <= b <= |text|
    ensures text == text[..a] + text[a..b] + text[b..]
  {
  }

  lemma {:induction false} ReplacesSpan(text: string, search: string, replacement: string, a: nat, b: nat)
    requires a <= b <= |text| && Located(text, search, text[..a], text[a..b])
    ensures Replaces(text, search, replacement, text[..a] + replacement + text[b..])
  {
    ThreeParts(text, a, b);
  }

  lemma {:induction false} SearchEditSplices(rel: string, text: string, e: Edit)
    requires e.line.None?
    ensures match FindUnique(text, e.oldText)
            case None => ApplyEdit(rel, text, e).Refused?
            case Some((a, b)) => a <= b <= |text| && ApplyEdit(rel, text, e) == Done(text[..a] + e.newText + text[b..])
  {
    FindUniqueSpan(text, e.oldText);
  }

  /** A search-and-replace edit replaces exactly the part of the text that its search text means, keeps everything
      before and after it, and is refused exactly when the search text means nothing. */
  lemma {:induction false} SearchEditIsLocal(rel: string, text: string, e: Edit)
    requires e.line.None?
    ensures match ApplyEdit(rel, text, e)
            case Done(result) => Replaces(text, e.oldText, e.newText, result)
            case Refused(_) =>
              && (forall i: nat :: !LoneOccurrence(text, e.oldText, i))
              && (forall h: nat :: !OnlyRun(text, e.oldText, h))
  {
    FindUniqueLocates(text, e.oldText);
    SearchEditSplices(rel, text, e);
    match FindUnique(text, e.oldText)
    case None =>
    case Some((a, b)) =>
      ReplacesSpan(text, e.oldText, e.newText, a, b);
  }

  lemma {:induction false} SplitThree(before: string, line: string, after: string)
    requires before == "" || EndsWith(before, "\n")
    requires after == "" || EndsWith(line, "\n")
    ensures SplitKeep(before + line + after) == SplitKeep(before) + SplitKeep(line) + SplitKeep(after)
  {
    assert before + line + after == before + (line + after);
    SplitKeepConcat(before, line + after);
    if after == "" {
      assert line + after == line;
      assert SplitKeep(after) == [];
    } else {
      SplitKeepConcat(line, after);
    }
    assert SplitKeep(before) + (SplitKeep(line) + SplitKeep(after)) == SplitKeep(before) + SplitKeep(line) +
        SplitKeep(after);
  }

  lemma {:induction false} ReplacedLines(text: string, k: nat, line: string)
    requires k < |SplitKeep(text)|
    requires k + 1 < |SplitKeep(text)| ==> EndsWith(line, "\n")
    ensures var lines := SplitKeep(text);
            SplitKeep(Flatten(lines[k := line])) == lines[..k] + SplitKeep(line) + lines[k + 1..]
  {
    var lines := SplitKeep(text);
    FlattenUpdate(lines, k, line);
    PrefixLines(text, k);
    SuffixLines(text, k + 1);
    if k + 1 == |lines| {
      assert lines[k + 1..] == [];
    }
    SplitThree(Flatten(lines[..k]), line, Flatten(lines[k + 1..]));
  }

  /** The line starts, blanks around it aside, with the expected beginning, which is not blank. */
  ghost predicate Begins(line: string, expected: string) {
    exists inner, start :: Trimmed(line, inner) && Trimmed(expected, start) && start != "" && start <= inner
  }

  lemma {:induction false} BeginsByStrip(line: string, expected: string)
    ensures Begins(line, expected) <==> Strip(expected) != "" && Strip(expected) <= Strip(line)
  {
    StripTrims(line);
    StripTrims(expected);
    if Begins(line, expected) {
      var inner, start :| Trimmed(line, inner) && Trimmed(expected, start) && start != "" && start <= inner;
      TrimmedUnique(line, inner, Strip(line));
      TrimmedUnique(expected, start, Strip(expected));
    }
  }

  /** Line `n` of the text is written anew: it gives way to the body of the new text, and ends as it ended. */
  ghost predicate Rewrites(text: string, n: int, expected: string, replacement: string, result: string) {
    exists before, line, after, body ::
      && IsLine(text, before, line, after, n) && Begins(line, expected) && WithoutNewlines(replacement, body)
      && result == before + body + (if line[|line| - 1] == '\n' then "\n" else "") + after
  }

  /** A line edit is accepted exactly if its line exists and begins as expected. It then replaces that line by the new
      text without its trailing newlines, keeps the newline at the end of the line if there is one, and keeps everything
      before and after the line. */
  lemma {:induction false} LineEditIsLocal(rel: string, text: string, e: Edit)
    requires e.line.Some?
    ensures match ApplyEdit(rel, text, e)
            case Done(result) => Rewrites(text, e.line.value, e.startsWith, e.newText, result)
            case Refused(_) =>
              forall before, line, after :: IsLine(text, before, line, after, e.line.value) ==>
                !Begins(line, e.startsWith)
  {
    var lines, n := SplitKeep(text), e.line.value;
    if 1 <= n <= |lines| {
      KeptLine(text, n - 1);
      BeginsByStrip(lines[n - 1], e.startsWith);
    }
    if ApplyEdit(rel, text, e).Done? {
      LineIsRewritten(rel, text, e);
    } else {
      forall before, line, after | IsLine(text, before, line, after, n) ensures !Begins(line, e.startsWith) {
        LineIsKept(text, before, line, after, n);
      }
    }
  }

  lemma {:induction false} NewLineParts(e: Edit, line: string)
    requires line != ""
    ensures NewLine(e, line) == RStripNewlines(e.newText) + (if line[|line| - 1] == '\n' then "\n" else "")
    ensures WithoutNewlines(e.newText, RStripNewlines(e.newText))
  {
    NewlinesAreDropped(e.newText);
    assert line[|line| - 1..] == [line[|line| - 1]];
  }

  lemma {:induction false} SplicedLine(rel: string, text: string, e: Edit)
    requires e.line.Some? && ApplyEdit(rel, text, e).Done?
    ensures var lines, k := SplitKeep(text), e.line.value - 1;
            && 0 <= k < |lines|
            && ApplyEdit(rel, text, e).text ==
                 Flatten(lines[..k]) + NewLine(e, lines[k]) + Flatten(lines[k + 1..])
  {
    var lines, k := SplitKeep(text), e.line.value - 1;
    FlattenUpdate(lines, k, NewLine(e, lines[k]));
  }

  lemma {:induction false} LineIsRewritten(rel: string, text: string, e: Edit)
    requires e.line.Some? && ApplyEdit(rel, text, e).Done?
    requires 1 <= e.line.value <= |SplitKeep(text)| && Begins(SplitKeep(text)[e.line.value - 1], e.startsWith)
    ensures Rewrites(text, e.line.value, e.startsWith, e.newText, ApplyEdit(rel, text, e).text)
  {
    var lines, k := SplitKeep(text), e.line.value - 1;
    KeptLine(text, k);
    NewLineParts(e, lines[k]);
    SplicedLine(rel, text, e);
    RewritesLine(text, e, Flatten(lines[..k]), lines[k], Flatten(lines[k + 1..]), RStripNewlines(e.newText));
  }

  lemma {:induction false} RewritesLine(text: string, e: Edit, before: string, line: string, after: string,
                                        body: string)
    requires e.line.Some? && IsLine(text, before, line, after, e.line.value) && Begins(line, e.startsWith)
    requires WithoutNewlines(e.newText, body)
    ensures Rewrites(text, e.line.value, e.startsWith, e.newText,
                     before + (body + if line[|line| - 1] == '\n' then "\n" else "") + after)
  {
    ConcatThree(before, body, if line[|line| - 1] == '\n' then "\n" else "");
  }

  /** A refused line edit is told that its line does not exist, or, if it does, how it does not begin; a refused search
      that its text was not found once. */
  lemma {:induction false} RefusalSays(rel: string, text: string, e: Edit)
    requires ApplyEdit(rel, text, e).Refused?
    ensures match e.line
            case None => ApplyEdit(rel, text, e) == Refused(NotUnique(rel))
            case Some(n) =>
              ApplyEdit(rel, text, e) == Refused(
                if exists before, line, after :: IsLine(text, before, line, after, n) then
                  WrongStart(n, rel, e.startsWith)
                else NoSuchLine(n, rel))
  {
    if e.line.Some? {
      var n, lines := e.line.value, SplitKeep(text);
      if 1 <= n <= |lines| {
        KeptLine(text, n - 1);
      }
      if before, line, after :| IsLine(text, before, line, after, n) {
        LineIsKept(text, before, line, after, n);
      }
    }
  }

  /** So every other line stays: the lines of the result are those before, those of the new text, and those after. */
  lemma {:induction false} OtherLinesStay(rel: string, text: string, e: Edit)
    requires e.line.Some? && ApplyEdit(rel, text, e).Done?
    ensures var lines, k := SplitKeep(text), e.line.value - 1;
            && 0 <= k < |lines|
            && SplitKeep(ApplyEdit(rel, text, e).text) ==
                 lines[..k] + SplitKeep(NewLine(e, lines[k])) + lines[k + 1..]
  {
    var lines, k := SplitKeep(text), e.line.value - 1;
    var line := NewLine(e, lines[k]);
    if k + 1 < |lines| {
      InnerLinesEnd(text, k);
      assert line[|line| - 1..] == "\n";
    }
    ReplacedLines(text, k, line);
  }

  lemma {:induction false} SuffixLines(text: string, k: nat)
    requires k <= |SplitKeep(text)|
    ensures SplitKeep(Flatten(SplitKeep(text)[k..])) == SplitKeep(text)[k..]
  {
    if k == 0 {
      SplitKeepFlatten(text);
    } else {
      var rest := text[LineLength(text)..];
      SuffixLines(rest, k - 1);
      assert SplitKeep(text)[k..] == SplitKeep(rest)[k - 1..];
    }
  }

  /** Nothing can be edited in an empty text. */
  lemma {:induction false} EmptyTextRefuses(rel: string, e: Edit)
    ensures ApplyEdit(rel, "", e).Refused?
  {
    if e.line.None? {
      if e.oldText != "" {
        assert Find("", e.oldText, 0).None?;
      }
      var want := WantedLines(e.oldText);
      assert SplitKeep("") == [];
      assert want != [] ==> forall i: nat :: !LinesMatchAt([], want, i);
      assert UniqueLine([], want).None?;
    }
  }

  // ----- The fold of the edits -----

  /** The accumulated contents, the order in which files were first edited, and the errors so far. */
  datatype Progress = Progress(files: map<string, string>, order: seq<string>, errors: seq<PatchError>)

  function RelOf(e: Edit): string {
    LStrip(e.file, {'.', '/'})
  }

  /** The path guardrails for one edit. */
  function PathError(env: Env, tree: Tree, allowed: set<string>, rel: string): Option<PatchError> {
    if rel !in allowed then Some(OutsideScope(rel, allowed))
    else if env.isTestPath(rel) then Some(TestFile(rel))
    else if rel !in tree then Some(NotFound(rel))
    else None
  }

  /** `new_files.get(rel) or path.read_text()`: an accumulated empty text is false, so the disk is read again. */
  function TextToEdit(tree: Tree, p: Progress, rel: string): string
    requires rel in tree
  {
    if rel in p.files && p.files[rel] != "" then p.files[rel] else tree[rel]
  }

  function Put(p: Progress, rel: string, text: string): Progress {
    p.(files := p.files[rel := text], order := if rel in p.files then p.order else p.order + [rel])
  }

  function FoldStep(env: Env, tree: Tree, allowed: set<string>, p: Progress, e: Edit): Progress {
    var rel := RelOf(e);
    match PathError(env, tree, allowed, rel)
    case Some(error) => p.(errors := p.errors + [error])
    case None =>
      match ApplyEdit(rel, TextToEdit(tree, p, rel), e)
      case Refused(error) => p.(errors := p.errors + [error])
      case Done(text) => Put(p, rel, text)
  }

  const START := Progress(map[], [], [])

  function Fold(env: Env, tree: Tree, allowed: set<string>, edits: seq<Edit>): Progress {
    if edits == [] then START
    else FoldStep(env, tree, allowed, Fold(env, tree, allowed, edits[..|edits| - 1]), edits[|edits| - 1])
  }

  /** The file list has exactly the accumulated files, once each; all of them passed the path guardrails. */
  ghost predicate Tidy(env: Env, tree: Tree, allowed: set<string>, p: Progress) {
    && Distinct(p.order)
    && (forall rel :: rel in p.order <==> rel in p.files)
    && (forall rel :: rel in p.files ==> PathError(env, tree, allowed, rel).None?)
  }

  lemma {:induction false} FoldTidy(env: Env, tree: Tree, allowed: set<string>, edits: seq<Edit>)
    ensures Tidy(env, tree, allowed, Fold(env, tree, allowed, edits))
    ensures var p := Fold(env, tree, allowed, edits);
            edits != [] ==> p.errors != [] || p.order != []
  {
    if edits != [] {
      FoldTidy(env, tree, allowed, edits[..|edits| - 1]);
    }
  }

  // ----- Sequential meaning -----

  /** The same fold reading only its own results: each edit applies to what the previous edits produced. */
  function SequentialStep(env: Env, tree: Tree, allowed: set<string>, p: Progress, e: Edit): Progress {
    var rel := RelOf(e);
    match PathError(env, tree, allowed, rel)
    case Some(error) => p.(errors := p.errors + [error])
    case None =>
      match ApplyEdit(rel, if rel in p.files then p.files[rel] else tree[rel], e)
      case Refused(error) => p.(errors := p.errors + [error])
      case Done(text) => Put(p, rel, text)
  }

  function Sequential(env: Env, tree: Tree, allowed: set<string>, edits: seq<Edit>): Progress {
    if edits == [] then START
    else SequentialStep(env, tree, allowed, Sequential(env, tree, allowed, edits[..|edits| - 1]), edits[|edits| - 1])
  }

  /** Some edit applies to a file that the edits before it emptied. */
  predicate EditsEmptied(env: Env, tree: Tree, allowed: set<string>, edits: seq<Edit>) {
    edits != [] &&
    var init, rel := edits[..|edits| - 1], RelOf(edits[|edits| - 1]);
    var p := Fold(env, tree, allowed, init);
    EditsEmptied(env, tree, allowed, init) || (rel in p.files && p.files[rel] == "")
  }

  /** The edits succeed one after the other exactly when the code accepts them and no edit meets a file that
      earlier edits emptied; then both produce the same files. In the remaining case the code restarts that file
      from disk and drops the earlier edits. */
  lemma {:induction false} FoldIsSequential(env: Env, tree: Tree, allowed: set<string>, edits: seq<Edit>)
    ensures var code, seqn := Fold(env, tree, allowed, edits), Sequential(env, tree, allowed, edits);
            && (seqn.errors == [] <==> code.errors == [] && !EditsEmptied(env, tree, allowed, edits))
            && (seqn.errors == [] ==> code == seqn)
  {
    if edits != [] {
      var init, e := edits[..|edits| - 1], edits[|edits| - 1];
      FoldIsSequential(env, tree, allowed, init);
      FoldTidy(env, tree, allowed, init);
      EmptyTextRefuses(RelOf(e), e);
    }
  }

  lemma {:induction false} FoldTwo(env: Env, tree: Tree, allowed: set<string>, first: Edit, second: Edit)
    ensures Fold(env, tree, allowed, [first, second]) ==
            FoldStep(env, tree, allowed, FoldStep(env, tree, allowed, START, first), second)
    ensures Sequential(env, tree, allowed, [first, second]) ==
            SequentialStep(env, tree, allowed, SequentialStep(env, tree, allowed, START, first), second)
  {
    var one, two := [first], [first, second];
    assert two[..1] == one && one[..0] == [];
    assert Fold(env, tree, allowed, one[..0]) == START && Sequential(env, tree, allowed, one[..0]) == START;
    assert Fold(env, tree, allowed, one) == FoldStep(env, tree, allowed, START, first);
    assert Sequential(env, tree, allowed, one) == SequentialStep(env, tree, allowed, START, first);
  }

  lemma {:induction false} FirstStep(env: Env, tree: Tree, allowed: set<string>, e: Edit, rel: string, text: string)
    requires rel == RelOf(e) && PathError(env, tree, allowed, rel).None? && ApplyEdit(rel, tree[rel], e) == Done(text)
    ensures FoldStep(env, tree, allowed, START, e) == Progress(map[rel := text], [rel], [])
    ensures SequentialStep(env, tree, allowed, START, e) == Progress(map[rel := text], [rel], [])
  {
    assert START.order + [rel] == [rel];
  }

  /** In the remaining case the earlier edits are forgotten: whatever emptied the file, the next edit that
      applies to the file on disk decides alone, although it cannot follow the edit before it. */
  lemma {:induction false} RestartForgets(env: Env, tree: Tree, allowed: set<string>, first: Edit, second: Edit,
                                        text: string)
    requires PathError(env, tree, allowed, RelOf(first)).None? && RelOf(second) == RelOf(first)
    requires ApplyEdit(RelOf(first), tree[RelOf(first)], first) == Done("")
    requires ApplyEdit(RelOf(first), tree[RelOf(first)], second) == Done(text)
    ensures Fold(env, tree, allowed, [first, second]) == Progress(map[RelOf(first) := text], [RelOf(first)], [])
    ensures Sequential(env, tree, allowed, [first, second]).errors != []
  {
    var rel := RelOf(first);
    FoldTwo(env, tree, allowed, first, second);
    FirstStep(env, tree, allowed, first, rel, "");
    SecondStep(env, tree, allowed, second, rel, text);
  }

  lemma {:induction false} SecondStep(env: Env, tree: Tree, allowed: set<string>, e: Edit, rel: string, text: string)
    requires rel == RelOf(e) && PathError(env, tree, allowed, rel).None? && ApplyEdit(rel, tree[rel], e) == Done(text)
    ensures var emptied := Progress(map[rel := ""], [rel], []);
            && FoldStep(env, tree, allowed, emptied, e) == Progress(map[rel := text], [rel], [])
            && SequentialStep(env, tree, allowed, emptied, e).errors != []
  {
    var emptied := Progress(map[rel := ""], [rel], []);
    EmptyTextRefuses(rel, e);
    assert emptied.files[rel := text] == map[rel := text];
  }

  /** The case arises: replacing "a" by nothing and then "a" by "b" in a file that reads "a". */
  lemma {:induction false} RestartExample(first: Edit, second: Edit)
    requires first == Edit("f", "a", "", None, "") && second == Edit("f", "a", "b", None, "")
    ensures RelOf(first) == "f" == RelOf(second)
    ensures ApplyEdit("f", "a", first) == Done("") && ApplyEdit("f", "a", second) == Done("b")
  {
    assert OccursAt("a", "a", 0);
    assert Find("a", "a", 0) == Some(0) && Find("a", "a", 1).None?;
    assert Count("a", "a", 0) == 1 + Count("a", "a", 1);
    assert "a"[..0] + "" + "a"[1..] == "";
    assert "a"[..0] + "b" + "a"[1..] == "b";
  }

  // ----- Review of the changed files -----

  function Render(d: DiffLine): string {
    match d
    case Meta(text) => text
    case Context(text) => " " + text
    case Removed(text) => "-" + text
    case Added(text) => "+" + text
  }

  /** `ln[:1] in "+-" and not ln.startswith(("+++", "---"))`. */
  predicate Counted(line: string) {
    (line == "" || line[0] == '+' || line[0] == '-') && !("+++" <= line) && !("---" <= line)
  }

  function CountedLines(d: seq<DiffLine>): nat {
    if d == [] then 0 else CountedLines(d[..|d| - 1]) + if Counted(Render(d[|d| - 1])) then 1 else 0
  }

  function ChangedLines(d: seq<DiffLine>): nat {
    if d == [] then 0 else ChangedLines(d[..|d| - 1]) + if d[|d| - 1].Added? || d[|d| - 1].Removed? then 1 else 0
  }

  /** Headers and hunk marks are the only other lines of a unified diff. */
  predicate WellFormedDiff(d: seq<DiffLine>) {
    forall i :: 0 <= i < |d| && d[i].Meta? ==> "+++" <= d[i].text || "---" <= d[i].text || "@@" <= d[i].text
  }

  /** A changed line that looks like a file header. */
  predicate Disguised(d: DiffLine) {
    (d.Added? && "++" <= d.text) || (d.Removed? && "--" <= d.text)
  }

  lemma {:induction false} StartsWithThree(c: char, text: string)
    ensures [c, c, c] <= [c] + text <==> [c, c] <= text
  {
    var line := [c] + text;
    if [c, c] <= text {
      assert line[0] == c && line[1] == text[0] && line[2] == text[1];
    }
    if [c, c, c] <= line {
      assert text[0] == line[1] && text[1] == line[2];
    }
  }

  lemma {:induction false} OtherStart(c: char, d: char, text: string)
    requires c != d
    ensures !([c, c, c] <= [d] + text)
  {
    assert ([d] + text)[0] == d;
  }

  /** A rendered line is counted exactly when it is a change that does not look like a file header. */
  lemma {:induction false} CountedIsChange(d: DiffLine)
    requires d.Meta? ==> "+++" <= d.text || "---" <= d.text || "@@" <= d.text
    ensures Counted(Render(d)) <==> (d.Added? || d.Removed?) && !Disguised(d)
  {
    match d
    case Added(text) =>
      StartsWithThree('+', text);
      OtherStart('-', '+', text);
    case Removed(text) =>
      StartsWithThree('-', text);
      OtherStart('+', '-', text);
    case Context(text) =>
      assert (" " + text)[0] == ' ';
    case Meta(text) =>
      if "@@" <= text {
        assert text[0] == '@';
      }
  }

  /** The count that is compared with the limit is the number of changed lines exactly when no removed line
      starts with `--` and no added line with `++`; otherwise it is smaller. */
  lemma {:induction false} CountIsExact(d: seq<DiffLine>)
    requires WellFormedDiff(d)
    ensures CountedLines(d) <= ChangedLines(d)
    ensures CountedLines(d) == ChangedLines(d) <==> forall i :: 0 <= i < |d| ==> !Disguised(d[i])
  {
    if d != [] {
      var init, last := d[..|d| - 1], d[|d| - 1];
      CountIsExact(init);
      CountedIsChange(last);
      assert (forall i :: 0 <= i < |d| ==> !Disguised(d[i])) <==>
             ((forall i :: 0 <= i < |init| ==> !Disguised(init[i])) && !Disguised(last));
    }
  }

  datatype Review = Review(errors: seq<PatchError>, changed: nat, diff: seq<seq<string>>)

  function RenderAll(d: seq<DiffLine>): seq<string> {
    Map(Render, d)
  }

  /** The source text of a Python file must parse and import nothing unknown. */
  function SourceErrors(env: Env, tree: Tree, rel: string, text: string): seq<PatchError>
    requires rel in tree
  {
    if !EndsWith(rel, ".py") then []
    else
      match env.syntaxError(text)
      case Some(message) => [BadSyntax(rel, message)]
      case None =>
        var unknown := set m | m in env.importsOf(text) - env.importsOf(tree[rel]) &&
                               m !in env.stdlib && m !in env.projectImports(tree);
        if unknown != {} then [NewDependencies(unknown)] else []
  }

  function ReviewStep(env: Env, tree: Tree, r: Review, rel: string, text: string): Review
    requires rel in tree
  {
    if text == tree[rel] then r.(errors := r.errors + [NothingChanged(rel)])
    else
      var d := env.diff(rel, tree[rel], text);
      Review(r.errors + SourceErrors(env, tree, rel, text), r.changed + CountedLines(d), r.diff + [RenderAll(d)])
  }

  function ReviewAll(env: Env, tree: Tree, files: map<string, string>, order: seq<string>): Review
    requires forall rel :: rel in order ==> rel in files && rel in tree
  {
    if order == [] then Review([], 0, [])
    else
      var rel := order[|order| - 1];
      ReviewStep(env, tree, ReviewAll(env, tree, files, order[..|order| - 1]), rel, files[rel])
  }

  function CountedIn(env: Env, tree: Tree, files: map<string, string>, order: seq<string>): nat
    requires forall rel :: rel in order ==> rel in files && rel in tree
  {
    if order == [] then 0
    else
      var rel := order[|order| - 1];
      CountedIn(env, tree, files, order[..|order| - 1]) + CountedLines(env.diff(rel, tree[rel], files[rel]))
  }

  /** What one changed file must satisfy. */
  ghost predicate FileAccepted(env: Env, tree: Tree, rel: string, text: string) {
    && rel in tree && text != tree[rel]
    && (EndsWith(rel, ".py") ==>
          && env.syntaxError(text).None?
          && env.importsOf(text) - env.importsOf(tree[rel]) <= env.stdlib + env.projectImports(tree))
  }

  lemma {:induction false} ReviewIsExact(env: Env, tree: Tree, files: map<string, string>, order: seq<string>)
    requires forall rel :: rel in order ==> rel in files && rel in tree
    ensures ReviewAll(env, tree, files, order).errors == [] <==>
            forall rel :: rel in order ==> FileAccepted(env, tree, rel, files[rel])
    ensures ReviewAll(env, tree, files, order).errors == [] ==>
            ReviewAll(env, tree, files, order).changed == CountedIn(env, tree, files, order)
  {
    if order != [] {
      var init, rel := order[..|order| - 1], order[|order| - 1];
      ReviewIsExact(env, tree, files, init);
      assert order == init + [rel];
      var text := files[rel];
      if EndsWith(rel, ".py") && env.syntaxError(text).None? {
        var unknown := set m | m in env.importsOf(text) - env.importsOf(tree[rel]) &&
                               m !in env.stdlib && m !in env.projectImports(tree);
        assert unknown == {} <==>
               env.importsOf(text) - env.importsOf(tree[rel]) <= env.stdlib + env.projectImports(tree) by {
          forall m | m in env.importsOf(text) - env.importsOf(tree[rel]) && unknown == {}
            ensures m in env.stdlib + env.projectImports(tree)
          {
            assert m !in unknown;
          }
        }
      }
    }
  }

  // ----- The whole check -----

  function Scope(f: Finding, allowed: set<string>): set<string> {
    if allowed == {} then {f.file} else allowed
  }

  function Conclude(reviewed: Review, p: Progress, explanation: string): PatchCheck {
    var errors := reviewed.errors +
        if reviewed.changed > MAX_CHANGED_LINES then [TooManyLines(reviewed.changed)] else [];
    if errors != [] then Reject(errors)
    else PatchCheck(true, [], Some(AppliedPatch(p.files, reviewed.diff, reviewed.changed, explanation)))
  }

  function Validated(env: Env, tree: Tree, f: Finding, proposal: Proposal, allowed: set<string>): PatchCheck {
    if !proposal.canFix then Reject([ModelDeclined(proposal.reason)])
    else if proposal.edits == [] then Reject([NoEdits])
    else
      var p := Fold(env, tree, Scope(f, allowed), proposal.edits);
      if p.errors != [] then Reject(p.errors)
      else
        FoldTidy(env, tree, Scope(f, allowed), proposal.edits);
        Conclude(ReviewAll(env, tree, p.files, p.order), p, proposal.explanation)
  }

  method ValidatePatch(env: Env, tree: Tree, f: Finding, proposal: Proposal, allowed: set<string>)
    returns (check: PatchCheck)
    ensures check == Validated(env, tree, f, proposal, allowed)
  {
    if !proposal.canFix {
      return Reject([ModelDeclined(proposal.reason)]);
    }
    var edits := proposal.edits;
    if edits == [] {
      return Reject([NoEdits]);
    }
    var scope := Scope(f, allowed);
    var p := FoldEdits(env, tree, scope, edits);
    if p.errors != [] {
      return Reject(p.errors);
    }
    FoldTidy(env, tree, scope, edits);
    var reviewed := ReviewFiles(env, tree, p.files, p.order);
    check := Conclude(reviewed, p, proposal.explanation);
  }

  /** The second loop of `validate_patch`. */
  method ReviewFiles(env: Env, tree: Tree, files: map<string, string>, order: seq<string>) returns (r: Review)
    requires forall rel :: rel in order ==> rel in files && rel in tree
    ensures r == ReviewAll(env, tree, files, order)
  {
    r := Review([], 0, []);
    for i := 0 to |order|
      invariant r == ReviewAll(env, tree, files, order[..i])
    {
      var rel := order[i];
      assert rel in order;
      assert order[..i + 1][..i] == order[..i];
      if files[rel] == tree[rel] {
        r := r.(errors := r.errors + [NothingChanged(rel)]);
        continue;
      }
      var d := env.diff(rel, tree[rel], files[rel]);
      r := Review(r.errors + SourceErrors(env, tree, rel, files[rel]), r.changed + CountedLines(d),
          r.diff + [RenderAll(d)]);
    }
    assert order[..|order|] == order;
  }

  /** The first loop of `validate_patch`: a rejected edit is recorded and the loop goes on. */
  method FoldEdits(env: Env, tree: Tree, allowed: set<string>, edits: seq<Edit>) returns (p: Progress)
    ensures p == Fold(env, tree, allowed, edits)
  {
    p := START;
    for i := 0 to |edits|
      invariant p == Fold(env, tree, allowed, edits[..i])
    {
      var e := edits[i];
      assert edits[..i + 1][..i] == edits[..i];
      var rel := RelOf(e);
      var blocked := PathError(env, tree, allowed, rel);
      if blocked.Some? {
        p := p.(errors := p.errors + [blocked.value]);
        continue;
      }
      match ApplyEdit(rel, TextToEdit(tree, p, rel), e) {
        case Refused(error) => p := p.(errors := p.errors + [error]);
        case Done(text) => p := Put(p, rel, text);
      }
    }
    assert edits[..|edits|] == edits;
  }

  /** A patch is accepted exactly when the model offers edits, every edit applies, every changed file is
      acceptable and the counted lines are within the limit. A rejected patch carries reasons and no files. */
  lemma {:induction false} AcceptedExactly(env: Env, tree: Tree, f: Finding, proposal: Proposal, allowed: set<string>)
    ensures var check, p := Validated(env, tree, f, proposal, allowed),
        Fold(env, tree, Scope(f, allowed), proposal.edits);
            && Tidy(env, tree, Scope(f, allowed), p)
            && (check.ok <==>
                  && proposal.canFix && proposal.edits != [] && p.errors == []
                  && (forall rel :: rel in p.files ==> FileAccepted(env, tree, rel, p.files[rel]))
                  && CountedIn(env, tree, p.files, p.order) <= 40)
            && (!proposal.canFix ==> check.errors == [ModelDeclined(proposal.reason)])
            && (proposal.canFix && proposal.edits == [] ==> check.errors == [NoEdits])
            && (check.ok ==> check.errors == [] && check.patch.Some? && check.patch.value.files == p.files != map[])
            && (!check.ok ==> check.errors != [] && check.patch.None?)
  {
    var p := Fold(env, tree, Scope(f, allowed), proposal.edits);
    FoldTidy(env, tree, Scope(f, allowed), proposal.edits);
    ReviewIsExact(env, tree, p.files, p.order);
    if p.order != [] {
      assert p.order[0] in p.files;
    }
  }

  /** What is said of a new text for one file: accepted with it, its diff and the count of changes, or not. */
  ghost predicate JudgesText(check: PatchCheck, env: Env, tree: Tree, rel: string, text: string, explanation: string)
    requires rel in tree
  {
    var d := env.diff(rel, tree[rel], text);
    && (check.ok <==> FileAccepted(env, tree, rel, text) && CountedLines(d) <= 40)
    && (check.ok ==> check.patch == Some(AppliedPatch(map[rel := text], [RenderAll(d)], CountedLines(d), explanation)))
    && (!check.ok ==> check.patch.None? && check.errors != [])
  }

  lemma {:induction false} FoldOne(env: Env, tree: Tree, allowed: set<string>, e: Edit)
    ensures Fold(env, tree, allowed, [e]) == FoldStep(env, tree, allowed, START, e)
  {
    assert [e][..0] == [] && Fold(env, tree, allowed, []) == START;
  }

  lemma {:induction false} ReviewOne(env: Env, tree: Tree, files: map<string, string>, rel: string)
    requires rel in files && rel in tree
    ensures ReviewAll(env, tree, files, [rel]) == ReviewStep(env, tree, Review([], 0, []), rel, files[rel])
    ensures CountedIn(env, tree, files, [rel]) == CountedLines(env.diff(rel, tree[rel], files[rel]))
  {
    assert [rel][..0] == [];
    assert ReviewAll(env, tree, files, []) == Review([], 0, []) && CountedIn(env, tree, files, []) == 0;
  }

  lemma {:induction false} LoneTextIsJudged(env: Env, tree: Tree, f: Finding, proposal: Proposal, allowed: set<string>,
                                            rel: string, text: string)
    requires proposal.canFix && proposal.edits != [] && rel in tree
    requires Fold(env, tree, Scope(f, allowed), proposal.edits) == Progress(map[rel := text], [rel], [])
    ensures JudgesText(Validated(env, tree, f, proposal, allowed), env, tree, rel, text, proposal.explanation)
  {
    AcceptedExactly(env, tree, f, proposal, allowed);
    var files := map[rel := text];
    ReviewOne(env, tree, files, rel);
    assert files[rel] == text && forall r :: r in files <==> r == rel;
    ReviewIsExact(env, tree, files, [rel]);
    if Validated(env, tree, f, proposal, allowed).ok {
      assert FileAccepted(env, tree, rel, files[rel]);
      assert [] + [RenderAll(env.diff(rel, tree[rel], text))] == [RenderAll(env.diff(rel, tree[rel], text))];
    }
  }

  lemma {:induction false} LoneErrorIsTold(env: Env, tree: Tree, f: Finding, proposal: Proposal, allowed: set<string>,
                                           error: PatchError)
    requires proposal.canFix && proposal.edits != []
    requires Fold(env, tree, Scope(f, allowed), proposal.edits) == Progress(map[], [], [error])
    ensures Validated(env, tree, f, proposal, allowed) == Reject([error])
  {
  }

  lemma {:induction false} LoneStep(env: Env, tree: Tree, scope: set<string>, e: Edit, rel: string)
    requires rel == RelOf(e)
    ensures var p := FoldStep(env, tree, scope, START, e);
            && (rel !in scope ==> p == Progress(map[], [], [OutsideScope(rel, scope)]))
            && (rel in scope && env.isTestPath(rel) ==> p == Progress(map[], [], [TestFile(rel)]))
            && (rel in scope && !env.isTestPath(rel) && rel !in tree ==> p == Progress(map[], [], [NotFound(rel)]))
            && (rel in scope && !env.isTestPath(rel) && rel in tree ==>
                match ApplyEdit(rel, tree[rel], e)
                case Refused(error) => p == Progress(map[], [], [error])
                case Done(text) => p == Progress(map[rel := text], [rel], []))
  {
  }

  /** A proposal of one edit: it must name a file in scope, apart from dots and slashes in front, that is no test and
      exists; then the edit decides, and its text is judged. */
  lemma {:induction false} LoneEditExactly(env: Env, tree: Tree, f: Finding, proposal: Proposal, allowed: set<string>,
                                           e: Edit, rel: string)
    requires proposal.canFix && proposal.edits == [e] && FrontDropped(e.file, {'.', '/'}, rel)
    ensures var check, scope := Validated(env, tree, f, proposal, allowed), if allowed == {} then {f.file} else allowed;
            && (rel !in scope ==> check == Reject([OutsideScope(rel, scope)]))
            && (rel in scope && env.isTestPath(rel) ==> check == Reject([TestFile(rel)]))
            && (rel in scope && !env.isTestPath(rel) && rel !in tree ==> check == Reject([NotFound(rel)]))
            && (rel in scope && !env.isTestPath(rel) && rel in tree ==>
                match ApplyEdit(rel, tree[rel], e)
                case Refused(error) => check == Reject([error])
                case Done(text) => JudgesText(check, env, tree, rel, text, proposal.explanation))
  {
    LStripDrops(e.file, {'.', '/'});
    FrontDroppedUnique(e.file, {'.', '/'}, rel, RelOf(e));
    var scope := Scope(f, allowed);
    FoldOne(env, tree, scope, e);
    LoneStep(env, tree, scope, e, rel);
    if rel !in scope {
      LoneErrorIsTold(env, tree, f, proposal, allowed, OutsideScope(rel, scope));
    } else if env.isTestPath(rel) {
      LoneErrorIsTold(env, tree, f, proposal, allowed, TestFile(rel));
    } else if rel !in tree {
      LoneErrorIsTold(env, tree, f, proposal, allowed, NotFound(rel));
    } else {
      match ApplyEdit(rel, tree[rel], e)
      case Refused(error) => LoneErrorIsTold(env, tree, f, proposal, allowed, error);
      case Done(text) => LoneTextIsJudged(env, tree, f, proposal, allowed, rel, text);
    }
  }

  /** With the default scope an accepted patch changes exactly the file of the finding, which is not a test
      file, and changes it for real. */
  lemma {:induction false} AcceptedTouchesOnlyItsFile(env: Env, tree: Tree, f: Finding, proposal: Proposal)
    requires Validated(env, tree, f, proposal, {}).ok
    ensures var files := Validated(env, tree, f, proposal, {}).patch.value.files;
            files.Keys == {f.file} && !env.isTestPath(f.file) && f.file in tree && files[f.file] != tree[f.file]
  {
    AcceptedExactly(env, tree, f, proposal, {});
    var p := Fold(env, tree, {f.file}, proposal.edits);
    forall rel | rel in p.files ensures rel == f.file {
      assert PathError(env, tree, {f.file}, rel).None?;
    }
    assert p.files.Keys != {};
    assert f.file in p.files;
    assert PathError(env, tree, {f.file}, f.file).None?;
  }
}
