/** Splitting text into lines and locating text (the string work of backend/services/remediation.py). */
module TextSearch {
  import opened Prelude
  import opened Text

  // ----- Lines -----

  /** Length of the first line, with its newline. */
  function LineLength(t: string): (n: nat)
    requires t != ""
    ensures 1 <= n <= |t|
  {
    if t[0] == '\n' || |t| == 1 then 1 else 1 + LineLength(t[1..])
  }

  /** `t.splitlines(keepends=True)`. */
  function SplitKeep(t: string): seq<string> {
    if t == "" then [] else [t[..LineLength(t)]] + SplitKeep(t[LineLength(t)..])
  }

  function Chomp(line: string): string {
    if EndsWith(line, "\n") then line[..|line| - 1] else line
  }

  /** `t.splitlines()`. */
  function SplitLines(t: string): seq<string> {
    Map(Chomp, SplitKeep(t))
  }

  /** Concatenating the kept lines gives the text back. */
  lemma {:induction false} SplitKeepFlatten(t: string)
    ensures Flatten(SplitKeep(t)) == t
  {
    if t != "" {
      SplitKeepFlatten(t[LineLength(t)..]);
      assert SplitKeep(t)[1..] == SplitKeep(t[LineLength(t)..]);
    }
  }

  lemma {:induction false} LineLengthOfPrefix(a: string, b: string)
    requires a != "" && EndsWith(a, "\n")
    ensures LineLength(a + b) == LineLength(a)
  {
    if a[0] != '\n' && |a| > 1 {
      assert (a + b)[1..] == a[1..] + b;
      assert a[1..][|a[1..]| - 1..] == a[|a| - 1..];
      LineLengthOfPrefix(a[1..], b);
    } else {
      assert a[|a| - 1..][0] == a[|a| - 1];
    }
  }

  /** After a newline, or at the start, splitting continues independently. */
  lemma {:induction false} SplitKeepConcat(a: string, b: string)
    requires a == "" || EndsWith(a, "\n")
    ensures SplitKeep(a + b) == SplitKeep(a) + SplitKeep(b)
    decreases |a|
  {
    if a == "" {
      assert a + b == b;
    } else {
      var n := LineLength(a);
      DropPrefix(a, b, n);
      SplitKeepConcat(a[n..], b);
      PrependLine(a, b, n, SplitKeep(a[n..]), SplitKeep(b));
    }
  }

  lemma {:induction false} DropPrefix(a: string, b: string, n: nat)
    requires n <= |a| && EndsWith(a, "\n")
    ensures (a + b)[..n] == a[..n] && (a + b)[n..] == a[n..] + b
    ensures a[n..] == "" || EndsWith(a[n..], "\n")
  {
    if n < |a| {
      assert a[n..][|a[n..]| - 1..] == a[|a| - 1..];
    }
  }

  lemma {:induction false} PrependLine(a: string, b: string, n: nat, rest: seq<string>, more: seq<string>)
    requires a != "" && EndsWith(a, "\n") && n == LineLength(a)
    requires (a + b)[..n] == a[..n] && (a + b)[n..] == a[n..] + b
    requires SplitKeep(a[n..]) == rest && SplitKeep(a[n..] + b) == rest + more
    ensures SplitKeep(a + b) == SplitKeep(a) + more
  {
    LineLengthOfPrefix(a, b);
    SplitFirst(a, n);
    SplitFirst(a + b, n);
    ConcatThree([a[..n]], rest, more);
  }

  lemma {:induction false} SplitFirst(t: string, n: nat)
    requires t != "" && n == LineLength(t)
    ensures SplitKeep(t) == [t[..n]] + SplitKeep(t[n..])
  {
  }

  lemma {:induction false} LineEndsAtNewline(t: string)
    requires t != ""
    ensures LineLength(t) < |t| ==> t[LineLength(t) - 1] == '\n'
    ensures forall i :: 0 <= i < LineLength(t) - 1 ==> t[i] != '\n'
  {
    if t[0] != '\n' && |t| > 1 {
      LineEndsAtNewline(t[1..]);
      forall i | 0 <= i < LineLength(t) - 1 ensures t[i] != '\n' {
        if i > 0 {
          assert t[i] == t[1..][i - 1];
        }
      }
    }
  }

  /** Every line but the last ends with a newline. */
  lemma {:induction false} InnerLinesEnd(t: string, k: nat)
    requires k < |SplitKeep(t)| - 1
    ensures EndsWith(SplitKeep(t)[k], "\n")
  {
    LineEndsAtNewline(t);
    var n := LineLength(t);
    if k > 0 {
      InnerLinesEnd(t[n..], k - 1);
    } else {
      assert t[n..] != "";
      assert t[..n][n - 1..] == "\n";
    }
  }

  lemma {:induction false} FirstLineAlone(t: string)
    requires t != ""
    ensures SplitKeep(t[..LineLength(t)]) == [t[..LineLength(t)]]
  {
    var n := LineLength(t);
    var first := t[..n];
    LineLengthAlone(t);
    assert first[..n] == first && first[n..] == "";
    assert SplitKeep("") == [];
  }

  lemma {:induction false} AddFirstLine(first: string, before: string, lines: seq<string>)
    requires EndsWith(first, "\n") && SplitKeep(first) == [first]
    requires (before == "" || EndsWith(before, "\n")) && SplitKeep(before) == lines
    ensures SplitKeep(first + before) == [first] + lines && EndsWith(first + before, "\n")
  {
    SplitKeepConcat(first, before);
    EndsWithLast(first, before);
  }

  lemma {:induction false} FlattenCons<T>(x: seq<T>, rest: seq<seq<T>>)
    ensures Flatten([x] + rest) == x + Flatten(rest)
  {
    assert ([x] + rest)[1..] == rest;
  }

  /** The text before line `k` is made of whole lines. */
  lemma {:induction false} PrefixLines(t: string, k: nat)
    requires k < |SplitKeep(t)|
    ensures Flatten(SplitKeep(t)[..k]) == "" || EndsWith(Flatten(SplitKeep(t)[..k]), "\n")
    ensures SplitKeep(Flatten(SplitKeep(t)[..k])) == SplitKeep(t)[..k]
    decreases |t|
  {
    if k > 0 {
      var first, rest := t[..LineLength(t)], t[LineLength(t)..];
      PrefixLines(rest, k - 1);
      InnerLinesEnd(t, 0);
      FirstLineAlone(t);
      PrefixStep(first, SplitKeep(rest), k);
    }
  }

  lemma {:induction false} PrefixStep(first: string, lines: seq<string>, k: nat)
    requires 0 < k <= |lines| && EndsWith(first, "\n") && SplitKeep(first) == [first]
    requires Flatten(lines[..k - 1]) == "" || EndsWith(Flatten(lines[..k - 1]), "\n")
    requires SplitKeep(Flatten(lines[..k - 1])) == lines[..k - 1]
    ensures EndsWith(Flatten(([first] + lines)[..k]), "\n")
    ensures SplitKeep(Flatten(([first] + lines)[..k])) == ([first] + lines)[..k]
  {
    assert ([first] + lines)[..k] == [first] + lines[..k - 1];
    FlattenCons(first, lines[..k - 1]);
    AddFirstLine(first, Flatten(lines[..k - 1]), lines[..k - 1]);
  }

  lemma {:induction false} EndsWithLast(a: string, b: string)
    requires EndsWith(a, "\n") && (b == "" || EndsWith(b, "\n"))
    ensures EndsWith(a + b, "\n")
  {
    if b == "" {
      assert a + b == a;
    } else {
      assert (a + b)[|a + b| - 1..] == b[|b| - 1..];
    }
  }

  lemma {:induction false} LineLengthAlone(t: string)
    requires t != ""
    ensures LineLength(t[..LineLength(t)]) == LineLength(t)
  {
    if t[0] != '\n' && |t| > 1 {
      var n := LineLength(t[1..]);
      LineLengthAlone(t[1..]);
      assert t[..1 + n][1..] == t[1..][..n];
    }
  }

  // ----- What a line is -----

  /** How many newlines there are in the text. */
  function Newlines(t: string): nat {
    if t == "" then 0 else Newlines(t[..|t| - 1]) + if t[|t| - 1] == '\n' then 1 else 0
  }

  /** Between `before` and `after` stands line `n` of the text, counted from one: it starts the text or follows a
      newline, and it ends with the first newline in it or with the text. */
  ghost predicate IsLine(text: string, before: string, line: string, after: string, n: int) {
    && text == before + line + after && line != ""
    && (before == "" || before[|before| - 1] == '\n') && Newlines(before) == n - 1
    && '\n' !in line[..|line| - 1] && (after != "" ==> line[|line| - 1] == '\n')
  }

  lemma {:induction false} NewlinesConcat(a: string, b: string)
    ensures Newlines(a + b) == Newlines(a) + Newlines(b)
  {
    if b == "" {
      assert a + b == a;
    } else {
      assert (a + b)[..|a + b| - 1] == a + b[..|b| - 1];
      NewlinesConcat(a, b[..|b| - 1]);
    }
  }

  lemma {:induction false} NoNewlines(t: string)
    ensures Newlines(t) == 0 <==> '\n' !in t
  {
    if t != "" {
      var n := |t| - 1;
      NoNewlines(t[..n]);
      assert t == t[..n] + [t[n]];
    }
  }

  /** The first line of a text. */
  lemma {:induction false} FirstIsLine(text: string)
    requires text != ""
    ensures IsLine(text, "", text[..LineLength(text)], text[LineLength(text)..], 1)
  {
    var n := LineLength(text);
    LineEndsAtNewline(text);
    assert text == "" + text[..n] + text[n..];
  }

  lemma {:induction false} ShiftLine(first: string, text: string, before: string, line: string, after: string, n: int)
    requires IsLine(text, before, line, after, n)
    requires first != "" && first[|first| - 1] == '\n' && '\n' !in first[..|first| - 1]
    ensures IsLine(first + text, first + before, line, after, n + 1)
  {
    var m := |first| - 1;
    assert first == first[..m] + ['\n'];
    NewlinesConcat(first[..m], ['\n']);
    NoNewlines(first[..m]);
    assert ['\n'][..0] == "";
    NewlinesConcat(first, before);
    assert first + text == first + before + line + after;
    if before != "" {
      assert (first + before)[|first + before| - 1] == before[|before| - 1];
    }
  }

  /** Every kept line is a line of the text. */
  lemma {:induction false} KeptLine(text: string, k: nat)
    requires k < |SplitKeep(text)|
    ensures var lines := SplitKeep(text);
            IsLine(text, Flatten(lines[..k]), lines[k], Flatten(lines[k + 1..]), k + 1)
  {
    var n, lines := LineLength(text), SplitKeep(text);
    var first, rest := text[..n], text[n..];
    FirstIsLine(text);
    SplitKeepFlatten(rest);
    assert lines[1..] == SplitKeep(rest);
    if k > 0 {
      KeptLine(rest, k - 1);
      assert rest != "";
      assert lines[1..][..k - 1] == lines[1..k] && lines[1..][k..] == lines[k + 1..];
      assert lines[..k] == [first] + lines[1..k];
      assert Flatten(lines[..k]) == first + Flatten(lines[1..k]);
      ShiftLine(first, rest, Flatten(lines[1..k]), lines[k], Flatten(lines[k + 1..]), k);
      assert first + rest == text;
    }
  }

  lemma {:induction false} FirstOfMany(before: string)
    requires before != "" && before[|before| - 1] == '\n'
    ensures var m := LineLength(before);
            Newlines(before) == 1 + Newlines(before[m..]) &&
            (before[m..] == "" || before[m..][|before[m..]| - 1] == '\n')
  {
    var m := LineLength(before);
    var inner := before[..m - 1];
    LineEndsAtNewline(before);
    assert before == inner + ['\n'] + before[m..];
    NewlinesConcat(inner + ['\n'], before[m..]);
    NewlinesConcat(inner, ['\n']);
    NoNewlines(inner);
    assert ['\n'][..0] == "";
  }

  lemma {:induction false} UnshiftParts(text: string, before: string, rest: string)
    requires text == before + rest && before != "" && before[|before| - 1] == '\n'
    ensures LineLength(text) == LineLength(before)
    ensures text[LineLength(before)..] == before[LineLength(before)..] + rest
  {
    assert before[|before| - 1..] == "\n";
    LineLengthOfPrefix(before, rest);
  }

  lemma {:induction false} UnshiftLine(text: string, before: string, line: string, after: string, n: int)
    requires IsLine(text, before, line, after, n) && before != ""
    ensures var m := LineLength(text);
            m == LineLength(before) && IsLine(text[m..], before[m..], line, after, n - 1)
  {
    var m := LineLength(before);
    assert text == before + (line + after);
    UnshiftParts(text, before, line + after);
    FirstOfMany(before);
    assert text[m..] == before[m..] + line + after;
  }

  lemma {:induction false} LineOneLength(text: string, line: string, after: string)
    requires IsLine(text, "", line, after, 1)
    ensures LineLength(text) == |line| && text == line + after
  {
    assert text == line + after;
    if after != "" {
      assert line[|line| - 1..] == "\n";
      LineLengthOfPrefix(line, after);
    } else {
      assert text == line;
    }
    LineEndsAtNewline(line);
    forall i | 0 <= i < |line| - 1 ensures line[i] != '\n' {
      assert line[i] == line[..|line| - 1][i];
    }
  }

  lemma {:induction false} KeptTail(text: string, i: nat)
    requires text != "" && i <= |SplitKeep(text[LineLength(text)..])|
    ensures var lines, rest, m := SplitKeep(text), SplitKeep(text[LineLength(text)..]), LineLength(text);
            && |lines| == |rest| + 1 && lines[1 + i..] == rest[i..]
            && Flatten(lines[..1 + i]) == text[..m] + Flatten(rest[..i])
  {
    var m := LineLength(text);
    var rest := SplitKeep(text[m..]);
    assert SplitKeep(text) == [text[..m]] + rest;
    assert ([text[..m]] + rest)[..1 + i] == [text[..m]] + rest[..i];
    assert ([text[..m]] + rest[..i])[1..] == rest[..i];
  }

  /** Line `n` is kept line `n`, between what the kept lines before and after it make up. */
  ghost predicate Kept(lines: seq<string>, before: string, line: string, after: string, n: int) {
    1 <= n <= |lines| && lines[n - 1] == line && before == Flatten(lines[..n - 1]) && after == Flatten(lines[n..])
  }

  lemma {:induction false} FirstLineIsKept(text: string, line: string, after: string)
    requires IsLine(text, "", line, after, 1)
    ensures Kept(SplitKeep(text), "", line, after, 1)
  {
    LineOneLength(text, line, after);
    SplitKeepFlatten(after);
    assert text[LineLength(text)..] == after;
    KeptTail(text, 0);
  }

  lemma {:induction false} NextLineIsKept(text: string, before: string, line: string, after: string, n: int)
    requires text != "" && Kept(SplitKeep(text[LineLength(text)..]), before, line, after, n)
    ensures Kept(SplitKeep(text), text[..LineLength(text)] + before, line, after, n + 1)
  {
    KeptTail(text, n - 1);
    KeptTail(text, n);
  }

  /** And the lines of the text are the kept ones. */
  lemma {:induction false} LineIsKept(text: string, before: string, line: string, after: string, n: int)
    requires IsLine(text, before, line, after, n)
    ensures Kept(SplitKeep(text), before, line, after, n)
    decreases |before|, 1
  {
    if before == "" {
      FirstLineIsKept(text, line, after);
    } else {
      LaterLineIsKept(text, before, line, after, n);
    }
  }

  lemma {:induction false} LaterLineIsKept(text: string, before: string, line: string, after: string, n: int)
    requires IsLine(text, before, line, after, n) && before != ""
    ensures Kept(SplitKeep(text), before, line, after, n)
    decreases |before|, 0
  {
    var m := LineLength(text);
    assert text == before + (line + after);
    UnshiftLine(text, before, line, after, n);
    LineIsKept(text[m..], before[m..], line, after, n - 1);
    NextLineIsKept(text, before[m..], line, after, n - 1);
    SameStart(text, before, line + after, m);
  }

  lemma {:induction false} SameStart(text: string, before: string, rest: string, m: nat)
    requires text == before + rest && m <= |before|
    ensures text[..m] + before[m..] == before
  {
  }

  // ----- Occurrences -----

  predicate OccursAt(text: string, needle: string, i: nat) {
    i + |needle| <= |text| && text[i..i + |needle|] == needle
  }

  /** `text.find(needle, from)`. */
  function Find(text: string, needle: string, from: nat): (r: Option<nat>)
    requires from <= |text|
    ensures r.Some? ==> from <= r.value && OccursAt(text, needle, r.value)
    ensures r.Some? ==> forall i: nat :: from <= i < r.value ==> !OccursAt(text, needle, i)
    ensures r.None? ==> forall i: nat :: from <= i ==> !OccursAt(text, needle, i)
    decreases |text| - from
  {
    if OccursAt(text, needle, from) then Some(from)
    else if from == |text| then None
    else Find(text, needle, from + 1)
  }

  /** `text.count(needle)` from position `from`: occurrences that do not overlap, taken from the left. */
  function Count(text: string, needle: string, from: nat): nat
    requires needle != "" && from <= |text|
    decreases |text| - from
  {
    match Find(text, needle, from)
    case None => 0
    case Some(i) => 1 + Count(text, needle, i + |needle|)
  }

  ghost predicate ExactlyOnce(text: string, needle: string) {
    exists i: nat :: OccursAt(text, needle, i) && forall j: nat :: OccursAt(text, needle, j) ==> j == i
  }

  /** A count of one means: there is an occurrence, and all others overlap the first. */
  lemma {:induction false} CountOne(text: string, needle: string)
    requires needle != ""
    ensures Count(text, needle, 0) == 1 <==>
            exists i: nat :: OccursAt(text, needle, i) && forall j: nat :: OccursAt(text, needle, j) ==>
                i <= j < i + |needle|
  {
    var first := Find(text, needle, 0);
    if first.Some? {
      var i := first.value;
      var next := Find(text, needle, i + |needle|);
      if next.None? {
        forall j: nat | OccursAt(text, needle, j) ensures i <= j < i + |needle| {
        }
      }
      if k: nat :| OccursAt(text, needle, k) && forall j: nat :: OccursAt(text, needle, j) ==> k <= j < k + |needle| {
        assert OccursAt(text, needle, i);
      }
    }
  }

  /** `needle` overlaps a shifted copy of itself. */
  ghost predicate HasBorder(needle: string) {
    exists p: nat :: 0 < p < |needle| && needle[p..] == needle[..|needle| - p]
  }

  lemma {:induction false} OverlapIsBorder(text: string, needle: string, i: nat, j: nat)
    requires OccursAt(text, needle, i) && OccursAt(text, needle, j) && i < j < i + |needle|
    ensures HasBorder(needle)
  {
    var p := j - i;
    assert needle[p..] == text[i..i + |needle|][p..] == text[j..i + |needle|];
    assert needle[..|needle| - p] == text[j..j + |needle|][..|needle| - p] == text[j..i + |needle|];
  }

  lemma {:induction false} BorderHidesOccurrence(needle: string)
    requires HasBorder(needle)
    ensures exists text: string :: Count(text, needle, 0) == 1 && !ExactlyOnce(text, needle)
  {
    var p: nat :| 0 < p < |needle| && needle[p..] == needle[..|needle| - p];
    var text := needle[..p] + needle;
    assert text[..|needle|] == needle[..p] + needle[..|needle| - p];
    assert needle == needle[..p] + needle[p..];
    assert OccursAt(text, needle, 0) && OccursAt(text, needle, p);
    assert Find(text, needle, 0) == Some(0);
    assert Find(text, needle, |needle|).None?;
    assert Count(text, needle, 0) == 1 + Count(text, needle, |needle|);
  }

  lemma {:induction false} UnborderedIsUnique(needle: string, text: string)
    requires needle != "" && !HasBorder(needle) && Count(text, needle, 0) == 1
    ensures ExactlyOnce(text, needle)
  {
    CountOne(text, needle);
    var i: nat :| OccursAt(text, needle, i) && forall j: nat :: OccursAt(text, needle, j) ==> i <= j < i + |needle|;
    forall j: nat | OccursAt(text, needle, j) ensures j == i {
      if i < j {
        OverlapIsBorder(text, needle, i, j);
      }
    }
  }

  /** A count of one proves that the text occurs exactly once, in every text, exactly for texts without a
      border; for the others the count misses an overlapping occurrence. */
  lemma {:induction false} CountOneIsUnique(needle: string)
    requires needle != ""
    ensures (forall text: string :: Count(text, needle, 0) == 1 ==> ExactlyOnce(text, needle)) <==> !HasBorder(needle)
  {
    if HasBorder(needle) {
      BorderHidesOccurrence(needle);
    } else {
      forall text: string | Count(text, needle, 0) == 1 ensures ExactlyOnce(text, needle) {
        UnborderedIsUnique(needle, text);
      }
    }
  }

  // ----- Unique location -----

  /** The wanted lines match the text's lines from line `i`, trailing white space aside. */
  predicate LinesMatchAt(lines: seq<string>, want: seq<string>, i: nat) {
    i + |want| <= |lines| && forall k :: 0 <= k < |want| ==> RStrip(lines[i + k]) == want[k]
  }

  /** The only index with the property, if there is exactly one. */
  function Only(p: nat -> bool, upTo: nat): (r: Option<nat>)
    ensures r.Some? ==> r.value < upTo && p(r.value) && forall i: nat :: i < upTo && p(i) ==> i == r.value
    ensures r.None? ==> forall h: nat :: h < upTo && p(h) ==> exists i: nat :: i < upTo && i != h && p(i)
  {
    if upTo == 0 then None
    else if !p(upTo - 1) then Only(p, upTo - 1)
    else if forall i: nat :: i < upTo - 1 ==> !p(i) then Some(upTo - 1)
    else None
  }

  function Offset(lines: seq<string>, k: nat): nat
    requires k <= |lines|
  {
    |Flatten(lines[..k])|
  }

  function WantedLines(needle: string): seq<string> {
    Map(RStrip, SplitLines(needle))
  }

  /** The only place where the wanted lines match whole lines of the text, if there is exactly one. */
  function UniqueLine(lines: seq<string>, want: seq<string>): Option<nat> {
    if want == [] then None else Only((i: nat) => LinesMatchAt(lines, want, i), |lines| + 1)
  }

  /** The part of the text that these lines take. */
  function RunOf(lines: seq<string>, want: seq<string>): Option<(nat, nat)> {
    match UniqueLine(lines, want)
    case None => None
    case Some(h) => Some((Offset(lines, h), Offset(lines, h + |want|)))
  }

  /** Locate `needle` exactly once; fall back to whole lines compared without trailing white space. */
  function FindUnique(text: string, needle: string): Option<(nat, nat)> {
    if needle != "" && Count(text, needle, 0) == 1 then
      var i := Find(text, needle, 0).value;
      Some((i, i + |needle|))
    else RunOf(SplitKeep(text), WantedLines(needle))
  }

  /** What is found lies in the text; nothing is found if nothing is counted once and no run of lines is unique. */
  lemma {:induction false} FindUniqueSpan(text: string, needle: string)
    ensures match FindUnique(text, needle)
            case Some((a, b)) => a <= b <= |text|
            case None =>
              (needle != "" ==> Count(text, needle, 0) != 1) &&
              UniqueLine(SplitKeep(text), WantedLines(needle)).None?
  {
    if needle != "" && Count(text, needle, 0) == 1 {
    } else {
      RunOfSpan(text, SplitKeep(text), WantedLines(needle));
    }
  }

  lemma {:induction false} RunOfSpan(text: string, lines: seq<string>, want: seq<string>)
    requires lines == SplitKeep(text)
    ensures match RunOf(lines, want)
            case Some((a, b)) => a <= b <= |text|
            case None => UniqueLine(lines, want).None?
  {
    RunSpan(text, want);
  }

  lemma {:induction false} CountedSpan(text: string, needle: string, a: nat, b: nat)
    requires needle != "" && Count(text, needle, 0) == 1 && FindUnique(text, needle) == Some((a, b))
    ensures a <= b <= |text| && text[a..b] == needle && a == Find(text, needle, 0).value
  {
  }

  lemma {:induction false} LinesSpan(text: string, needle: string, a: nat, b: nat)
    requires needle == "" || Count(text, needle, 0) != 1
    requires FindUnique(text, needle) == Some((a, b))
    ensures var lines, want := SplitKeep(text), WantedLines(needle);
            && UniqueLine(lines, want).Some? && a <= b <= |text| && UniqueLine(lines, want).value + |want| <= |lines|
            && text[..a] == Flatten(lines[..UniqueLine(lines, want).value])
            && text[a..b] == Flatten(lines[UniqueLine(lines, want).value..][..|want|])
  {
    RunSpan(text, WantedLines(needle));
  }

  lemma {:induction false} RunSpan(text: string, want: seq<string>)
    ensures var lines := SplitKeep(text);
            UniqueLine(lines, want).Some? ==>
              var h := UniqueLine(lines, want).value;
              && h + |want| <= |lines|
              && Offset(lines, h) <= Offset(lines, h + |want|) <= |text|
              && text[..Offset(lines, h)] == Flatten(lines[..h])
              && text[Offset(lines, h)..Offset(lines, h + |want|)] == Flatten(lines[h..][..|want|])
  {
    var lines := SplitKeep(text);
    if UniqueLine(lines, want).Some? {
      LineRun(text, UniqueLine(lines, want).value, |want|);
    }
  }

  lemma {:induction false} LineRun(text: string, h: nat, n: nat)
    requires h + n <= |SplitKeep(text)|
    ensures var lines := SplitKeep(text);
            && Offset(lines, h) <= Offset(lines, h + n) <= |text|
            && text[..Offset(lines, h)] == Flatten(lines[..h])
            && text[Offset(lines, h)..Offset(lines, h + n)] == Flatten(lines[h..][..n])
  {
    var lines := SplitKeep(text);
    LineSpan(text, h, h + n);
    assert lines[h..][..n] == lines[h..h + n];
  }

  lemma {:induction false} MiddlePart(text: string, a: string, b: string, c: string)
    requires text == a + b + c
    ensures text[..|a|] == a && text[|a|..|a| + |b|] == b && text[|a| + |b|..] == c
  {
  }

  lemma {:induction false} FlattenThree<T>(ss: seq<seq<T>>, i: nat, j: nat)
    requires i <= j <= |ss|
    ensures Flatten(ss) == Flatten(ss[..i]) + Flatten(ss[i..j]) + Flatten(ss[j..])
    ensures Flatten(ss[..j]) == Flatten(ss[..i]) + Flatten(ss[i..j])
  {
    assert ss == ss[..j] + ss[j..] && ss[..j] == ss[..i] + ss[i..j];
    FlattenConcat(ss[..j], ss[j..]);
    FlattenConcat(ss[..i], ss[i..j]);
  }

  lemma {:induction false} LineSpan(text: string, i: nat, j: nat)
    requires i <= j <= |SplitKeep(text)|
    ensures var lines := SplitKeep(text);
            && Offset(lines, i) <= Offset(lines, j) <= |text|
            && text[..Offset(lines, i)] == Flatten(lines[..i])
            && text[Offset(lines, i)..Offset(lines, j)] == Flatten(lines[i..j])
            && text[Offset(lines, j)..] == Flatten(lines[j..])
  {
    var lines := SplitKeep(text);
    SplitKeepFlatten(text);
    FlattenThree(lines, i, j);
    MiddlePart(text, Flatten(lines[..i]), Flatten(lines[i..j]), Flatten(lines[j..]));
  }

  // ----- What is located -----

  /** An occurrence at `i` that every other occurrence overlaps. */
  ghost predicate LoneOccurrence(text: string, needle: string, i: nat) {
    needle != "" && OccursAt(text, needle, i) && forall j: nat :: OccursAt(text, needle, j) ==> i <= j < i + |needle|
  }

  /** The texts are the same but for blanks at their ends. */
  ghost predicate SameButEnds(a: string, b: string) {
    exists kept :: TrimmedEnd(a, kept) && TrimmedEnd(b, kept)
  }

  /** From line `h` on the lines of the text are those of the needle, but for blanks at their ends. */
  ghost predicate RunsFrom(lines: seq<string>, wanted: seq<string>, h: nat) {
    h + |wanted| <= |lines| && forall k :: 0 <= k < |wanted| ==> SameButEnds(lines[h + k], wanted[k])
  }

  /** The lines of the needle, if there are any, run from line `h` of the text, and from no other. */
  ghost predicate OnlyRun(text: string, needle: string, h: nat) {
    needle != "" && RunsFrom(SplitKeep(text), SplitKeep(needle), h) &&
    forall i: nat :: RunsFrom(SplitKeep(text), SplitKeep(needle), i) ==> i == h
  }

  lemma {:induction false} SameByStrip(a: string, b: string)
    ensures SameButEnds(a, b) <==> RStrip(a) == RStrip(b)
  {
    RStripTrims(a);
    RStripTrims(b);
    if SameButEnds(a, b) {
      var kept :| TrimmedEnd(a, kept) && TrimmedEnd(b, kept);
      TrimmedEndUnique(a, kept, RStrip(a));
      TrimmedEndUnique(b, kept, RStrip(b));
    }
  }

  lemma {:induction false} ChompedIsStripped(line: string)
    ensures RStrip(Chomp(line)) == RStrip(line)
  {
    if EndsWith(line, "\n") {
      assert line[|line| - 1..] == "\n";
      assert line[|line| - 1] == '\n';
    }
  }

  lemma {:induction false} RunsByStrip(lines: seq<string>, needle: string, h: nat)
    ensures |WantedLines(needle)| == |SplitKeep(needle)|
    ensures RunsFrom(lines, SplitKeep(needle), h) <==> LinesMatchAt(lines, WantedLines(needle), h)
  {
    var wanted, want := SplitKeep(needle), WantedLines(needle);
    forall k | 0 <= k < |wanted| && h + |wanted| <= |lines|
      ensures SameButEnds(lines[h + k], wanted[k]) <==> RStrip(lines[h + k]) == want[k]
    {
      SameByStrip(lines[h + k], wanted[k]);
      ChompedIsStripped(wanted[k]);
    }
  }

  /** Some run of whole lines is the only one that matches; it is `mid`, after `pre`. */
  ghost predicate LocatedLines(text: string, needle: string, pre: string, mid: string) {
    exists h: nat :: OnlyRun(text, needle, h) &&
      pre == Flatten(SplitKeep(text)[..h]) && mid == Flatten(SplitKeep(text)[h..][..|SplitKeep(needle)|])
  }

  /** `mid`, after `pre`, is the part of the text that is meant by `needle`: its lone occurrence if there is one, and
      else the only run of whole lines that matches it without trailing white space. */
  ghost predicate Located(text: string, needle: string, pre: string, mid: string) {
    if exists i: nat :: LoneOccurrence(text, needle, i) then LoneOccurrence(text, needle, |pre|) && mid == needle
    else LocatedLines(text, needle, pre, mid)
  }

  lemma {:induction false} CountedIsLone(text: string, needle: string)
    requires needle != ""
    ensures Count(text, needle, 0) == 1 ==> LoneOccurrence(text, needle, Find(text, needle, 0).value)
    ensures Count(text, needle, 0) != 1 ==> forall i: nat :: !LoneOccurrence(text, needle, i)
  {
    CountOne(text, needle);
    if Count(text, needle, 0) == 1 {
      var first := Find(text, needle, 0).value;
      var i: nat :| OccursAt(text, needle, i) && forall j: nat :: OccursAt(text, needle, j) ==> i <= j < i + |needle|;
      assert OccursAt(text, needle, first);
      assert first == i;
    }
  }

  lemma {:induction false} UniqueLineIsOnlyRun(text: string, needle: string)
    ensures match UniqueLine(SplitKeep(text), WantedLines(needle))
            case Some(h) => OnlyRun(text, needle, h)
            case None => forall h: nat :: !OnlyRun(text, needle, h)
  {
    var lines, want := SplitKeep(text), WantedLines(needle);
    forall i: nat ensures RunsFrom(lines, SplitKeep(needle), i) <==> LinesMatchAt(lines, want, i) {
      RunsByStrip(lines, needle, i);
    }
    RunsByStrip(lines, needle, 0);
    if needle != "" {
      OnlyMatch(lines, want);
    }
  }

  lemma {:induction false} OnlyMatch(lines: seq<string>, want: seq<string>)
    requires want != []
    ensures match UniqueLine(lines, want)
            case Some(h) => LinesMatchAt(lines, want, h) && forall i: nat :: LinesMatchAt(lines, want, i) ==> i == h
            case None => forall h: nat :: LinesMatchAt(lines, want, h) ==>
                           exists i: nat :: i != h && LinesMatchAt(lines, want, i)
  {
    var p := (i: nat) => LinesMatchAt(lines, want, i);
    match Only(p, |lines| + 1)
    case Some(h) =>
      forall i: nat | LinesMatchAt(lines, want, i) ensures i == h {
        assert p(i);
      }
    case None =>
      forall h: nat | LinesMatchAt(lines, want, h) ensures exists i: nat :: i != h && LinesMatchAt(lines, want, i) {
        assert p(h);
        var i: nat :| i < |lines| + 1 && i != h && p(i);
        assert LinesMatchAt(lines, want, i);
      }
  }

  /** `_find_unique` gives exactly the part of the text that is meant, and nothing exactly when there is neither a lone
      occurrence nor an only run of lines. */
  lemma {:induction false} FindUniqueLocates(text: string, needle: string)
    ensures match FindUnique(text, needle)
            case Some((a, b)) => a <= b <= |text| && Located(text, needle, text[..a], text[a..b])
            case None =>
              && (forall i: nat :: !LoneOccurrence(text, needle, i))
              && (forall h: nat :: !OnlyRun(text, needle, h))
  {
    FindUniqueSpan(text, needle);
    UniqueLineIsOnlyRun(text, needle);
    if needle != "" {
      CountedIsLone(text, needle);
    }
    if FindUnique(text, needle).Some? {
      var (a, b) := FindUnique(text, needle).value;
      SpanIsLocated(text, needle, a, b);
    }
  }

  lemma {:induction false} SpanIsLocated(text: string, needle: string, a: nat, b: nat)
    requires FindUnique(text, needle) == Some((a, b)) && a <= b <= |text|
    ensures Located(text, needle, text[..a], text[a..b])
  {
    if needle != "" {
      CountedIsLone(text, needle);
    }
    if needle != "" && Count(text, needle, 0) == 1 {
      CountedSpan(text, needle, a, b);
    } else {
      LinesSpan(text, needle, a, b);
      UniqueLineIsOnlyRun(text, needle);
      RunsByStrip(SplitKeep(text), needle, 0);
      assert LocatedLines(text, needle, text[..a], text[a..b]);
    }
  }
}
