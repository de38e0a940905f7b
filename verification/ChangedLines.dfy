/** Which lines a pull request changed (backend/services/workspace.py): zero-context diffs are printed and parsed back,
    and findings are tagged by them. */
module ChangedLines {
  import opened Prelude
  import opened Text
  import opened TextSearch
  import opened Findings

  // ----- Numbers -----

  function LeadingDigits(s: string): (n: nat)
    ensures n <= |s|
  {
    if s != "" && IsDigit(s[0]) then 1 + LeadingDigits(s[1..]) else 0
  }

  lemma {:induction false} DecimalRoundTrip(n: nat)
    ensures Decimal(n) != "" && AllDigits(Decimal(n)) && Value(Decimal(n)) == n
  {
    var last := [Digit(n % 10)];
    assert last[..0] == "" && Value("") == 0 && AllDigits("");
    if n >= 10 {
      DecimalRoundTrip(n / 10);
      assert Decimal(n)[..|Decimal(n)| - 1] == Decimal(n / 10);
    }
  }

  lemma {:induction false} DigitsOfPrefix(digits: string, rest: string)
    requires AllDigits(digits) && (rest != "" ==> !IsDigit(rest[0]))
    ensures LeadingDigits(digits + rest) == |digits|
  {
    if digits == "" {
      assert digits + rest == rest;
    } else {
      AllDigitsTail(digits);
      assert (digits + rest)[1..] == digits[1..] + rest;
      DigitsOfPrefix(digits[1..], rest);
    }
  }

  // ----- Hunk headers -----

  /** `start,count`, or `start` alone for a count of one. */
  datatype Span = Span(start: int, count: Option<int>)

  function CountOf(s: Span): int {
    if s.count.Some? then s.count.value else 1
  }

  datatype Parsed<T> = NoMatch | Match(value: T, rest: string)

  function Literal(prefix: string, s: string): Option<string> {
    if prefix <= s then Some(s[|prefix|..]) else None
  }

  /** `\d+` */
  function ParseNumber(s: string): Parsed<int> {
    var n := LeadingDigits(s);
    if n == 0 then NoMatch else Match(Value(s[..n]), s[n..])
  }

  /** `(\d+)(?:,(\d+))?` */
  function ParseSpan(s: string): Parsed<Span> {
    match ParseNumber(s)
    case NoMatch => NoMatch
    case Match(start, rest) =>
      if rest != "" && rest[0] == ',' && ParseNumber(rest[1..]).Match? then
        Match(Span(start, Some(ParseNumber(rest[1..]).value)), ParseNumber(rest[1..]).rest)
      else Match(Span(start, None), rest)
  }

  /** The new side of `HUNK_RE`, after the old side. */
  function ParseNewSide(s: string): Option<Span> {
    match Literal(" +", s)
    case None => None
    case Some(rest) =>
      match ParseSpan(rest)
      case NoMatch => None
      case Match(span, tail) => if Literal(" @@", tail).Some? then Some(span) else None
  }

  /** `HUNK_RE.match(line)`: the span on the new side. */
  function ParseHunk(line: string): Option<Span> {
    match Literal("@@ -", line)
    case None => None
    case Some(rest) =>
      match ParseSpan(rest)
      case NoMatch => None
      case Match(_, tail) => ParseNewSide(tail)
  }

  // ----- Paths and the parser -----

  function ReplaceBackslashes(s: string): string {
    seq(|s|, i requires 0 <= i < |s| => if s[i] == '\\' then '/' else s[i])
  }

  function WithoutPrefix(prefix: string, s: string): string {
    if prefix <= s then s[|prefix|..] else s
  }

  function NormalizePath(path: string): string {
    LStrip(WithoutPrefix("./", ReplaceBackslashes(path)), {'/'})
  }

  /** The texts are equal up to backslashes, which are slashes in the second. */
  predicate Slashed(path: string, s: string) {
    |path| == |s| && forall i :: 0 <= i < |s| ==> s[i] == if path[i] == '\\' then '/' else path[i]
  }

  predicate PlainAfter(path: string, dot: string, front: string, plain: string) {
    && Slashed(path, dot + (front + plain)) && (dot == "./" || (dot == "" && !("./" <= front + plain)))
    && (forall c :: c in front ==> c == '/') && (plain != "" ==> plain[0] != '/')
  }

  /** `plain` is the path with slashes only, without `./` or slashes in front. */
  ghost predicate PlainPath(path: string, plain: string) {
    exists dot, front :: PlainAfter(path, dot, front, plain)
  }

  lemma {:induction false} NormalizedIsPlain(path: string)
    ensures PlainPath(path, NormalizePath(path))
  {
    var s := ReplaceBackslashes(path);
    var rest, plain := WithoutPrefix("./", s), NormalizePath(path);
    LStripDrops(rest, {'/'});
    var front := rest[..|rest| - |plain|];
    assert rest == front + plain;
    var dot := if "./" <= s then "./" else "";
    assert s == dot + (front + plain);
    forall i | 0 <= i < |front| ensures front[i] == '/' {
      assert front[i] == rest[i];
    }
    assert PlainAfter(path, dot, front, plain);
  }

  lemma {:induction false} PlainPathUnique(path: string, a: string, b: string)
    requires PlainPath(path, a) && PlainPath(path, b)
    ensures a == b
  {
    var d, f :| PlainAfter(path, d, f, a);
    var e, g :| PlainAfter(path, e, g, b);
    assert d + (f + a) == e + (g + b);
    SameDot(d, f + a, e, g + b);
    EndsWithRest(f, a);
    EndsWithRest(g, b);
    FrontDroppedUnique(f + a, {'/'}, a, b);
  }

  /** The path that is compared is the plain one. */
  lemma {:induction false} PathIsPlain(path: string, plain: string)
    ensures PlainPath(path, plain) <==> plain == NormalizePath(path)
  {
    NormalizedIsPlain(path);
    if PlainPath(path, plain) {
      PlainPathUnique(path, plain, NormalizePath(path));
    }
  }

  lemma {:induction false} SameDot(d: string, s: string, e: string, t: string)
    requires (d == "./" || d == "") && (e == "./" || e == "") && d + s == e + t
    requires (d == "" ==> !("./" <= s)) && (e == "" ==> !("./" <= t))
    ensures s == t
  {
    assert d == "" ==> d + s == s;
    assert e == "" ==> e + t == t;
    assert (d + s)[|d|..] == s && (e + t)[|e|..] == t;
  }

  lemma {:induction false} EndsWithRest(front: string, rest: string)
    requires (forall c :: c in front ==> c == '/') && (rest != "" ==> rest[0] != '/')
    ensures FrontDropped(front + rest, {'/'}, rest)
  {
    var s := front + rest;
    assert s[|front|..] == rest;
    forall i | 0 <= i < |front| ensures s[i] in {'/'} {
      assert s[i] == front[i] && front[i] in front;
    }
  }

  type LineRanges = map<string, seq<(int, int)>>

  /** The file whose hunks are being read, and the ranges so far. */
  datatype Reader = Reader(current: Option<string>, ranges: LineRanges)

  function RangesFor(ranges: LineRanges, path: string): seq<(int, int)> {
    if path in ranges then ranges[path] else []
  }

  function RangeOf(s: Span): seq<(int, int)> {
    if CountOf(s) > 0 then [(s.start, s.start + CountOf(s) - 1)] else []
  }

  function AddSpan(ranges: LineRanges, path: string, s: Span): LineRanges {
    if CountOf(s) > 0 then ranges[path := RangesFor(ranges, path) + RangeOf(s)] else ranges
  }

  function NewFile(line: string): Option<string> {
    if line == "+++ /dev/null" then None else Some(NormalizePath(WithoutPrefix("b/", line[Min(4, |line|)..])))
  }

  function ReadLine(r: Reader, line: string): Reader {
    if "+++ " <= line then r.(current := NewFile(line))
    else if Truthy(r.current) && ParseHunk(line).Some? then
      r.(ranges := AddSpan(r.ranges, r.current.value, ParseHunk(line).value))
    else r
  }

  function ReadLines(r: Reader, lines: seq<string>): Reader {
    if lines == [] then r else ReadLine(ReadLines(r, lines[..|lines| - 1]), lines[|lines| - 1])
  }

  function Parse(diff: string): LineRanges {
    ReadLines(Reader(None, map[]), SplitLines(diff)).ranges
  }

  method ParseChangedLines(diff: string) returns (result: LineRanges)
    ensures result == Parse(diff)
  {
    result := map[];
    var current: Option<string> := None;
    var lines := SplitLines(diff);
    for i := 0 to |lines|
      invariant Reader(current, result) == ReadLines(Reader(None, map[]), lines[..i])
    {
      var line := lines[i];
      assert lines[..i + 1] == lines[..i] + [line];
      ReadSnoc(Reader(None, map[]), lines[..i], line);
      if "+++ " <= line {
        current := NewFile(line);
      } else if Truthy(current) {
        var m := ParseHunk(line);
        if m.Some? {
          result := AddSpan(result, current.value, m.value);
        }
      }
    }
    assert lines[..|lines|] == lines;
  }

  // ----- Printing a zero-context diff -----

  datatype BodyLine = Removed(text: string) | Added(text: string) | NoNewline

  datatype Hunk = Hunk(before: Span, after: Span, section: string, body: seq<BodyLine>)

  /** Header lines up to the `---` line, the new path if the file still exists, and the hunks. */
  datatype FileDiff = FileDiff(headers: seq<string>, path: Option<string>, hunks: seq<Hunk>)

  function Print(n: int): string {
    if n < 0 then "" else Decimal(n)
  }

  function PrintSpan(s: Span): string {
    Print(s.start) + if s.count.Some? then "," + Print(s.count.value) else ""
  }

  function PrintHeader(h: Hunk): string {
    "@@ -" + (PrintSpan(h.before) + (" +" + (PrintSpan(h.after) + (" @@" + h.section))))
  }

  function PrintBody(b: BodyLine): string {
    match b
    case Removed(text) => "-" + text
    case Added(text) => "+" + text
    case NoNewline => "\\ No newline at end of file"
  }

  function PrintHunk(h: Hunk): seq<string> {
    [PrintHeader(h)] + Map(PrintBody, h.body)
  }

  function PrintHunks(hunks: seq<Hunk>): seq<string> {
    if hunks == [] then [] else PrintHunks(hunks[..|hunks| - 1]) + PrintHunk(hunks[|hunks| - 1])
  }

  function PrintFile(f: FileDiff): seq<string> {
    f.headers + ([if f.path.Some? then "+++ b/" + f.path.value else "+++ /dev/null"] + PrintHunks(f.hunks))
  }

  function PrintFiles(files: seq<FileDiff>): seq<string> {
    if files == [] then [] else PrintFiles(files[..|files| - 1]) + PrintFile(files[|files| - 1])
  }

  function Unlines(lines: seq<string>): string {
    if lines == [] then "" else lines[0] + "\n" + Unlines(lines[1..])
  }

  // ----- What may be printed -----

  predicate ProperSpan(s: Span) {
    s.start >= 0 && (s.count.Some? ==> s.count.value >= 0)
  }

  /** An added line that would be taken for the name of a new file. */
  predicate Disguised(b: BodyLine) {
    b.Added? && "++ " <= b.text
  }

  predicate ProperHunk(h: Hunk) {
    ProperSpan(h.before) && ProperSpan(h.after)
  }

  /** Git's header lines start with a letter or with `---`. */
  predicate ProperHeader(line: string) {
    line != "" && line[0] != '+' && line[0] != '@'
  }

  predicate ProperFile(f: FileDiff) {
    (forall line :: line in f.headers ==> ProperHeader(line)) && forall h :: h in f.hunks ==> ProperHunk(h)
  }

  /** No added line of the file would be taken for a name. */
  predicate Undisguised(f: FileDiff) {
    forall h, b :: h in f.hunks && b in h.body ==> !Disguised(b)
  }

  // ----- Headers round trip -----

  lemma {:induction false} NumberRoundTrip(n: nat, rest: string)
    requires rest != "" ==> !IsDigit(rest[0])
    ensures ParseNumber(Print(n) + rest) == Match(n, rest)
  {
    DecimalRoundTrip(n);
    DigitsOfPrefix(Decimal(n), rest);
    assert (Decimal(n) + rest)[..|Decimal(n)|] == Decimal(n) && (Decimal(n) + rest)[|Decimal(n)|..] == rest;
  }

  lemma {:induction false} SpanRoundTrip(s: Span, rest: string)
    requires ProperSpan(s) && rest != "" && rest[0] == ' '
    ensures ParseSpan(PrintSpan(s) + rest) == Match(s, rest)
  {
    match s.count
    case None =>
      assert PrintSpan(s) + rest == Print(s.start) + rest;
      NumberRoundTrip(s.start, rest);
    case Some(count) =>
      var tail := "," + (Print(count) + rest);
      assert PrintSpan(s) + rest == Print(s.start) + tail;
      NumberRoundTrip(s.start, tail);
      assert tail[1..] == Print(count) + rest;
      NumberRoundTrip(count, rest);
  }

  lemma {:induction false} LiteralRoundTrip(prefix: string, rest: string)
    ensures Literal(prefix, prefix + rest) == Some(rest)
  {
  }

  /** A printed hunk header is read back as the span of its new side. */
  lemma {:induction false} HeaderRoundTrip(h: Hunk)
    requires ProperSpan(h.before) && ProperSpan(h.after)
    ensures ParseHunk(PrintHeader(h)) == Some(h.after)
  {
    var end := " @@" + h.section;
    var side := " +" + (PrintSpan(h.after) + end);
    LiteralRoundTrip("@@ -", PrintSpan(h.before) + side);
    SpanRoundTrip(h.before, side);
    LiteralRoundTrip(" +", PrintSpan(h.after) + end);
    SpanRoundTrip(h.after, end);
    LiteralRoundTrip(" @@", h.section);
  }

  // ----- Lines that are not headers -----

  lemma {:induction false} FirstCharDecides(line: string, r: Reader)
    requires line == "" || (line[0] != '+' && line[0] != '@')
    ensures ReadLine(r, line) == r
  {
    assert "+++ "[0] == '+' && "@@ -"[0] == '@';
  }

  /** The name that counts after some body lines: the last one that they seem to give. */
  function NameAfter(name: Option<string>, body: seq<BodyLine>): Option<string> {
    if body == [] then name
    else
      var last := body[|body| - 1];
      if Disguised(last) then NewFile(PrintBody(last)) else NameAfter(name, body[..|body| - 1])
  }

  lemma {:induction false} BodyIsRead(b: BodyLine, r: Reader)
    ensures ReadLine(r, PrintBody(b)) == if Disguised(b) then r.(current := NewFile(PrintBody(b))) else r
  {
    match b
    case Removed(text) => FirstCharDecides(PrintBody(b), r);
    case NoNewline => FirstCharDecides(PrintBody(b), r);
    case Added(text) =>
      var line := "+" + text;
      AddedLine(text);
      assert line[0] == '+' && "@@ -"[0] == '@';
  }

  lemma {:induction false} AddedLine(text: string)
    ensures "+++ " <= "+" + text <==> "++ " <= text
  {
    var line := "+" + text;
    if "++ " <= text {
      assert line[0] == '+' && line[1] == text[0] && line[2] == text[1] && line[3] == text[2];
    }
    if "+++ " <= line {
      assert text[0] == line[1] && text[1] == line[2] && text[2] == line[3];
    }
  }

  lemma {:induction false} ReadSnoc(r: Reader, lines: seq<string>, line: string)
    ensures ReadLines(r, lines + [line]) == ReadLine(ReadLines(r, lines), line)
  {
    assert (lines + [line])[..|lines|] == lines;
  }

  lemma {:induction false} ReadConcat(r: Reader, a: seq<string>, b: seq<string>)
    ensures ReadLines(r, a + b) == ReadLines(ReadLines(r, a), b)
  {
    if b == [] {
      assert a + b == a;
    } else {
      var init, last := b[..|b| - 1], b[|b| - 1];
      assert a + b == (a + init) + [last];
      ReadConcat(r, a, init);
      ReadSnoc(r, a + init, last);
    }
  }

  lemma {:induction false} ReadOne(r: Reader, line: string)
    ensures ReadLines(r, [line]) == ReadLine(r, line)
  {
    assert [line][..0] == [];
  }

  lemma {:induction false} BodiesAreRead(r: Reader, body: seq<BodyLine>)
    ensures ReadLines(r, Map(PrintBody, body)) == r.(current := NameAfter(r.current, body))
  {
    if body != [] {
      var n := |body| - 1;
      var lines := Map(PrintBody, body);
      assert lines[..n] == Map(PrintBody, body[..n]);
      BodiesAreRead(r, body[..n]);
      BodyIsRead(body[n], ReadLines(r, lines[..n]));
    }
  }

  lemma {:induction false} HeadersAreSkipped(r: Reader, headers: seq<string>)
    requires forall line :: line in headers ==> ProperHeader(line)
    ensures ReadLines(r, headers) == r
  {
    if headers != [] {
      var n := |headers| - 1;
      HeadersAreSkipped(r, headers[..n]);
      assert ProperHeader(headers[n]);
      FirstCharDecides(headers[n], r);
    }
  }

  // ----- Files round trip -----

  /** The ranges of some hunks. */
  function HunkRanges(hunks: seq<Hunk>): seq<(int, int)> {
    if hunks == [] then [] else HunkRanges(hunks[..|hunks| - 1]) + RangeOf(hunks[|hunks| - 1].after)
  }

  /** Where the hunks of a file belong; nowhere if the file is gone or its path is empty. */
  function Owner(f: FileDiff): Option<string> {
    if f.path.Some? && NormalizePath(f.path.value) != "" then Some(NormalizePath(f.path.value)) else None
  }

  /** The changed ranges of a path: those of the hunks of its files, in order. */
  function ExpectedFor(files: seq<FileDiff>, path: string): seq<(int, int)> {
    if files == [] then []
    else
      var last := files[|files| - 1];
      ExpectedFor(files[..|files| - 1], path) + if Owner(last) == Some(path) then HunkRanges(last.hunks) else []
  }

  /** The name that counts after some hunks. */
  function NameAt(name: Option<string>, hunks: seq<Hunk>): Option<string> {
    if hunks == [] then name else NameAfter(NameAt(name, hunks[..|hunks| - 1]), hunks[|hunks| - 1].body)
  }

  /** The path that a hunk is credited to under a name. */
  function Credit(name: Option<string>): Option<string> {
    if Truthy(name) then name else None
  }

  /** The ranges of the hunks that are credited to a path. */
  function CreditedIn(name: Option<string>, hunks: seq<Hunk>, path: string): seq<(int, int)> {
    if hunks == [] then []
    else
      var init, last := hunks[..|hunks| - 1], hunks[|hunks| - 1];
      CreditedIn(name, init, path) + if Credit(NameAt(name, init)) == Some(path) then RangeOf(last.after) else []
  }

  function FirstName(f: FileDiff): Option<string> {
    if f.path.Some? then Some(NormalizePath(f.path.value)) else None
  }

  function CreditedFor(files: seq<FileDiff>, path: string): seq<(int, int)> {
    if files == [] then []
    else
      var last := files[|files| - 1];
      CreditedFor(files[..|files| - 1], path) + CreditedIn(FirstName(last), last.hunks, path)
  }

  /** Paths are present exactly if they have ranges. */
  predicate Present(ranges: LineRanges, path: string) {
    path in ranges <==> RangesFor(ranges, path) != []
  }

  lemma {:induction false} HunkIsRead(r: Reader, h: Hunk)
    requires ProperHunk(h)
    ensures ReadLines(r, PrintHunk(h)) ==
            Reader(NameAfter(r.current, h.body),
                   if Truthy(r.current) then AddSpan(r.ranges, r.current.value, h.after) else r.ranges)
  {
    var reading := ReadLine(r, PrintHeader(h));
    ReadConcat(r, [PrintHeader(h)], Map(PrintBody, h.body));
    ReadOne(r, PrintHeader(h));
    HeaderRoundTrip(h);
    assert PrintHeader(h)[0] == '@' && "+++ "[0] == '+';
    BodiesAreRead(reading, h.body);
  }

  lemma {:induction false} AddSpanFor(ranges: LineRanges, name: Option<string>, s: Span, path: string)
    requires Present(ranges, path)
    ensures var next := if Truthy(name) then AddSpan(ranges, name.value, s) else ranges;
            && RangesFor(next, path)
               == RangesFor(ranges, path) + (if Credit(name) == Some(path) then RangeOf(s) else [])
            && Present(next, path)
  {
    assert RangesFor(ranges, path) + [] == RangesFor(ranges, path);
  }

  lemma {:induction false} HunkAddsCredit(r: Reader, h: Hunk, path: string)
    requires ProperHunk(h) && Present(r.ranges, path)
    ensures var after := ReadLines(r, PrintHunk(h));
            && after.current == NameAfter(r.current, h.body) && Present(after.ranges, path)
            && RangesFor(after.ranges, path) ==
                 RangesFor(r.ranges, path) + (if Credit(r.current) == Some(path) then RangeOf(h.after) else [])
  {
    HunkIsRead(r, h);
    AddSpanFor(r.ranges, r.current, h.after, path);
  }

  lemma {:induction false} HunksAreRead(r: Reader, hunks: seq<Hunk>, path: string)
    requires (forall h :: h in hunks ==> ProperHunk(h)) && Present(r.ranges, path)
    ensures var after := ReadLines(r, PrintHunks(hunks));
            && after.current == NameAt(r.current, hunks) && Present(after.ranges, path)
            && RangesFor(after.ranges, path) == RangesFor(r.ranges, path) + CreditedIn(r.current, hunks, path)
  {
    if hunks == [] {
      assert RangesFor(r.ranges, path) + [] == RangesFor(r.ranges, path);
    } else {
      var init, last := hunks[..|hunks| - 1], hunks[|hunks| - 1];
      HunksAreRead(r, init, path);
      var mid := ReadLines(r, PrintHunks(init));
      ReadConcat(r, PrintHunks(init), PrintHunk(last));
      HunkAddsCredit(mid, last, path);
      ConcatThree(RangesFor(r.ranges, path), CreditedIn(r.current, init, path),
                  if Credit(mid.current) == Some(path) then RangeOf(last.after) else []);
    }
  }

  lemma {:induction false} NameLine(path: string)
    ensures "+++ " <= "+++ b/" + path && "+++ b/" + path != "+++ /dev/null"
    ensures NewFile("+++ b/" + path) == Some(NormalizePath(path))
  {
    var line := "+++ b/" + path;
    assert line[4] == 'b' && "+++ /dev/null"[4] == '/';
    assert line[4..] == "b/" + path;
    assert ("b/" + path)[2..] == path;
  }

  lemma {:induction false} FileIsOpened(r: Reader, path: Option<string>)
    ensures var line := if path.Some? then "+++ b/" + path.value else "+++ /dev/null";
            ReadLine(r, line) == r.(current := if path.Some? then Some(NormalizePath(path.value)) else None)
  {
    if path.Some? {
      NameLine(path.value);
    }
  }

  lemma {:induction false} FileIsRead(r: Reader, f: FileDiff, path: string)
    requires ProperFile(f) && Present(r.ranges, path)
    ensures var after := ReadLines(r, PrintFile(f)).ranges;
            && Present(after, path)
            && RangesFor(after, path) == RangesFor(r.ranges, path) + CreditedIn(FirstName(f), f.hunks, path)
  {
    var name := if f.path.Some? then "+++ b/" + f.path.value else "+++ /dev/null";
    var reading := ReadLine(r, name);
    ReadConcat(r, f.headers, [name] + PrintHunks(f.hunks));
    HeadersAreSkipped(r, f.headers);
    ReadConcat(r, [name], PrintHunks(f.hunks));
    ReadOne(r, name);
    FileIsOpened(r, f.path);
    HunksAreRead(reading, f.hunks, path);
  }

  lemma {:induction false} FilesAreRead(files: seq<FileDiff>, path: string)
    requires forall f :: f in files ==> ProperFile(f)
    ensures var ranges := ReadLines(Reader(None, map[]), PrintFiles(files)).ranges;
            RangesFor(ranges, path) == CreditedFor(files, path) && Present(ranges, path)
  {
    if files != [] {
      var init, last := files[..|files| - 1], files[|files| - 1];
      FilesAreRead(init, path);
      ReadConcat(Reader(None, map[]), PrintFiles(init), PrintFile(last));
      FileIsRead(ReadLines(Reader(None, map[]), PrintFiles(init)), last, path);
    }
  }

  // ----- Text round trip -----

  predicate OneLine(s: string) {
    forall i :: 0 <= i < |s| ==> s[i] != '\n'
  }

  lemma {:induction false} FirstLineLength(line: string, rest: string)
    requires OneLine(line)
    ensures LineLength(line + "\n" + rest) == |line| + 1
  {
    var t := line + "\n" + rest;
    if line != "" {
      assert t[0] == line[0] && t[1..] == line[1..] + "\n" + rest;
      FirstLineLength(line[1..], rest);
    } else {
      assert t[0] == '\n';
    }
  }

  lemma {:induction false} SplitFirst(line: string, rest: string)
    requires OneLine(line)
    ensures SplitLines(line + "\n" + rest) == [line] + SplitLines(rest)
  {
    var t := line + "\n" + rest;
    FirstLineLength(line, rest);
    assert t[..|line| + 1] == line + "\n" && t[|line| + 1..] == rest;
    assert SplitKeep(t) == [line + "\n"] + SplitKeep(rest);
    assert (line + "\n")[|line|..] == "\n" && (line + "\n")[..|line|] == line;
    assert Chomp(line + "\n") == line;
    assert ([line + "\n"] + SplitKeep(rest))[1..] == SplitKeep(rest);
  }

  lemma {:induction false} SplitUnlines(lines: seq<string>)
    requires forall line :: line in lines ==> OneLine(line)
    ensures SplitLines(Unlines(lines)) == lines
  {
    if lines == [] {
      assert SplitKeep("") == [];
    } else {
      SplitUnlines(lines[1..]);
      SplitFirst(lines[0], Unlines(lines[1..]));
      assert lines == [lines[0]] + lines[1..];
    }
  }

  /** What may be printed as a diff. */
  predicate Printable(files: seq<FileDiff>) {
    (forall f :: f in files ==> ProperFile(f)) && forall line :: line in PrintFiles(files) ==> OneLine(line)
  }

  /** For every diff: each path gets exactly the ranges of the hunks that are credited to it, in order, and a hunk is
      credited to the last name before it in its file, be it the file's own or one that an added line seems to give. */
  lemma {:induction false} CreditsAreExact(files: seq<FileDiff>, path: string)
    requires Printable(files)
    ensures var ranges := Parse(Unlines(PrintFiles(files)));
            RangesFor(ranges, path) == CreditedFor(files, path) && (path in ranges <==> CreditedFor(files, path) != [])
  {
    SplitUnlines(PrintFiles(files));
    FilesAreRead(files, path);
  }

  /** Every hunk that has lines on the new side stands under a name that credits it to its own file. */
  predicate RightlyNamed(f: FileDiff) {
    forall k :: 0 <= k < |f.hunks| && CountOf(f.hunks[k].after) > 0 ==>
      Credit(NameAt(FirstName(f), f.hunks[..k])) == Owner(f)
  }

  function OwnedIn(f: FileDiff, path: string): seq<(int, int)> {
    if Owner(f) == Some(path) then HunkRanges(f.hunks) else []
  }

  lemma {:induction false} NameWithoutDisguise(name: Option<string>, hunks: seq<Hunk>)
    requires forall h, b :: h in hunks && b in h.body ==> !Disguised(b)
    ensures NameAt(name, hunks) == name
  {
    if hunks != [] {
      var n := |hunks| - 1;
      assert hunks[n] in hunks;
      NameWithoutDisguise(name, hunks[..n]);
      BodyWithoutDisguise(name, hunks[n].body);
    }
  }

  lemma {:induction false} BodyWithoutDisguise(name: Option<string>, body: seq<BodyLine>)
    requires forall b :: b in body ==> !Disguised(b)
    ensures NameAfter(name, body) == name
  {
    if body != [] {
      assert body[|body| - 1] in body;
      BodyWithoutDisguise(name, body[..|body| - 1]);
    }
  }

  /** In a file without disguised lines no hunk is credited elsewhere. */
  lemma {:induction false} UndisguisedIsRight(f: FileDiff)
    requires Undisguised(f)
    ensures RightlyNamed(f)
  {
    forall k | 0 <= k < |f.hunks| ensures NameAt(FirstName(f), f.hunks[..k]) == FirstName(f) {
      NameWithoutDisguise(FirstName(f), f.hunks[..k]);
    }
  }

  /** How the credited ranges of the first `k` hunks compare with the ranges these hunks have. */
  lemma {:induction false} CreditsOfRight(name: Option<string>, hunks: seq<Hunk>, owner: Option<string>, path: string)
    requires forall k :: 0 <= k < |hunks| && CountOf(hunks[k].after) > 0 ==> Credit(NameAt(name, hunks[..k])) == owner
    ensures CreditedIn(name, hunks, path) == if owner == Some(path) then HunkRanges(hunks) else []
  {
    if hunks != [] {
      var n := |hunks| - 1;
      var init := hunks[..n];
      forall k | 0 <= k < n ensures init[..k] == hunks[..k] && init[k] == hunks[k] {
      }
      CreditsOfRight(name, init, owner, path);
      assert [] + RangeOf(hunks[n].after) == RangeOf(hunks[n].after);
    }
  }

  lemma {:induction false} CreditsAreFew(name: Option<string>, hunks: seq<Hunk>, path: string)
    ensures |CreditedIn(name, hunks, path)| <= |HunkRanges(hunks)|
  {
    if hunks != [] {
      CreditsAreFew(name, hunks[..|hunks| - 1], path);
    }
  }

  lemma {:induction false} LastIsCredited(name: Option<string>, hunks: seq<Hunk>, path: string)
    requires hunks != [] && |CreditedIn(name, hunks, path)| == |HunkRanges(hunks)|
    ensures var init, last := hunks[..|hunks| - 1], hunks[|hunks| - 1];
            && |CreditedIn(name, init, path)| == |HunkRanges(init)|
            && (RangeOf(last.after) != [] ==> Credit(NameAt(name, init)) == Some(path))
  {
    CreditsAreFew(name, hunks[..|hunks| - 1], path);
  }

  /** If a path is credited with every range of the hunks, each hunk with new lines stands under it. */
  lemma {:induction false} CreditsAreAll(name: Option<string>, hunks: seq<Hunk>, path: string, k: nat)
    requires |CreditedIn(name, hunks, path)| == |HunkRanges(hunks)|
    requires k < |hunks| && RangeOf(hunks[k].after) != []
    ensures Credit(NameAt(name, hunks[..k])) == Some(path)
  {
    var n := |hunks| - 1;
    LastIsCredited(name, hunks, path);
    if k < n {
      assert hunks[..n][..k] == hunks[..k];
      CreditsAreAll(name, hunks[..n], path, k);
    }
  }

  lemma {:induction false} CreditedSomewhere(name: Option<string>, hunks: seq<Hunk>, k: nat, path: string)
    requires k < |hunks| && CountOf(hunks[k].after) > 0 && Credit(NameAt(name, hunks[..k])) == Some(path)
    ensures CreditedIn(name, hunks, path) != []
  {
    var n := |hunks| - 1;
    if k < n {
      assert hunks[..n][..k] == hunks[..k];
      CreditedSomewhere(name, hunks[..n], k, path);
    }
  }

  /** A file is read right, for every path, exactly if its hunks stand under rightful names. */
  lemma {:induction false} FileIsRightExactly(f: FileDiff)
    ensures RightlyNamed(f) <==> forall path :: CreditedIn(FirstName(f), f.hunks, path) == OwnedIn(f, path)
  {
    if RightlyNamed(f) {
      forall path ensures CreditedIn(FirstName(f), f.hunks, path) == OwnedIn(f, path) {
        CreditsOfRight(FirstName(f), f.hunks, Owner(f), path);
      }
    }
    if forall path :: CreditedIn(FirstName(f), f.hunks, path) == OwnedIn(f, path) {
      forall k | 0 <= k < |f.hunks| && CountOf(f.hunks[k].after) > 0
        ensures Credit(NameAt(FirstName(f), f.hunks[..k])) == Owner(f)
      {
        var credited := Credit(NameAt(FirstName(f), f.hunks[..k]));
        if credited.Some? {
          CreditedSomewhere(FirstName(f), f.hunks, k, credited.value);
          assert OwnedIn(f, credited.value) != [];
        } else if Owner(f).Some? {
          assert CreditedIn(FirstName(f), f.hunks, Owner(f).value) == HunkRanges(f.hunks);
          CreditsAreAll(FirstName(f), f.hunks, Owner(f).value, k);
        }
      }
    }
  }

  lemma {:induction false} RightFilesAreExpected(files: seq<FileDiff>, path: string)
    requires forall f :: f in files ==> RightlyNamed(f)
    ensures CreditedFor(files, path) == ExpectedFor(files, path)
  {
    if files != [] {
      var last := files[|files| - 1];
      assert last in files;
      RightFilesAreExpected(files[..|files| - 1], path);
      CreditsOfRight(FirstName(last), last.hunks, Owner(last), path);
    }
  }

  /** The round trip: parsing a printed zero-context diff gives, for every path, exactly the ranges of the hunks of its
      files that have lines on the new side, in order, where an omitted count means one; no other path gets a range. */
  lemma {:induction false} DiffRoundTrip(files: seq<FileDiff>, path: string)
    requires Printable(files) && forall f :: f in files ==> RightlyNamed(f)
    ensures var ranges := Parse(Unlines(PrintFiles(files)));
            RangesFor(ranges, path) == ExpectedFor(files, path) && (path in ranges <==> ExpectedFor(files, path) != [])
  {
    CreditsAreExact(files, path);
    RightFilesAreExpected(files, path);
  }

  /** The diff is read right up to every file boundary. */
  ghost predicate ReadRight(files: seq<FileDiff>) {
    forall k, path :: 0 <= k <= |files| ==>
      RangesFor(Parse(Unlines(PrintFiles(files[..k]))), path) == ExpectedFor(files[..k], path)
  }

  lemma {:induction false} PrefixIsPrintable(files: seq<FileDiff>, k: nat)
    requires Printable(files) && k <= |files|
    ensures Printable(files[..k])
  {
    if k < |files| {
      var init := files[..|files| - 1];
      assert files == init + [files[|files| - 1]];
      PrefixIsPrintable(init, k);
      assert init[..k] == files[..k];
    } else {
      assert files[..k] == files;
    }
  }

  /** Reading a printed diff gives the right ranges up to every file boundary exactly if in every file the hunks stand
      under rightful names: after an added line that looks like a name, hunks with new lines may follow only if that
      name is the file's own. */
  lemma {:induction false} DiffIsRightExactly(files: seq<FileDiff>)
    requires Printable(files)
    ensures ReadRight(files) <==> forall i :: 0 <= i < |files| ==> RightlyNamed(files[i])
  {
    forall k, path | 0 <= k <= |files|
      ensures RangesFor(Parse(Unlines(PrintFiles(files[..k]))), path) == CreditedFor(files[..k], path)
    {
      PrefixIsPrintable(files, k);
      CreditsAreExact(files[..k], path);
    }
    if forall i :: 0 <= i < |files| ==> RightlyNamed(files[i]) {
      forall k, path | 0 <= k <= |files| ensures CreditedFor(files[..k], path) == ExpectedFor(files[..k], path) {
        forall f | f in files[..k] ensures RightlyNamed(f) {
        }
        RightFilesAreExpected(files[..k], path);
      }
    }
    if ReadRight(files) {
      forall i | 0 <= i < |files| ensures RightlyNamed(files[i]) {
        AllAreRight(files, i);
      }
    }
  }

  lemma {:induction false} AllAreRight(files: seq<FileDiff>, i: nat)
    requires i < |files|
    requires forall k, path :: 0 <= k <= |files| ==> CreditedFor(files[..k], path) == ExpectedFor(files[..k], path)
    ensures RightlyNamed(files[i])
  {
    forall path ensures CreditedIn(FirstName(files[i]), files[i].hunks, path) == OwnedIn(files[i], path) {
      assert files[..i + 1][..i] == files[..i];
      LastFileIsRight(files[..i + 1], path);
    }
    FileIsRightExactly(files[i]);
  }

  lemma {:induction false} LastFileIsRight(files: seq<FileDiff>, path: string)
    requires files != [] && CreditedFor(files, path) == ExpectedFor(files, path)
    requires CreditedFor(files[..|files| - 1], path) == ExpectedFor(files[..|files| - 1], path)
    ensures var last := files[|files| - 1]; CreditedIn(FirstName(last), last.hunks, path) == OwnedIn(last, path)
  {
    var last := files[|files| - 1];
    var before := CreditedFor(files[..|files| - 1], path);
    SameTail(before, CreditedIn(FirstName(last), last.hunks, path), OwnedIn(last, path));
  }

  lemma {:induction false} SameTail<T>(a: seq<T>, b: seq<T>, c: seq<T>)
    requires a + b == a + c
    ensures b == c
  {
    assert (a + b)[|a|..] == b && (a + c)[|a|..] == c;
  }

  /** After an added line that starts with `++ b/`, the next hunk is credited to the path that follows. */
  lemma {:induction false} DisguisedLineStealsHunk(r: Reader, stolen: string, h: Hunk)
    requires ProperHunk(h) && NormalizePath(stolen) != ""
    ensures var line := PrintBody(Added("++ b/" + stolen));
            ReadLines(r, [line] + PrintHunk(h)) ==
            Reader(NameAfter(Some(NormalizePath(stolen)), h.body), AddSpan(r.ranges, NormalizePath(stolen), h.after))
  {
    var line := PrintBody(Added("++ b/" + stolen));
    assert line == "+++ b/" + stolen;
    NameLine(stolen);
    ReadConcat(r, [line], PrintHunk(h));
    ReadOne(r, line);
    HunkIsRead(ReadLine(r, line), h);
  }

  // ----- Scope -----

  predicate Meets(f: Finding, ranges: seq<(int, int)>) {
    exists range :: range in ranges && f.line <= range.1 && EndOf(f) >= range.0
  }

  function Tagged(f: Finding, changed: LineRanges): Finding {
    f.(prScope := if Meets(f, RangesFor(changed, NormalizePath(f.file))) then New else Existing)
  }

  method TagPrScope(findings: seq<Finding>, changed: LineRanges) returns (out: seq<Finding>)
    ensures |out| == |findings| && forall i :: 0 <= i < |out| ==> out[i] == Tagged(findings[i], changed)
  {
    out := [];
    for i := 0 to |findings|
      invariant |out| == i && forall k :: 0 <= k < i ==> out[k] == Tagged(findings[k], changed)
    {
      out := out + [Tagged(findings[i], changed)];
    }
  }

  /** Line `n` is one of those that the hunk has on the new side; without a count it has one. */
  predicate HasLine(h: Hunk, n: int) {
    match h.after.count
    case None => n == h.after.start
    case Some(count) => h.after.start <= n < h.after.start + count
  }

  /** The last line of the finding; without one, or with none but 0, it is on one line. */
  function LastLine(f: Finding): int {
    match f.endLine
    case None => f.line
    case Some(last) => if last == 0 then f.line else last
  }

  /** The hunk has a line at or below the first line of the finding, and one at or above its last. */
  ghost predicate MeetsHunk(f: Finding, h: Hunk) {
    && (exists n :: HasLine(h, n) && f.line <= n)
    && (exists n :: HasLine(h, n) && n <= LastLine(f))
  }

  lemma {:induction false} MeetsExactly(f: Finding, h: Hunk)
    ensures MeetsHunk(f, h) <==>
            CountOf(h.after) > 0 && f.line <= h.after.start + CountOf(h.after) - 1 && EndOf(f) >= h.after.start
  {
    var first, last := h.after.start, h.after.start + CountOf(h.after) - 1;
    if CountOf(h.after) > 0 && f.line <= last && EndOf(f) >= first {
      assert HasLine(h, first) && HasLine(h, last);
    }
    if MeetsHunk(f, h) {
      var n :| HasLine(h, n) && f.line <= n;
    }
  }

  /** A finding is new exactly when its lines meet the lines that some hunk of its file has on the new side. */
  lemma {:induction false} NewIffHunkIsMet(files: seq<FileDiff>, f: Finding)
    requires Printable(files) && forall file :: file in files ==> RightlyNamed(file)
    ensures Tagged(f, Parse(Unlines(PrintFiles(files)))).prScope == New <==>
            exists file, h :: file in files && h in file.hunks && Owner(file) == Some(NormalizePath(f.file)) &&
                              MeetsHunk(f, h)
  {
    var path := NormalizePath(f.file);
    DiffRoundTrip(files, path);
    if exists file, h :: file in files && h in file.hunks && Owner(file) == Some(path) && MeetsHunk(f, h) {
      var file, h :| file in files && h in file.hunks && Owner(file) == Some(path) && MeetsHunk(f, h);
      MeetsExactly(f, h);
      ExpectedHolds(files, path, file, h);
    }
    if Meets(f, ExpectedFor(files, path)) {
      var range :| range in ExpectedFor(files, path) && f.line <= range.1 && EndOf(f) >= range.0;
      var file, h := ExpectedComes(files, path, range);
      MeetsExactly(f, h);
    }
  }

  lemma {:induction false} ExpectedHolds(files: seq<FileDiff>, path: string, file: FileDiff, h: Hunk)
    requires file in files && h in file.hunks && Owner(file) == Some(path) && CountOf(h.after) > 0
    ensures (h.after.start, h.after.start + CountOf(h.after) - 1) in ExpectedFor(files, path)
  {
    var n := |files| - 1;
    if file == files[n] {
      RangeOfHunk(file.hunks, h);
    } else {
      assert files == files[..n] + [files[n]];
      ExpectedHolds(files[..n], path, file, h);
    }
  }

  lemma {:induction false} RangeOfHunk(hunks: seq<Hunk>, h: Hunk)
    requires h in hunks && CountOf(h.after) > 0
    ensures (h.after.start, h.after.start + CountOf(h.after) - 1) in HunkRanges(hunks)
  {
    var n := |hunks| - 1;
    if h != hunks[n] {
      assert hunks == hunks[..n] + [hunks[n]];
      RangeOfHunk(hunks[..n], h);
    }
  }

  lemma {:induction false} ExpectedComes(files: seq<FileDiff>, path: string, range: (int, int))
    returns (file: FileDiff, h: Hunk)
    requires range in ExpectedFor(files, path)
    ensures file in files && h in file.hunks && Owner(file) == Some(path) && CountOf(h.after) > 0
    ensures range == (h.after.start, h.after.start + CountOf(h.after) - 1)
  {
    var n := |files| - 1;
    var last := files[n];
    assert files == files[..n] + [last];
    if range in ExpectedFor(files[..n], path) {
      file, h := ExpectedComes(files[..n], path, range);
    } else {
      assert Owner(last) == Some(path) && range in HunkRanges(last.hunks);
      file := last;
      h := HunkOfRange(file.hunks, range);
    }
  }

  lemma {:induction false} HunkOfRange(hunks: seq<Hunk>, range: (int, int)) returns (h: Hunk)
    requires range in HunkRanges(hunks)
    ensures h in hunks && CountOf(h.after) > 0 && range == (h.after.start, h.after.start + CountOf(h.after) - 1)
  {
    var n := |hunks| - 1;
    if range in HunkRanges(hunks[..n]) {
      h := HunkOfRange(hunks[..n], range);
    } else {
      h := hunks[n];
    }
  }
}
