/** The string operations of Python that the code relies on, over sequences of characters.
    Line splitting is on `\n` only and letter case is ASCII. */
module Text {
  import opened Prelude

  predicate IsSpace(c: char) {
    c == ' ' || '\t' <= c <= '\r' || '\U{1c}' <= c <= '\U{1f}'
  }

  predicate IsDigit(c: char) {
    '0' <= c <= '9'
  }

  /** `s[:n]`. */
  function Cut(s: string, n: nat): string {
    if |s| <= n then s else s[..n]
  }

  /** `start` is the text up to its `n`th character. */
  predicate StartOf(s: string, n: nat, start: string) {
    start <= s && (|start| == n || (start == s && |s| < n))
  }

  /** `sum(map(len, texts))`. */
  function SumLengths(texts: seq<string>): nat {
    if texts == [] then 0 else |texts[0]| + SumLengths(texts[1..])
  }

  lemma {:induction false} LengthOfJoined(texts: seq<string>)
    ensures SumLengths(texts) == |Flatten(texts)|
  {
    if texts != [] {
      LengthOfJoined(texts[1..]);
    }
  }

  function LStrip(s: string, drop: set<char>): string {
    if s != "" && s[0] in drop then LStrip(s[1..], drop) else s
  }

  /** `rest` is `s` without the characters of `drop` at its front. */
  ghost predicate FrontDropped(s: string, drop: set<char>, rest: string) {
    && EndsWith(s, rest) && (forall i :: 0 <= i < |s| - |rest| ==> s[i] in drop)
    && (rest != "" ==> rest[0] !in drop)
  }

  lemma {:induction false} LStripDrops(s: string, drop: set<char>)
    ensures FrontDropped(s, drop, LStrip(s, drop))
  {
    if s != "" && s[0] in drop {
      var rest := LStrip(s, drop);
      LStripDrops(s[1..], drop);
      EndsWithTail(s, rest);
      forall i | 0 < i < |s| - |rest| ensures s[i] in drop {
        assert s[i] == s[1..][i - 1];
      }
    }
  }

  lemma {:induction false} FrontDroppedUnique(s: string, drop: set<char>, a: string, b: string)
    requires FrontDropped(s, drop, a) && FrontDropped(s, drop, b)
    ensures a == b
  {
    if |a| < |b| {
      LongerStartsInside(s, drop, a, b);
    } else if |b| < |a| {
      LongerStartsInside(s, drop, b, a);
    }
  }

  lemma {:induction false} LongerStartsInside(s: string, drop: set<char>, a: string, b: string)
    requires FrontDropped(s, drop, a) && EndsWith(s, b) && |a| < |b|
    ensures b[0] in drop
  {
    assert b[0] == s[|s| - |b|];
  }

  function RStrip(s: string): string {
    if s != "" && IsSpace(s[|s| - 1]) then RStrip(s[..|s| - 1]) else s
  }

  function RStripNewlines(s: string): string {
    if s != "" && s[|s| - 1] == '\n' then RStripNewlines(s[..|s| - 1]) else s
  }

  function LStripSpace(s: string): string {
    if s != "" && IsSpace(s[0]) then LStripSpace(s[1..]) else s
  }

  function Strip(s: string): string {
    LStripSpace(RStrip(s))
  }

  /** ASCII white space and the four separators that Python strips. */
  const BLANKS := {' ', '\t', '\n', '\U{b}', '\U{c}', '\r', '\U{1c}', '\U{1d}', '\U{1e}', '\U{1f}'}

  ghost predicate AllBlank(s: string) {
    forall c :: c in s ==> c in BLANKS
  }

  /** `kept` is `s` without the blanks at its end. */
  ghost predicate TrimmedEnd(s: string, kept: string) {
    kept <= s && AllBlank(s[|kept|..]) && (kept != "" ==> kept[|kept| - 1] !in BLANKS)
  }

  /** `kept` is `s` without the blanks around it. */
  ghost predicate Trimmed(s: string, kept: string) {
    exists before, after :: s == before + kept + after && AllBlank(before) && AllBlank(after) &&
      (kept != "" ==> kept[0] !in BLANKS && kept[|kept| - 1] !in BLANKS)
  }

  /** `body` is `s` without the newlines at its end. */
  ghost predicate WithoutNewlines(s: string, body: string) {
    body <= s && (forall c :: c in s[|body|..] ==> c == '\n') && (body != "" ==> body[|body| - 1] != '\n')
  }

  lemma {:induction false} SpacesAreBlank(c: char)
    ensures IsSpace(c) <==> c in BLANKS
  {
    if '\t' <= c <= '\r' {
      assert c == '\t' || c == '\n' || c == '\U{b}' || c == '\U{c}' || c == '\r';
    }
    if '\U{1c}' <= c <= '\U{1f}' {
      assert c == '\U{1c}' || c == '\U{1d}' || c == '\U{1e}' || c == '\U{1f}';
    }
  }

  lemma {:induction false} RStripTrims(s: string)
    ensures TrimmedEnd(s, RStrip(s))
  {
    if s != "" {
      var n := |s| - 1;
      SpacesAreBlank(s[n]);
      if IsSpace(s[n]) {
        RStripTrims(s[..n]);
        var kept := RStrip(s);
        assert s[|kept|..] == s[..n][|kept|..] + [s[n]];
      } else {
        assert s[|s|..] == "";
      }
    }
  }

  /** What is trimmed is determined. */
  lemma {:induction false} TrimmedEndUnique(s: string, a: string, b: string)
    requires TrimmedEnd(s, a) && TrimmedEnd(s, b)
    ensures a == b
  {
    NotLonger(s, a, b);
    NotLonger(s, b, a);
    assert a == s[..|a|] && b == s[..|b|];
  }

  lemma {:induction false} NotLonger(s: string, a: string, b: string)
    requires TrimmedEnd(s, a) && TrimmedEnd(s, b)
    ensures |b| <= |a|
  {
    forall i | |a| <= i < |s| ensures s[i] in BLANKS {
      assert s[|a|..][i - |a|] == s[i];
    }
    assert b != "" ==> b[|b| - 1] == s[|b| - 1];
  }

  lemma {:induction false} LStripTrims(s: string)
    ensures exists before :: s == before + LStripSpace(s) && AllBlank(before)
    ensures LStripSpace(s) != "" ==> LStripSpace(s)[0] !in BLANKS
  {
    if s != "" && IsSpace(s[0]) {
      SpacesAreBlank(s[0]);
      LStripTrims(s[1..]);
      var before :| s[1..] == before + LStripSpace(s[1..]) && AllBlank(before);
      assert s == [s[0]] + before + LStripSpace(s);
    } else {
      assert s == "" + LStripSpace(s) && AllBlank("");
      assert s != "" ==> !IsSpace(s[0]);
      SpacesAreBlank(if s == "" then ' ' else s[0]);
    }
  }

  /** `strip` leaves what is between the outer blanks. */
  lemma {:induction false} StripTrims(s: string)
    ensures Trimmed(s, Strip(s))
  {
    var inner, kept := RStrip(s), Strip(s);
    RStripTrims(s);
    LStripTrims(inner);
    var before :| inner == before + kept && AllBlank(before);
    assert s == inner + s[|inner|..];
    assert s == before + kept + s[|inner|..];
    if kept != "" {
      assert kept[|kept| - 1] == inner[|inner| - 1];
    }
  }

  lemma {:induction false} TrimmedUnique(s: string, a: string, b: string)
    requires Trimmed(s, a) && Trimmed(s, b)
    ensures a == b
  {
    var i, j :| s == i + a + j && AllBlank(i) && AllBlank(j) &&
                (a != "" ==> a[0] !in BLANKS && a[|a| - 1] !in BLANKS);
    var k, l :| s == k + b + l && AllBlank(k) && AllBlank(l) &&
                (b != "" ==> b[0] !in BLANKS && b[|b| - 1] !in BLANKS);
    SameMiddle(s, i, a, j, k, b, l);
  }

  lemma {:induction false} SameMiddle(s: string, i: string, a: string, j: string, k: string, b: string, l: string)
    requires s == i + a + j && AllBlank(i) && AllBlank(j) && (a != "" ==> a[0] !in BLANKS && a[|a| - 1] !in BLANKS)
    requires s == k + b + l && AllBlank(k) && AllBlank(l) && (b != "" ==> b[0] !in BLANKS && b[|b| - 1] !in BLANKS)
    ensures a == b
  {
    if a == "" {
      assert s == i + j;
      NothingButBlanks(s, b, k, l);
    } else if b == "" {
      assert s == k + l;
      NothingButBlanks(s, a, i, j);
    } else {
      SameEnds(s, i, a, j, k, b, l);
      SameEnds(s, k, b, l, i, a, j);
      assert a == s[|i|..|s| - |j|] && b == s[|k|..|s| - |l|];
    }
  }

  lemma {:induction false} MiddleIsBlank(s: string, before: string, kept: string, after: string)
    requires AllBlank(s) && s == before + kept + after
    ensures AllBlank(kept)
  {
    forall i | 0 <= i < |kept| ensures kept[i] in BLANKS {
      assert kept[i] == s[|before| + i];
    }
  }

  lemma {:induction false} NothingButBlanks(s: string, kept: string, before: string, after: string)
    requires AllBlank(s) && s == before + kept + after && (kept != "" ==> kept[0] !in BLANKS)
    ensures kept == ""
  {
    MiddleIsBlank(s, before, kept, after);
  }

  lemma {:induction false} SameEnds(s: string, i: string, a: string, j: string, k: string, b: string, l: string)
    requires s == i + a + j && s == k + b + l && AllBlank(i) && AllBlank(j) && a != "" && b != ""
    requires b[0] !in BLANKS && b[|b| - 1] !in BLANKS
    ensures |i| <= |k| && |j| <= |l|
  {
    forall x | 0 <= x < |i| ensures s[x] in BLANKS {
      assert s[x] == i[x];
    }
    forall x | |i| + |a| <= x < |s| ensures s[x] in BLANKS {
      assert s[x] == j[x - |i| - |a|];
    }
    assert s[|k|] == b[0] && s[|s| - |l| - 1] == b[|b| - 1];
  }

  lemma {:induction false} NewlinesAreDropped(s: string)
    ensures WithoutNewlines(s, RStripNewlines(s))
  {
    if s != "" {
      var n := |s| - 1;
      if s[n] == '\n' {
        NewlinesAreDropped(s[..n]);
        var body := RStripNewlines(s);
        assert s[|body|..] == s[..n][|body|..] + [s[n]];
      } else {
        assert s[|s|..] == "";
      }
    }
  }

  predicate EndsWith(s: string, suffix: string) {
    |suffix| <= |s| && s[|s| - |suffix|..] == suffix
  }

  function Lower(s: string): string {
    seq(|s|, i requires 0 <= i < |s| => if 'A' <= s[i] <= 'Z' then s[i] - 'A' + 'a' else s[i])
  }

  /** `s.split("/")`. */
  function Segments(s: string): (r: seq<string>)
    ensures |r| >= 1
  {
    if s == "" then [""]
    else
      var rest := Segments(s[1..]);
      if s[0] == '/' then [""] + rest else [[s[0]] + rest[0]] + rest[1..]
  }

  function LastSegment(s: string): string {
    var r := Segments(s);
    r[|r| - 1]
  }

  lemma {:induction false} LoneSegment(s: string)
    ensures |Segments(s)| == 1 ==> Segments(s)[0] == s
  {
    if s != "" {
      LoneSegment(s[1..]);
      assert s == [s[0]] + s[1..];
    }
  }

  lemma {:induction false} EndsWithTail(s: string, suffix: string)
    requires s != "" && EndsWith(s[1..], suffix)
    ensures EndsWith(s, suffix)
  {
    assert s[|s| - |suffix|..] == s[1..][|s| - 1 - |suffix|..];
  }

  /** `name` is a part of the path: what stands between two slashes, or between a slash and an end. */
  ghost predicate IsPart(path: string, before: string, name: string, after: string) {
    && path == before + name + after && '/' !in name
    && (before == "" || before[|before| - 1] == '/') && (after == "" || after[0] == '/')
  }

  lemma {:induction false} SegmentsAreParts(path: string, k: nat) returns (before: string, after: string)
    requires k < |Segments(path)|
    ensures IsPart(path, before, Segments(path)[k], after)
    ensures k < |Segments(path)| - 1 <==> after != ""
    ensures k == 0 <==> before == ""
  {
    if path == "" {
      before, after := "", "";
    } else {
      var rest := Segments(path[1..]);
      if path[0] == '/' {
        if k == 0 {
          before, after := "", path;
        } else {
          before, after := SegmentsAreParts(path[1..], k - 1);
          before := "/" + before;
        }
      } else {
        before, after := SegmentsAreParts(path[1..], k);
        if k > 0 {
          before := [path[0]] + before;
        }
      }
    }
  }

  lemma {:induction false} PartsAreSegments(path: string, before: string, name: string, after: string) returns (k: nat)
    requires IsPart(path, before, name, after)
    ensures k < |Segments(path)| && Segments(path)[k] == name
    ensures k < |Segments(path)| - 1 <==> after != ""
    ensures k == 0 <==> before == ""
  {
    if before != "" {
      assert path[1..] == before[1..] + name + after;
      if before[0] == '/' {
        k := PartsAreSegments(path[1..], before[1..], name, after);
        k := k + 1;
      } else {
        k := PartsAreSegments(path[1..], before[1..], name, after);
      }
    } else if name != "" {
      assert path[0] == name[0] && name[0] in name;
      assert path[1..] == "" + name[1..] + after;
      k := PartsAreSegments(path[1..], "", name[1..], after);
    } else {
      k := 0;
      if path != "" {
        assert path[0] == after[0];
      }
    }
  }

  /** The segments of a path are its parts, and all but the last are those that something follows. */
  lemma {:induction false} SegmentsExactly(path: string, name: string)
    ensures name in Segments(path) <==> exists before, after :: IsPart(path, before, name, after)
    ensures name in Segments(path)[..|Segments(path)| - 1] <==>
            exists before, after :: IsPart(path, before, name, after) && after != ""
  {
    var all := Segments(path);
    if name in all {
      var k :| 0 <= k < |all| && all[k] == name;
      var before, after := SegmentsAreParts(path, k);
    }
    if name in all[..|all| - 1] {
      var k :| 0 <= k < |all| - 1 && all[k] == name;
      var before, after := SegmentsAreParts(path, k);
    }
    if before, after :| IsPart(path, before, name, after) {
      var k := PartsAreSegments(path, before, name, after);
    }
    if before, after :| IsPart(path, before, name, after) && after != "" {
      var k := PartsAreSegments(path, before, name, after);
      assert all[..|all| - 1][k] == name;
    }
  }

  lemma {:induction false} SeveralSegments(s: string)
    requires |Segments(s)| > 1
    ensures '/' in s
  {
    if s[0] != '/' {
      SeveralSegments(s[1..]);
    }
  }

  lemma {:induction false} LastOfTail(s: string)
    requires s != "" && (s[0] == '/' || |Segments(s[1..])| > 1)
    ensures LastSegment(s) == LastSegment(s[1..])
  {
  }

  lemma {:induction false} LastSegmentIsSuffix(s: string)
    ensures EndsWith(s, LastSegment(s))
  {
    if s != "" {
      if s[0] == '/' || |Segments(s[1..])| > 1 {
        LastOfTail(s);
        LastSegmentIsSuffix(s[1..]);
        EndsWithTail(s, LastSegment(s[1..]));
      } else {
        LoneSegment(s);
      }
    }
  }

  lemma {:induction false} LastSegmentHasNoSlash(s: string)
    ensures '/' !in LastSegment(s)
  {
    if s != "" {
      LastSegmentHasNoSlash(s[1..]);
      if s[0] == '/' || |Segments(s[1..])| > 1 {
        LastOfTail(s);
      } else {
        LoneSegment(s);
        LoneSegment(s[1..]);
      }
    }
  }

  /** The last segment is what follows the last slash, or the whole text if there is none. */
  lemma {:induction false} LastSegmentFollowsSlash(s: string)
    ensures EndsWith(s, LastSegment(s)) && '/' !in LastSegment(s)
    ensures |LastSegment(s)| < |s| ==> s[|s| - |LastSegment(s)| - 1] == '/'
  {
    LastSegmentIsSuffix(s);
    LastSegmentHasNoSlash(s);
    if s != "" && |LastSegment(s)| < |s| {
      if s[0] == '/' || |Segments(s[1..])| > 1 {
        LastOfTail(s);
        LastSegmentFollowsSlash(s[1..]);
        if s[0] != '/' {
          SeveralSegments(s[1..]);
          assert LastSegment(s[1..]) != s[1..];
        }
      } else {
        LoneSegment(s);
      }
    }
  }

  /** The text says the word, in capital letters or not; the word is in small ones. */
  predicate SaysWord(s: string, word: string) {
    |s| == |word| && forall i :: 0 <= i < |s| ==> s[i] == word[i] || s[i] as int + 32 == word[i] as int
  }

  lemma {:induction false} LowerSaysWord(s: string, word: string)
    requires forall c :: c in word ==> 'a' <= c <= 'z'
    ensures Lower(s) == word <==> SaysWord(s, word)
  {
    if SaysWord(s, word) {
      forall i | 0 <= i < |s| ensures Lower(s)[i] == word[i] {
        assert word[i] in word;
      }
    }
    if Lower(s) == word {
      forall i | 0 <= i < |s| ensures s[i] == word[i] || s[i] as int + 32 == word[i] as int {
        assert Lower(s)[i] == word[i];
      }
    }
  }

  predicate AllDigits(s: string) {
    s == "" || (IsDigit(s[|s| - 1]) && AllDigits(s[..|s| - 1]))
  }

  /** `int(s)` for decimal digits. */
  function Value(s: string): int {
    if s == "" then 0 else 10 * Value(s[..|s| - 1]) + (s[|s| - 1] as int - '0' as int)
  }

  lemma {:induction false} AllDigitsTail(s: string)
    requires s != "" && AllDigits(s)
    ensures IsDigit(s[0]) && AllDigits(s[1..])
  {
    if |s| > 1 {
      AllDigitsTail(s[..|s| - 1]);
      assert s[..|s| - 1][1..] == s[1..][..|s| - 2];
    } else {
      assert s[1..] == "";
    }
  }

  function Digit(d: nat): char
    requires d < 10
  {
    '0' + d as char
  }

  /** `str(n)`. */
  function Decimal(n: nat): string {
    if n < 10 then [Digit(n)] else Decimal(n / 10) + [Digit(n % 10)]
  }
}
