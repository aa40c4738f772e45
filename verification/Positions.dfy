// Byte offsets and 1-based line/column positions: `line_column` one way, `byte_range` the other.
module Positions {
  import opened Text

  datatype Position = Position(line: nat, column: nat)

  // The byte offset of the `i`-th character boundary.
  function Offset(text: string, i: nat): nat
    requires i <= |text|
  {
    Length(text[..i])
  }

  // ---- Offset to position ----

  // How many characters start before byte `o`.
  function CharsBefore(text: string, o: nat): (n: nat)
    ensures n <= |text|
    decreases |text|
  {
    if o == 0 || text == "" then 0
    else
      var width := |CharUtf8(text[0])|;
      1 + if o <= width then 0 else CharsBefore(text[1..], o - width)
  }

  function Newlines(s: string): nat
    decreases |s|
  {
    if s == "" then 0 else Newlines(s[..|s| - 1]) + if s[|s| - 1] == '\n' then 1 else 0
  }

  // Where the last line of `s` begins, in characters.
  function LastLineStart(s: string): (r: nat)
    ensures r <= |s|
    decreases |s|
  {
    if s == "" then 0 else if s[|s| - 1] == '\n' then |s| else LastLineStart(s[..|s| - 1])
  }

  function Min(a: nat, b: nat): nat {
    if a < b then a else b
  }

  // An offset inside a character has no column of its own and reports column one.
  function LineColumnOf(text: string, offset: nat): Position {
    var o := Min(offset, Length(text));
    var n := CharsBefore(text, o);
    Position(Newlines(text[..n]) + 1, if Offset(text, n) == o then n - LastLineStart(text[..n]) + 1 else 1)
  }

  // `str::get` on a byte range: none unless both ends are character boundaries.
  function Get(text: string, start: nat, end: nat): Option<string> {
    var i, j := CharsBefore(text, start), CharsBefore(text, end);
    if start <= end && Offset(text, i) == start && Offset(text, j) == end && i <= j
    then Some(text[i..j])
    else None
  }

  lemma {:induction false} OffsetStep(text: string, i: nat)
    requires i < |text|
    ensures Offset(text, i + 1) == Offset(text, i) + |CharUtf8(text[i])|
  {
    assert text[..i + 1] == text[..i] + [text[i]];
    Utf8Concat(text[..i], [text[i]]);
    assert Utf8([text[i]]) == CharUtf8(text[i]) + Utf8("");
  }

  lemma {:induction false} OffsetMonotone(text: string, i: nat, j: nat)
    requires i <= j <= |text|
    ensures Offset(text, i) <= Offset(text, j)
    ensures i < j ==> Offset(text, i) < Offset(text, j)
    decreases j - i
  {
    if i < j {
      OffsetStep(text, i);
      OffsetMonotone(text, i + 1, j);
    }
  }

  lemma {:induction false} OffsetTail(text: string, i: nat)
    requires 0 < i <= |text|
    ensures Offset(text, i) == |CharUtf8(text[0])| + Offset(text[1..], i - 1)
  {
    assert text[..i] == [text[0]] + text[1..][..i - 1];
    assert text[..i][1..] == text[1..][..i - 1];
  }

  // `CharsBefore` is the least boundary at or past the byte.
  lemma {:induction false} CharsBeforeLeast(text: string, o: nat)
    requires o <= Length(text)
    ensures Offset(text, CharsBefore(text, o)) >= o
    ensures CharsBefore(text, o) > 0 ==> Offset(text, CharsBefore(text, o) - 1) < o
    decreases |text|
  {
    if o > 0 && text != "" {
      var width := |CharUtf8(text[0])|;
      var n := CharsBefore(text, o);
      OffsetTail(text, n);
      if o > width {
        CharsBeforeLeast(text[1..], o - width);
        if n > 1 { OffsetTail(text, n - 1); }
      }
    }
  }

  lemma CharsBeforeOffset(text: string, i: nat)
    requires i <= |text|
    ensures Offset(text, i) <= Length(text) && CharsBefore(text, Offset(text, i)) == i
  {
    OffsetMonotone(text, i, |text|);
    assert text[..|text|] == text;
    CharsBeforeLeast(text, Offset(text, i));
    SameBoundary(text, i, CharsBefore(text, Offset(text, i)));
  }

  lemma SameBoundary(text: string, i: nat, n: nat)
    requires i <= |text| && n <= |text|
    requires Offset(text, i) <= Offset(text, n) && (n > 0 ==> Offset(text, n - 1) < Offset(text, i))
    ensures n == i
  {
    BoundaryOrder(text, i, n);
    if n > 0 {
      BoundaryOrder(text, n - 1, i);
    }
  }

  lemma BoundaryOrder(text: string, a: nat, b: nat)
    requires a <= |text| && b <= |text|
    ensures Offset(text, a) <= Offset(text, b) ==> a <= b
    ensures Offset(text, a) < Offset(text, b) ==> a < b
  {
    if b <= a {
      OffsetMonotone(text, b, a);
    }
  }

  lemma LineStarts(text: string, n: nat)
    requires n <= |text|
    ensures var begin := LastLineStart(text[..n]);
      CharsBefore(text, Offset(text, begin)) == begin && Offset(text, begin) <= Offset(text, n)
  {
    var begin := LastLineStart(text[..n]);
    CharsBeforeOffset(text, begin);
    OffsetMonotone(text, begin, n);
  }

  method LineColumn(text: string, offset: nat) returns (position: Position)
    ensures position == LineColumnOf(text, offset)
  {
    var o := Min(offset, Length(text));
    var line := 1;
    var start := 0;
    var i := 0;
    var index := 0;
    CharsBeforeLeast(text, o);
    while i < |text| && index < o
      invariant i <= CharsBefore(text, o) && index == Offset(text, i)
      invariant line == Newlines(text[..i]) + 1
      invariant start == Offset(text, LastLineStart(text[..i]))
    {
      OffsetStep(text, i);
      assert text[..i + 1][..i] == text[..i];
      assert Offset(text, CharsBefore(text, o)) >= o;
      if text[i] == '\n' {
        line := line + 1;
        start := index + 1;
      }
      index := index + |CharUtf8(text[i])|;
      i := i + 1;
    }
    if i < CharsBefore(text, o) { OffsetMonotone(text, i, CharsBefore(text, o) - 1); }
    LineStarts(text, CharsBefore(text, o));
    var rest := Get(text, start, o);
    position := Position(line, if rest.Some? then |rest.value| + 1 else 1);
  }

  // ---- Position to range ----

  // The length of the first line, its newline included.
  function FirstLine(text: string): (k: nat)
    requires text != ""
    ensures 0 < k <= |text|
  {
    if text[0] == '\n' || |text| == 1 then 1 else 1 + FirstLine(text[1..])
  }

  predicate IsFirstLine(text: string, k: nat) {
    && 0 < k <= |text|
    && (forall i :: 0 <= i < k - 1 ==> text[i] != '\n')
    && (k < |text| ==> text[k - 1] == '\n')
  }

  lemma {:induction false} FirstLineShape(text: string)
    requires text != ""
    ensures IsFirstLine(text, FirstLine(text))
  {
    if text[0] != '\n' && |text| > 1 {
      var k := FirstLine(text[1..]);
      FirstLineShape(text[1..]);
      assert forall i :: 0 < i < k ==> text[i] == text[1..][i - 1];
    }
  }

  function SplitInclusive(text: string): seq<string>
    decreases |text|
  {
    if text == "" then []
    else [text[..FirstLine(text)]] + SplitInclusive(text[FirstLine(text)..])
  }

  function StripNewline(line: string): string {
    if line != "" && line[|line| - 1] == '\n' then line[..|line| - 1] else line
  }

  // The range of a column within one line, relative to its start.
  function InLine(line: string, column: nat): Option<(nat, nat)> {
    InStripped(StripNewline(line), column)
  }

  function InStripped(stripped: string, column: nat): Option<(nat, nat)> {
    if column < |stripped| then Some((Offset(stripped, column), Offset(stripped, column + 1)))
    else if column == |stripped| then Some((Length(stripped), Length(stripped)))
    else None
  }

  function Shift(range: Option<(nat, nat)>, offset: nat): Option<(nat, nat)> {
    if range.Some? then Some((range.value.0 + offset, range.value.1 + offset)) else None
  }

  function RangeAt(text: string, line: nat, column: nat): Option<(nat, nat)>
    decreases |text|
  {
    if text == "" then None
    else
      var k := FirstLine(text);
      if line == 0 then InLine(text[..k], column)
      else Shift(RangeAt(text[k..], line - 1, column), Length(text[..k]))
  }

  function ByteRangeOf(position: Position, source: string): Option<(nat, nat)> {
    if position.line == 0 || position.column == 0 then None
    else RangeAt(source, position.line - 1, position.column - 1)
  }

  // The bytes of the first `n` lines.
  function LengthBefore(lines: seq<string>, n: nat): nat
    requires n <= |lines|
  {
    if n == 0 then 0 else LengthBefore(lines, n - 1) + Length(lines[n - 1])
  }

  lemma {:induction false} LengthBeforeFirst(line: string, rest: seq<string>, n: nat)
    requires n <= |rest|
    ensures LengthBefore([line] + rest, n + 1) == Length(line) + LengthBefore(rest, n)
  {
    if n > 0 {
      LengthBeforeFirst(line, rest, n - 1);
    } else {
      assert LengthBefore([line] + rest, 0) == 0;
    }
  }

  lemma RangeRest(text: string, line: nat, column: nat)
    requires text != ""
    ensures RangeAt(text, line + 1, column)
         == Shift(RangeAt(text[FirstLine(text)..], line, column), Length(text[..FirstLine(text)]))
  {
  }

  // A line's column, read off the list of lines.
  function InLines(lines: seq<string>, line: nat, column: nat): Option<(nat, nat)> {
    if line < |lines| then Shift(InLine(lines[line], column), LengthBefore(lines, line)) else None
  }

  lemma InLaterLine(first: string, rest: seq<string>, line: nat, column: nat)
    ensures InLines([first] + rest, line + 1, column) == Shift(InLines(rest, line, column), Length(first))
  {
    var lines := [first] + rest;
    if line < |rest| {
      LengthBeforeFirst(first, rest, line);
      assert lines[line + 1] == rest[line];
      assert InLines(lines, line + 1, column)
          == Shift(InLine(rest[line], column), Length(first) + LengthBefore(rest, line));
    }
  }

  lemma {:induction false} RangeByLines(text: string, line: nat, column: nat)
    ensures RangeAt(text, line, column) == InLines(SplitInclusive(text), line, column)
    decreases line
  {
    if text != "" && line > 0 {
      var k := FirstLine(text);
      var inner := RangeAt(text[k..], line - 1, column);
      assert RangeAt(text, line, column) == Shift(inner, Length(text[..k]));
      var rest := SplitInclusive(text[k..]);
      assert inner == InLines(rest, line - 1, column) by {
        RangeByLines(text[k..], line - 1, column);
      }
      assert InLines([text[..k]] + rest, line, column) == Shift(inner, Length(text[..k])) by {
        InLaterLine(text[..k], rest, line - 1, column);
      }
    }
  }

  method ByteRange(position: Position, source: string) returns (range: Option<(nat, nat)>)
    ensures range == ByteRangeOf(position, source)
  {
    if position.line == 0 || position.column == 0 {
      return None;
    }
    var lineIndex, characterIndex := position.line - 1, position.column - 1;
    RangeByLines(source, lineIndex, characterIndex);
    var lines := SplitInclusive(source);
    var lineStart := 0;
    var selected: Option<string> := None;
    var index := 0;
    while index < |lines|
      invariant index <= |lines| && index <= lineIndex && selected == None
      invariant lineStart == LengthBefore(lines, index)
    {
      var lineText := lines[index];
      if index == lineIndex {
        selected := Some(StripNewline(lineText));
        break;
      }
      lineStart := lineStart + Length(lineText);
      index := index + 1;
    }
    if selected.None? {
      return None;
    }
    range := ColumnRange(selected.value, lineStart, characterIndex);
  }

  // The end of `byte_range`: one whole character of a stripped line, or its empty end.
  method ColumnRange(lineText: string, lineStart: nat, characterIndex: nat) returns (range: Option<(nat, nat)>)
    ensures range == Shift(InStripped(lineText, characterIndex), lineStart)
  {
    if characterIndex > |lineText| {
      return None;
    }
    assert lineText[..|lineText|] == lineText;
    var start := lineStart + Offset(lineText, characterIndex);
    OffsetMonotone(lineText, characterIndex, |lineText|);
    if start < lineStart + Length(lineText) {
      OffsetStep(lineText, characterIndex);
      range := Some((start, start + |CharUtf8(lineText[characterIndex])|));
    } else {
      range := Some((start, start));
    }
  }

  // ---- The two are inverse ----

  // Line and column, both from zero, of a character boundary.
  function Locate(text: string, i: nat): (nat, nat)
    requires i <= |text|
    decreases |text|
  {
    if text == "" then (0, 0)
    else
      var k := FirstLine(text);
      if i < k || text[k - 1] != '\n' then (0, i)
      else
        var (line, column) := Locate(text[k..], i - k);
        (line + 1, column)
  }

  lemma {:induction false} CountsConcat(a: string, b: string)
    ensures Newlines(a + b) == Newlines(a) + Newlines(b)
    ensures LastLineStart(a + b) == if Newlines(b) > 0 then |a| + LastLineStart(b) else LastLineStart(a)
    ensures Newlines(b) == 0 ==> LastLineStart(b) == 0
    decreases |b|
  {
    if b == "" {
      assert a + b == a;
    } else {
      assert (a + b)[..|a + b| - 1] == a + b[..|b| - 1];
      CountsConcat(a, b[..|b| - 1]);
    }
  }

  lemma {:induction false} NoNewlines(s: string)
    requires '\n' !in s
    ensures Newlines(s) == 0 && LastLineStart(s) == 0
    decreases |s|
  {
    if s != "" { NoNewlines(s[..|s| - 1]); }
  }

  lemma CountsAfterLine(text: string, k: nat, i: nat)
    requires IsFirstLine(text, k) && k <= i <= |text| && text[k - 1] == '\n'
    ensures Newlines(text[..i]) == 1 + Newlines(text[k..][..i - k])
    ensures LastLineStart(text[..i]) == k + LastLineStart(text[k..][..i - k])
  {
    var line, rest := text[..k], text[k..][..i - k];
    assert text[..i] == line + rest;
    assert line[..k - 1] == text[..k - 1];
    NoNewlines(line[..k - 1]);
    CountsConcat(line, rest);
  }

  predicate InFirstLine(text: string, i: nat)
    requires text != ""
  {
    i < FirstLine(text) || text[FirstLine(text) - 1] != '\n'
  }

  lemma CountsInFirstLine(text: string, i: nat)
    requires text != "" && i <= |text| && InFirstLine(text, i)
    ensures Newlines(text[..i]) == 0 && LastLineStart(text[..i]) == 0
  {
    FirstLineShape(text);
    NoNewlines(text[..i]);
  }

  lemma {:induction false} LocateCounts(text: string, i: nat)
    requires i <= |text|
    ensures Locate(text, i) == (Newlines(text[..i]), i - LastLineStart(text[..i]))
    decreases |text|
  {
    if text != "" {
      if InFirstLine(text, i) {
        CountsInFirstLine(text, i);
      } else {
        var k := FirstLine(text);
        FirstLineShape(text);
        CountsAfterLine(text, k, i);
        LocateCounts(text[k..], i - k);
      }
    }
  }

  lemma LineColumnLocates(text: string, i: nat)
    requires i <= |text|
    ensures var (line, column) := Locate(text, i);
      LineColumnOf(text, Offset(text, i)) == Position(line + 1, column + 1)
  {
    CharsBeforeOffset(text, i);
    LocateCounts(text, i);
  }

  // The end of an empty or newline-terminated text addresses no line.
  predicate Resolvable(text: string, i: nat)
    requires i <= |text|
  {
    i < |text| || (text != "" && text[|text| - 1] != '\n')
  }

  // One whole character, or nothing at the end of a line.
  function RangeEnd(text: string, i: nat): nat
    requires i <= |text|
  {
    if i < |text| && text[i] != '\n' then Offset(text, i + 1) else Offset(text, i)
  }

  lemma OffsetSplit(text: string, k: nat, i: nat)
    requires k <= i <= |text|
    ensures Offset(text, i) == Length(text[..k]) + Offset(text[k..], i - k)
  {
    assert text[..i] == text[..k] + text[k..][..i - k];
    Utf8Concat(text[..k], text[k..][..i - k]);
  }

  lemma InLineRange(line: string, i: nat)
    requires i <= |StripNewline(line)|
    ensures InLine(line, i).Some?
    ensures InLine(line, i).value.0 == Offset(line, i)
    ensures InLine(line, i).value.1 == if i < |StripNewline(line)| then Offset(line, i + 1) else Offset(line, i)
  {
    var stripped := StripNewline(line);
    assert stripped[..i] == line[..i];
    if i < |stripped| {
      assert stripped[..i + 1] == line[..i + 1];
    } else {
      assert stripped[..i] == stripped;
    }
  }

  lemma FirstLineRange(text: string, k: nat, i: nat)
    requires IsFirstLine(text, k) && i <= |text|
    requires i < k || text[k - 1] != '\n'
    ensures InLine(text[..k], i) == Some((Offset(text, i), RangeEnd(text, i)))
  {
    var line := text[..k];
    var width := |StripNewline(line)|;
    assert width == if text[k - 1] == '\n' then k - 1 else k;
    InLineRange(line, i);
    SameOffset(line, text, i);
    if i < width {
      SameOffset(line, text, i + 1);
      assert i < k - 1 ==> text[i] != '\n';
    }
  }

  lemma SameOffset(line: string, text: string, i: nat)
    requires line <= text && i <= |line|
    ensures Offset(line, i) == Offset(text, i)
  {
    assert line[..i] == text[..i];
  }

  lemma LocateFirst(text: string, i: nat)
    requires text != "" && i <= |text|
    requires i < FirstLine(text) || text[FirstLine(text) - 1] != '\n'
    ensures Locate(text, i) == (0, i)
    ensures Resolvable(text, i)
  {
    FirstLineShape(text);
  }

  lemma RestOfText(text: string, k: nat, i: nat)
    requires 0 < k <= i <= |text| && text[k - 1] == '\n'
    ensures Resolvable(text, i) <==> Resolvable(text[k..], i - k)
    ensures Offset(text, i) == Length(text[..k]) + Offset(text[k..], i - k)
    ensures RangeEnd(text, i) == Length(text[..k]) + RangeEnd(text[k..], i - k)
  {
    OffsetSplit(text, k, i);
    if i < |text| { OffsetSplit(text, k, i + 1); }
  }

  lemma LocateRest(text: string, i: nat)
    requires text != "" && FirstLine(text) <= i <= |text| && text[FirstLine(text) - 1] == '\n'
    ensures Locate(text, i) ==
      (Locate(text[FirstLine(text)..], i - FirstLine(text)).0 + 1,
       Locate(text[FirstLine(text)..], i - FirstLine(text)).1)
  {
  }

  function Expected(text: string, i: nat): Option<(nat, nat)>
    requires i <= |text|
  {
    if Resolvable(text, i) then Some((Offset(text, i), RangeEnd(text, i))) else None
  }

  lemma LocatedFirst(text: string, i: nat)
    requires text != "" && i <= |text|
    requires i < FirstLine(text) || text[FirstLine(text) - 1] != '\n'
    ensures RangeAt(text, Locate(text, i).0, Locate(text, i).1) == Expected(text, i)
  {
    FirstLineShape(text);
    LocateFirst(text, i);
    FirstLineRange(text, FirstLine(text), i);
  }

  lemma ExpectedRest(text: string, k: nat, i: nat)
    requires 0 < k <= i <= |text| && text[k - 1] == '\n'
    ensures Expected(text, i) == Shift(Expected(text[k..], i - k), Length(text[..k]))
  {
    RestOfText(text, k, i);
  }

  lemma LocatedLaterRange(text: string, k: nat, i: nat, line: nat, column: nat)
    requires text != "" && k == FirstLine(text) && k <= i <= |text| && text[k - 1] == '\n'
    requires RangeAt(text[k..], line, column) == Expected(text[k..], i - k)
    ensures RangeAt(text, line + 1, column) == Expected(text, i)
  {
    ExpectedRest(text, k, i);
    RangeRest(text, line, column);
  }

  ghost predicate RangedAt(text: string, i: nat)
    requires i <= |text|
  {
    RangeAt(text, Locate(text, i).0, Locate(text, i).1) == Expected(text, i)
  }

  lemma RangedLater(text: string, i: nat)
    requires text != "" && i <= |text| && !InFirstLine(text, i)
    requires RangedAt(text[FirstLine(text)..], i - FirstLine(text))
    ensures RangedAt(text, i)
  {
    var k := FirstLine(text);
    var (line, column) := Locate(text[k..], i - k);
    LocatedLaterRange(text, k, i, line, column);
    LocateRest(text, i);
  }

  lemma {:induction false} RangeLocated(text: string, i: nat)
    requires i <= |text|
    ensures RangedAt(text, i)
    decreases |text|
  {
    if text != "" {
      if InFirstLine(text, i) {
        LocatedFirst(text, i);
      } else {
        RangeLocated(text[FirstLine(text)..], i - FirstLine(text));
        RangedLater(text, i);
      }
    }
  }

  lemma ColumnInFirstLine(text: string, column: nat)
    requires text != "" && InLine(text[..FirstLine(text)], column).Some?
    ensures column <= |text| && Resolvable(text, column) && Locate(text, column) == (0, column)
  {
    LocateFirst(text, column);
  }

  predicate LocatedAt(text: string, i: nat, line: nat, column: nat) {
    i <= |text| && Resolvable(text, i) && Locate(text, i) == (line, column)
  }

  lemma LocatedLater(text: string, k: nat, j: nat, line: nat, column: nat)
    requires text != "" && k == FirstLine(text) && text[k - 1] == '\n' && LocatedAt(text[k..], j, line, column)
    ensures LocatedAt(text, k + j, line + 1, column)
  {
    RestOfText(text, k, k + j);
    LocateRest(text, k + j);
  }

  lemma RangeLater(text: string, line: nat, column: nat)
    requires RangeAt(text, line + 1, column).Some?
    ensures text != "" && text[FirstLine(text) - 1] == '\n'
    ensures RangeAt(text[FirstLine(text)..], line, column).Some?
  {
    FirstLineShape(text);
    RangeRest(text, line, column);
  }

  lemma {:induction false} LocatedFromRange(text: string, line: nat, column: nat) returns (i: nat)
    requires RangeAt(text, line, column).Some?
    ensures LocatedAt(text, i, line, column)
    decreases line
  {
    if line == 0 {
      ColumnInFirstLine(text, column);
      i := column;
    } else {
      RangeLater(text, line - 1, column);
      var k := FirstLine(text);
      var j := LocatedFromRange(text[k..], line - 1, column);
      LocatedLater(text, k, j, line - 1, column);
      i := k + j;
    }
  }

  // From an offset to its position and back, for every character boundary of every text: the range
  // starts where the offset was, except at the one boundary no line holds.
  lemma OffsetRoundTrip(text: string, i: nat)
    requires i <= |text|
    ensures ByteRangeOf(LineColumnOf(text, Offset(text, i)), text) == Expected(text, i)
  {
    LineColumnLocates(text, i);
    RangeLocated(text, i);
  }

  // Inside a character there is no column, so the first is reported; past the end is the end.
  lemma OutsideBoundaries(text: string, i: nat, offset: nat)
    ensures i < |text| && Offset(text, i) < offset < Offset(text, i + 1) ==>
      LineColumnOf(text, offset) == Position(Newlines(text[..i + 1]) + 1, 1)
    ensures offset >= Length(text) ==> LineColumnOf(text, offset) == LineColumnOf(text, Length(text))
  {
    if i < |text| && Offset(text, i) < offset < Offset(text, i + 1) {
      var n := CharsBefore(text, offset);
      OffsetMonotone(text, i + 1, |text|);
      assert text[..|text|] == text;
      CharsBeforeLeast(text, offset);
      if n <= i {
        OffsetMonotone(text, n, i);
      } else if n > i + 1 {
        OffsetMonotone(text, i + 1, n - 1);
      }
    }
  }

  // From a position to its range and back, for every position that resolves.
  lemma PositionRoundTrip(text: string, position: Position)
    requires ByteRangeOf(position, text).Some?
    ensures LineColumnOf(text, ByteRangeOf(position, text).value.0) == position
    ensures exists i | 0 <= i <= |text| && Resolvable(text, i) ::
      ByteRangeOf(position, text).value == (Offset(text, i), RangeEnd(text, i))
  {
    var i := LocatedFromRange(text, position.line - 1, position.column - 1);
    RangeLocated(text, i);
    LineColumnLocates(text, i);
  }
}
