// The runtime library table: how the generator renders it and how the build script reads it back.
module RuntimeTable {
  import opened Text

  // One table row: a path, its SHA-1 text, and a byte count.
  datatype Jar = Jar(path: string, sha1: string, size: int)

  datatype Block = Block(release: string, jars: seq<Jar>)

  datatype ParseError = IndexOutOfBounds | NumberFormat

  // ---- Numbers ----

  function Digit(d: nat): char
    requires d < 10
  {
    (48 + d) as char
  }

  function Digits(n: nat): (s: string)
    ensures s != ""
  {
    if n < 10 then [Digit(n)] else Digits(n / 10) + [Digit(n % 10)]
  }

  // Python's rendering of an integer.
  function Decimal(n: int): (s: string)
    ensures s != ""
  {
    if n < 0 then "-" + Digits(-n) else Digits(n)
  }

  predicate IsDigit(c: char) {
    '0' <= c <= '9'
  }

  predicate AllDigits(s: string) {
    forall i :: 0 <= i < |s| ==> IsDigit(s[i])
  }

  function DigitsValue(s: string): nat
    requires AllDigits(s)
  {
    if s == "" then 0
    else
      assert IsDigit(s[|s| - 1]);
      DigitsValue(s[..|s| - 1]) * 10 + (s[|s| - 1] as int - 48)
  }

  const MIN_LONG: int := -0x8000_0000_0000_0000
  const MAX_LONG: int := 0x7FFF_FFFF_FFFF_FFFF

  predicate FitsLong(n: int) {
    MIN_LONG <= n <= MAX_LONG
  }

  // `Long.parseLong`.
  function ParseLong(s: string): Result<int, ParseError> {
    var signed := s != "" && (s[0] == '-' || s[0] == '+');
    var digits := if signed then s[1..] else s;
    if digits == "" || !AllDigits(digits) then Err(NumberFormat)
    else
      var magnitude: int := DigitsValue(digits);
      var value := if signed && s[0] == '-' then -magnitude else magnitude;
      if FitsLong(value) then Ok(value) else Err(NumberFormat)
  }

  lemma {:induction false} DigitsRoundTrip(n: nat)
    ensures AllDigits(Digits(n))
    ensures DigitsValue(Digits(n)) == n
  {
    if n >= 10 {
      DigitsRoundTrip(n / 10);
      assert Digits(n)[..|Digits(n)| - 1] == Digits(n / 10);
    }
  }

  lemma LongExactly(n: int)
    ensures FitsLong(n) <==> -9_223_372_036_854_775_808 <= n <= 9_223_372_036_854_775_807
  {
  }

  // The digits of a number, most significant first, after a minus sign if it is negative.
  lemma DecimalExactly(n: nat, d: nat)
    requires d < 10
    ensures Decimal(d) == [("0123456789")[d]]
    ensures n > 0 ==> Decimal(10 * n + d) == Decimal(n) + Decimal(d) && Decimal(0 - n) == "-" + Decimal(n)
  {
    assert n > 0 ==> (10 * n + d) / 10 == n && (10 * n + d) % 10 == d;
  }

  // What is read as a number: digits, whatever zeros they start with, after at most one sign.
  lemma LongForms(digits: string, n: int)
    requires digits != "" && AllDigits(digits) && n == DigitsValue(digits)
    ensures ParseLong(digits) == ParseLong("+" + digits) == if FitsLong(n) then Ok(n) else Err(NumberFormat)
    ensures ParseLong("-" + digits) == if FitsLong(-n) then Ok(-n) else Err(NumberFormat)
  {
    assert IsDigit(digits[0]);
    assert ("+" + digits)[1..] == digits;
    assert ("-" + digits)[1..] == digits;
  }

  lemma LongRefused(s: string, i: nat)
    requires i < |s| && !('0' <= s[i] <= '9')
    ensures i > 0 || (s[0] != '+' && s[0] != '-') || |s| == 1 ==> ParseLong(s) == Err(NumberFormat)
    ensures ParseLong("") == Err(NumberFormat)
  {
    if i > 0 {
      assert !IsDigit(s[1..][i - 1]);
    }
  }

  // A number is read back as it was exactly when a `long` holds it.
  lemma DecimalRoundTrip(n: int)
    ensures ParseLong(Decimal(n)) ==
      if -9_223_372_036_854_775_808 <= n <= 9_223_372_036_854_775_807 then Ok(n) else Err(NumberFormat)
  {
    var magnitude := if n < 0 then -n else n;
    DigitsRoundTrip(magnitude);
    var s := Decimal(n);
    if n < 0 {
      assert s[0] == '-' && s[1..] == Digits(-n);
    } else {
      assert IsDigit(s[0]);
    }
  }

  // ---- Rendering ----

  function RowText(jar: Jar): string {
    jar.path + "\t" + jar.sha1 + "\t" + Decimal(jar.size)
  }

  function Header(release: string): string {
    "[" + release + "]"
  }

  function RowLines(jars: seq<Jar>): (r: seq<string>)
    ensures |r| == |jars| && forall i :: 0 <= i < |r| ==> r[i] == RowText(jars[i])
  {
    seq(|jars|, i requires 0 <= i < |jars| => RowText(jars[i]))
  }

  function BlockLines(blocks: seq<Block>): seq<string> {
    if blocks == [] then []
    else [Header(blocks[0].release)] + RowLines(blocks[0].jars) + BlockLines(blocks[1..])
  }

  // A file of newline-terminated lines.
  function Written(lines: seq<string>): string {
    if lines == [] then "" else lines[0] + "\n" + Written(lines[1..])
  }

  // Comment lines, then every release's block.
  function RenderTable(comments: seq<string>, blocks: seq<Block>): string {
    Written(comments + BlockLines(blocks))
  }

  // ---- Reading ----

  function LineEnd(text: string): (end: nat)
    ensures end <= |text|
  {
    if text == "" || text[0] == '\n' then 0 else 1 + LineEnd(text[1..])
  }

  lemma {:induction false} LineEndIs(text: string, end: nat)
    requires end <= |text| && (forall i :: 0 <= i < end ==> text[i] != '\n')
    requires end == |text| || text[end] == '\n'
    ensures LineEnd(text) == end
  {
    if end > 0 {
      LineEndIs(text[1..], end - 1);
    }
  }

  function AfterLine(text: string): (rest: string)
    requires text != ""
    ensures |rest| < |text|
  {
    if LineEnd(text) < |text| then text[LineEnd(text) + 1..] else ""
  }

  function TextLines(text: string): seq<string>
    decreases |text|
  {
    if text == "" then [] else [text[..LineEnd(text)]] + TextLines(AfterLine(text))
  }

  function StripReturn(line: string): string {
    if line != "" && line[|line| - 1] == '\r' then line[..|line| - 1] else line
  }

  // Three tab-separated fields; with fewer, the third `substring` starts past the end.
  function FieldsOf(line: string): Result<seq<string>, ParseError> {
    var parts := Split(line, '\t');
    if |parts| < 3 then Err(IndexOutOfBounds) else Ok(parts[..3])
  }

  function ParseRow(line: string): Result<Jar, ParseError> {
    match FieldsOf(line)
    case Err(error) => Err(error)
    case Ok(fields) =>
      if |fields| != 3 then Err(IndexOutOfBounds)
      else
        match ParseLong(fields[2])
        case Err(error) => Err(error)
        case Ok(size) => Ok(Jar(fields[0], fields[1], size))
  }

  // Whatever a line holds after its third tab is not looked at.
  lemma FieldsExactly(parts: seq<string>)
    requires |parts| >= 1 && forall part <- parts :: '\t' !in part
    ensures FieldsOf(Join(parts, '\t')) == if |parts| >= 3 then Ok(parts[..3]) else Err(IndexOutOfBounds)
  {
    SplitJoin(parts, '\t');
  }

  function Prepend(jars: seq<Jar>, rest: Result<seq<Jar>, ParseError>): Result<seq<Jar>, ParseError> {
    match rest
    case Err(error) => Err(error)
    case Ok(more) => Ok(jars + more)
  }

  lemma PrependNone(rest: Result<seq<Jar>, ParseError>)
    ensures Prepend([], rest) == rest
  {
    if rest.Ok? {
      assert [] + rest.value == rest.value;
    }
  }

  lemma PrependTwice(a: seq<Jar>, b: seq<Jar>, rest: Result<seq<Jar>, ParseError>)
    ensures Prepend(a, Prepend(b, rest)) == Prepend(a + b, rest)
  {
    if rest.Ok? {
      assert a + (b + rest.value) == a + b + rest.value;
    }
  }

  // What one line does to the scan.
  datatype Step = Finish | Fail(error: ParseError) | Keep(found: seq<Jar>, wanted: bool)

  function StepOf(line: string, features: set<string>, wanted: bool): Step {
    if line != "" && line[0] == '[' then
      if wanted then Finish
      else if |line| == 1 then Fail(IndexOutOfBounds)
      else Keep([], line[1..|line| - 1] in features)
    else if wanted && line != "" && line[0] != '#' then
      match ParseRow(line)
      case Err(error) => Fail(error)
      case Ok(jar) => Keep([jar], wanted)
    else Keep([], wanted)
  }

  // A header selects its release or ends the selected block; otherwise a lone bracket fails. A
  // comment or an empty line is passed over, and a row counts only in the selected block.
  lemma StepExactly(release: string, last: char, comment: string, row: string, features: set<string>, wanted: bool)
    requires row != "" && row[0] != '[' && row[0] != '#'
    ensures StepOf("[" + release + [last], features, wanted) ==
      if wanted then Finish else Keep([], release in features)
    ensures StepOf("[", features, wanted) == if wanted then Finish else Fail(IndexOutOfBounds)
    ensures StepOf("#" + comment, features, wanted) == StepOf("", features, wanted) == Keep([], wanted)
    ensures StepOf(row, features, false) == Keep([], false)
    ensures StepOf(row, features, true) ==
      if ParseRow(row).Ok? then Keep([ParseRow(row).value], true) else Fail(ParseRow(row).error)
  {
    var header := "[" + release + [last];
    assert header[1..|header| - 1] == release;
  }

  // One pass over the lines. `wanted` is whether the current block is the selected one.
  function ParseLines(lines: seq<string>, features: set<string>, wanted: bool): Result<seq<Jar>, ParseError>
    decreases |lines|
  {
    if lines == [] then Ok([])
    else
      match StepOf(StripReturn(lines[0]), features, wanted)
      case Finish => Ok([])
      case Fail(error) => Err(error)
      case Keep(found, next) => Prepend(found, ParseLines(lines[1..], features, next))
  }

  lemma OneLine(line: string, rest: seq<string>, features: set<string>, wanted: bool)
    ensures var step := StepOf(StripReturn(line), features, wanted);
      ParseLines([line] + rest, features, wanted) ==
        if step.Finish? then Ok([])
        else if step.Fail? then Err(step.error)
        else Prepend(step.found, ParseLines(rest, features, step.wanted))
  {
    var lines := [line] + rest;
    assert lines[0] == line && lines[1..] == rest;
  }

  function ParseTable(table: string, features: set<string>): Result<seq<Jar>, ParseError> {
    ParseLines(TextLines(table), features, false)
  }

  // ---- The build script's index loops ----

  function From(s: string, at: nat): string {
    if at <= |s| then s[at..] else ""
  }

  lemma {:induction false} SplitAt(line: string, at: nat, end: nat)
    requires at <= end <= |line| && (forall i :: at <= i < end ==> line[i] != '\t')
    requires end == |line| || line[end] == '\t'
    ensures Split(line[at..], '\t') ==
      if end == |line| then [line[at..end]] else [line[at..end]] + Split(line[end + 1..], '\t')
  {
    if end == |line| {
      assert line[at..] == line[at..end];
      SplitWord(line[at..], '\t');
    } else {
      assert line[at..] == line[at..end] + ['\t'] + line[end + 1..];
      SplitFirst(line[at..end], '\t', line[end + 1..]);
    }
  }

  // The pieces of the line from offset `at` on.
  function Pieces(line: string, at: nat): seq<string> {
    if at <= |line| then Split(line[at..], '\t') else []
  }

  // `fields` are the first pieces of the line, and the rest of it starts at `at`.
  ghost predicate FieldsUpTo(line: string, fields: seq<string>, at: nat) {
    at <= |line| + 1 && Split(line, '\t') == fields + Pieces(line, at)
  }

  lemma FieldsStart(line: string)
    ensures FieldsUpTo(line, [], 0)
  {
    assert line[0..] == line;
  }

  lemma PiecesStep(line: string, at: nat, end: nat)
    requires at <= end <= |line| && (forall i :: at <= i < end ==> line[i] != '\t')
    requires end == |line| || line[end] == '\t'
    ensures Pieces(line, at) == [line[at..end]] + Pieces(line, end + 1)
  {
    SplitAt(line, at, end);
  }

  lemma FieldStep(line: string, fields: seq<string>, at: nat, end: nat)
    requires FieldsUpTo(line, fields, at)
    requires at <= end <= |line| && (forall i :: at <= i < end ==> line[i] != '\t')
    requires end == |line| || line[end] == '\t'
    ensures FieldsUpTo(line, fields + [line[at..end]], end + 1)
  {
    PiecesStep(line, at, end);
    Regroup(fields, line[at..end], Pieces(line, end + 1));
  }

  lemma Regroup<T>(a: seq<T>, x: T, b: seq<T>)
    ensures a + ([x] + b) == a + [x] + b
  {
  }

  lemma FieldsEnd(line: string, fields: seq<string>, at: nat)
    requires FieldsUpTo(line, fields, at) && |fields| <= 3
    ensures |fields| == 3 ==> FieldsOf(line) == Ok(fields)
    ensures |fields| < 3 && at > |line| ==> FieldsOf(line) == Err(IndexOutOfBounds)
  {
    if |fields| == 3 {
      assert (fields + Pieces(line, at))[..3] == fields;
    }
  }

  // The inner loop of both scans: the next `stop`, or the end.
  method ScanTo(s: string, stop: char, at: nat) returns (end: nat)
    requires at <= |s|
    ensures at <= end <= |s| && (forall i :: at <= i < end ==> s[i] != stop)
    ensures end == |s| || s[end] == stop
  {
    end := at;
    while end < |s| && s[end] != stop
      invariant at <= end <= |s|
      invariant forall i :: at <= i < end ==> s[i] != stop
    {
      end := end + 1;
    }
  }

  method Fields(line: string) returns (r: Result<seq<string>, ParseError>)
    ensures r == FieldsOf(line)
  {
    var fields: seq<string> := [];
    var at: nat := 0;
    FieldsStart(line);
    while |fields| < 3
      invariant |fields| <= 3 && FieldsUpTo(line, fields, at)
      decreases 3 - |fields|
    {
      if at > |line| {
        FieldsEnd(line, fields, at);
        return Err(IndexOutOfBounds);
      }
      var end := ScanTo(line, '\t', at);
      FieldStep(line, fields, at, end);
      fields := fields + [line[at..end]];
      at := end + 1;
    }
    FieldsEnd(line, fields, at);
    r := Ok(fields);
  }

  // The line starting at `at` ends just before `next`.
  predicate IsLine(table: string, at: nat, next: nat) {
    && at < |table| && at < next <= |table| + 1
    && (forall i :: at <= i < next - 1 ==> table[i] != '\n')
    && (next <= |table| ==> table[next - 1] == '\n')
  }

  lemma LineEndAt(text: string, at: nat, next: nat)
    requires IsLine(text, at, next)
    ensures LineEnd(From(text, at)) == next - 1 - at
  {
    var rest := From(text, at);
    assert forall i :: 0 <= i < |rest| ==> rest[i] == text[at + i];
    LineEndIs(rest, next - 1 - at);
  }

  lemma LinesFrom(text: string, at: nat, next: nat)
    requires IsLine(text, at, next)
    ensures TextLines(From(text, at)) == [text[at..next - 1]] + TextLines(From(text, next))
  {
    LineEndAt(text, at, next);
    FirstOfLines(From(text, at), next - 1 - at, text[at..next - 1], From(text, next));
  }

  lemma FirstOfLines(text: string, end: nat, line: string, rest: string)
    requires text != "" && end == LineEnd(text) && line == text[..end]
    requires rest == if end < |text| then text[end + 1..] else ""
    ensures TextLines(text) == [line] + TextLines(rest)
  {
  }

  method ReadRow(line: string) returns (r: Result<Jar, ParseError>)
    ensures r == ParseRow(line)
  {
    var fields := Fields(line);
    if fields.Err? {
      return Err(fields.error);
    }
    var size := ParseLong(fields.value[2]);
    if size.Err? {
      return Err(size.error);
    }
    r := Ok(Jar(fields.value[0], fields.value[1], size.value));
  }

  method ReadLine(line: string, features: set<string>, wanted: bool) returns (step: Step)
    ensures step == StepOf(line, features, wanted)
  {
    if |line| > 0 && line[0] == '[' {
      if wanted {
        return Finish;
      }
      if |line| - 1 < 1 {
        return Fail(IndexOutOfBounds);
      }
      return Keep([], line[1..|line| - 1] in features);
    }
    if wanted && |line| > 0 && line[0] != '#' {
      var row := ReadRow(line);
      if row.Err? {
        return Fail(row.error);
      }
      return Keep([row.value], wanted);
    }
    step := Keep([], wanted);
  }

  // What the loop has read before offset `at`.
  ghost predicate ReadUpTo(table: string, features: set<string>, jars: seq<Jar>, wanted: bool, at: nat) {
    ParseTable(table, features) == Prepend(jars, Remaining(table, features, wanted, at))
  }

  function Remaining(table: string, features: set<string>, wanted: bool, at: nat): Result<seq<Jar>, ParseError> {
    ParseLines(TextLines(From(table, at)), features, wanted)
  }

  lemma ReadStart(table: string, features: set<string>)
    ensures ReadUpTo(table, features, [], false, 0)
  {
    PrependNone(ParseTable(table, features));
  }

  lemma ReadEnd(table: string, features: set<string>, jars: seq<Jar>, wanted: bool, at: nat)
    requires ReadUpTo(table, features, jars, wanted, at) && at >= |table|
    ensures ParseTable(table, features) == Ok(jars)
  {
    assert jars + [] == jars;
  }

  lemma StripAt(table: string, at: nat, end: nat, stop: nat)
    requires at <= end <= |table|
    requires stop == if end > at && table[end - 1] == '\r' then end - 1 else end
    ensures table[at..stop] == StripReturn(table[at..end])
  {
    assert table[at..end][..stop - at] == table[at..stop];
  }

  ghost predicate Stepped(table: string, features: set<string>, jars: seq<Jar>, step: Step, next: nat) {
    match step
    case Finish => ParseTable(table, features) == Ok(jars)
    case Fail(error) => ParseTable(table, features) == Err(error)
    case Keep(found, selected) => ReadUpTo(table, features, jars + found, selected, next)
  }

  lemma FirstLineRead(lines: seq<string>, raw: string, rest: seq<string>, features: set<string>, wanted: bool,
                      step: Step)
    requires lines == [raw] + rest && step == StepOf(StripReturn(raw), features, wanted)
    ensures ParseLines(lines, features, wanted) ==
      Continued(step, if step.Keep? then ParseLines(rest, features, step.wanted) else Ok([]))
  {
    OneLine(raw, rest, features, wanted);
  }

  lemma LineStep(table: string, features: set<string>, jars: seq<Jar>, wanted: bool, at: nat, next: nat,
                 line: string, step: Step)
    requires ReadUpTo(table, features, jars, wanted, at)
    requires IsLine(table, at, next) && line == StripReturn(table[at..next - 1])
    requires step == StepOf(line, features, wanted)
    ensures Stepped(table, features, jars, step, next)
  {
    var raw, rest := table[at..next - 1], TextLines(From(table, next));
    LinesFrom(table, at, next);
    FirstLineRead(TextLines(From(table, at)), raw, rest, features, wanted, step);
    AfterStep(jars, step, if step.Keep? then ParseLines(rest, features, step.wanted) else Ok([]));
  }

  // The rest of the scan after one step.
  function Continued(step: Step, more: Result<seq<Jar>, ParseError>): Result<seq<Jar>, ParseError> {
    if step.Finish? then Ok([]) else if step.Fail? then Err(step.error) else Prepend(step.found, more)
  }

  lemma AfterStep(jars: seq<Jar>, step: Step, more: Result<seq<Jar>, ParseError>)
    ensures step.Finish? ==> Prepend(jars, Continued(step, more)) == Ok(jars)
    ensures step.Fail? ==> Prepend(jars, Continued(step, more)) == Err(step.error)
    ensures step.Keep? ==> Prepend(jars, Continued(step, more)) == Prepend(jars + step.found, more)
  {
    assert jars + [] == jars;
    if step.Keep? {
      PrependTwice(jars, step.found, more);
    }
  }

  method NextLine(table: string, at: nat) returns (line: string, next: nat)
    requires at < |table|
    ensures IsLine(table, at, next) && line == StripReturn(table[at..next - 1])
  {
    var end := ScanTo(table, '\n', at);
    var stop := end;
    if stop > at && table[stop - 1] == '\r' {
      stop := stop - 1;
    }
    StripAt(table, at, end, stop);
    line, next := table[at..stop], end + 1;
  }

  method AddRuntimeLibraries(table: string, features: set<string>) returns (r: Result<seq<Jar>, ParseError>)
    ensures r == ParseTable(table, features)
  {
    var jars: seq<Jar> := [];
    var wanted := false;
    var at: nat := 0;
    ReadStart(table, features);
    while at < |table|
      invariant ReadUpTo(table, features, jars, wanted, at)
      decreases |table| + 1 - at
    {
      var line, next := NextLine(table, at);
      var step := ReadLine(line, features, wanted);
      LineStep(table, features, jars, wanted, at, next, line, step);
      match step {
        case Finish => return Ok(jars);
        case Fail(error) => return Err(error);
        case Keep(found, selected) =>
          jars := jars + found;
          wanted := selected;
      }
      at := next;
    }
    ReadEnd(table, features, jars, wanted, at);
    r := Ok(jars);
  }

  // ---- What was written is what is read ----

  predicate PlainLine(line: string) {
    '\n' !in line && (line == "" || line[|line| - 1] != '\r')
  }

  lemma WrittenLine(line: string, rest: string)
    requires '\n' !in line
    ensures TextLines(line + "\n" + rest) == [line] + TextLines(rest)
  {
    var text := line + "\n" + rest;
    assert forall i :: 0 <= i < |line| ==> text[i] == line[i] && line[i] in line;
    LineEndIs(text, |line|);
    assert text[..|line|] == line && text[|line| + 1..] == rest;
  }

  lemma {:induction false} WrittenLines(lines: seq<string>)
    requires forall line <- lines :: '\n' !in line
    ensures TextLines(Written(lines)) == lines
    decreases |lines|
  {
    if lines != [] {
      assert lines[0] in lines;
      WrittenLine(lines[0], Written(lines[1..]));
      WrittenLines(lines[1..]);
    }
  }

  // Every line ending as CRLF.
  function Crlf(text: string): string {
    if text == "" then ""
    else (if text[0] == '\n' then "\r\n" else [text[0]]) + Crlf(text[1..])
  }

  function ReturnEnded(lines: seq<string>): (r: seq<string>)
    ensures |r| == |lines| && forall i :: 0 <= i < |r| ==> r[i] == lines[i] + "\r"
  {
    seq(|lines|, i requires 0 <= i < |lines| => lines[i] + "\r")
  }

  lemma {:induction false} CrlfConcat(a: string, b: string)
    ensures Crlf(a + b) == Crlf(a) + Crlf(b)
    decreases |a|
  {
    if a == "" {
      assert a + b == b;
    } else {
      assert (a + b)[1..] == a[1..] + b;
      CrlfConcat(a[1..], b);
    }
  }

  lemma {:induction false} CrlfPlain(line: string)
    requires '\n' !in line
    ensures Crlf(line) == line
    decreases |line|
  {
    if line != "" {
      assert line[0] in line;
      CrlfPlain(line[1..]);
    }
  }

  lemma {:induction false} CrlfWritten(lines: seq<string>)
    requires forall line <- lines :: '\n' !in line
    ensures Crlf(Written(lines)) == Written(ReturnEnded(lines))
    decreases |lines|
  {
    if lines != [] {
      assert lines[0] in lines;
      var rest := Written(lines[1..]);
      CrlfConcat(lines[0] + "\n", rest);
      CrlfConcat(lines[0], "\n");
      CrlfPlain(lines[0]);
      assert "\n"[1..] == "" && Crlf("\n") == "\r\n";
      CrlfWritten(lines[1..]);
      assert ReturnEnded(lines)[1..] == ReturnEnded(lines[1..]);
      assert lines[0] + "\r\n" == lines[0] + "\r" + "\n";
    }
  }

  lemma {:induction false} ReturnsIgnored(lines: seq<string>, features: set<string>, wanted: bool)
    requires forall line <- lines :: PlainLine(line)
    ensures ParseLines(ReturnEnded(lines), features, wanted) == ParseLines(lines, features, wanted)
    decreases |lines|
  {
    if lines != [] {
      var line := lines[0];
      assert line in lines;
      var ended := ReturnEnded(lines);
      assert ended[0] == line + "\r" && (line + "\r")[..|line|] == line;
      assert StripReturn(ended[0]) == line == StripReturn(line);
      assert ended[1..] == ReturnEnded(lines[1..]);
      if line != "" && line[0] == '[' {
        if !wanted && |line| > 1 {
          ReturnsIgnored(lines[1..], features, line[1..|line| - 1] in features);
        }
      } else {
        ReturnsIgnored(lines[1..], features, wanted);
      }
    }
  }

  // ---- Well-formed tables ----

  // What the generator admits: a path and digest spellable as tab-separated fields.
  predicate Spellable(jar: Jar) {
    && '\t' !in jar.path && '\n' !in jar.path && '\r' !in jar.path
    && '\t' !in jar.sha1 && '\n' !in jar.sha1
  }

  // What it does not check and the reader needs.
  predicate Readable(jar: Jar) {
    && (jar.path == "" || (jar.path[0] != '[' && jar.path[0] != '#'))
    && -9_223_372_036_854_775_808 <= jar.size <= 9_223_372_036_854_775_807
  }

  predicate AllSpellable(jars: seq<Jar>) {
    forall jar <- jars :: Spellable(jar)
  }

  predicate AllReadable(jars: seq<Jar>) {
    forall jar <- jars :: Readable(jar)
  }

  predicate PlainBlock(block: Block) {
    '\n' !in block.release && AllSpellable(block.jars)
  }

  predicate PlainFeatures(features: set<string>) {
    forall feature <- features :: '\t' !in feature
  }

  predicate WellFormed(comments: seq<string>, blocks: seq<Block>) {
    && (forall line <- comments :: line != "" && line[0] == '#' && PlainLine(line))
    && (forall block <- blocks :: PlainBlock(block))
  }

  // The first block whose release is selected.
  function Selected(blocks: seq<Block>, features: set<string>): seq<Jar> {
    if blocks == [] then []
    else if blocks[0].release in features then blocks[0].jars
    else Selected(blocks[1..], features)
  }

  lemma {:induction false} DigitsPlain(n: nat)
    ensures forall c <- Digits(n) :: c != '\t' && c != '\n' && c != '\r'
  {
    if n >= 10 {
      DigitsPlain(n / 10);
    }
  }

  lemma NumberPlain(n: int)
    ensures forall c <- Decimal(n) :: c != '\t' && c != '\n' && c != '\r'
  {
    DigitsPlain(if n < 0 then -n else n);
  }

  lemma RowFields(jar: Jar)
    requires Spellable(jar)
    ensures Split(RowText(jar), '\t') == [jar.path, jar.sha1, Decimal(jar.size)]
  {
    var number := Decimal(jar.size);
    NumberPlain(jar.size);
    assert RowText(jar) == jar.path + ['\t'] + (jar.sha1 + ['\t'] + number);
    SplitFirst(jar.path, '\t', jar.sha1 + ['\t'] + number);
    SplitFirst(jar.sha1, '\t', number);
    SplitWord(number, '\t');
  }

  lemma RowShape(jar: Jar)
    requires Spellable(jar)
    ensures var row := RowText(jar);
      && PlainLine(row) && StripReturn(row) == row
      && |row| > 1 && '\t' in row[1..|row| - 1]
      && row[0] == (if jar.path == "" then '\t' else jar.path[0])
  {
    var number := Decimal(jar.size);
    NumberPlain(jar.size);
    RowSpelling(jar.path, jar.sha1, number);
  }

  lemma RowSpelling(path: string, sha1: string, number: string)
    requires '\n' !in path && '\n' !in sha1 && '\n' !in number && number != "" && '\r' !in number
    ensures var row := path + "\t" + sha1 + "\t" + number;
      && PlainLine(row) && |row| > 1 && '\t' in row[1..|row| - 1]
      && row[0] == (if path == "" then '\t' else path[0])
  {
    var row := path + "\t" + sha1 + "\t" + number;
    var second := |path| + 1 + |sha1|;
    assert row[|row| - 1] == number[|number| - 1] && number[|number| - 1] in number;
    assert row[second] == '\t' && 0 < second < |row| - 1;
    assert row[1..|row| - 1][second - 1] == '\t';
  }

  lemma RowParses(jar: Jar)
    requires Spellable(jar)
    ensures ParseRow(RowText(jar)) == if FitsLong(jar.size) then Ok(jar) else Err(NumberFormat)
  {
    RowFields(jar);
    DecimalRoundTrip(jar.size);
  }

  lemma HeaderShape(release: string)
    requires '\n' !in release
    ensures PlainLine(Header(release)) && StripReturn(Header(release)) == Header(release)
    ensures Header(release)[0] == '[' && Header(release)[1..|Header(release)| - 1] == release
  {
  }

  // One line at a time.
  lemma WantedRow(jar: Jar, features: set<string>)
    requires Spellable(jar)
    ensures StepOf(StripReturn(RowText(jar)), features, true) ==
      if jar.path != "" && jar.path[0] == '[' then Finish
      else if jar.path != "" && jar.path[0] == '#' then Keep([], true)
      else if FitsLong(jar.size) then Keep([jar], true)
      else Fail(NumberFormat)
  {
    RowShape(jar);
    RowParses(jar);
  }

  lemma UnwantedRow(jar: Jar, features: set<string>)
    requires Spellable(jar)
    requires PlainFeatures(features)
    ensures StepOf(StripReturn(RowText(jar)), features, false) == Keep([], false)
  {
    RowShape(jar);
    assert RowText(jar)[1..|RowText(jar)| - 1] !in features;
  }

  lemma HeaderStep(release: string, features: set<string>, wanted: bool)
    requires '\n' !in release
    ensures StepOf(StripReturn(Header(release)), features, wanted) ==
      if wanted then Finish else Keep([], release in features)
  {
    HeaderShape(release);
  }

  lemma RowLine(jar: Jar, rest: seq<string>, features: set<string>)
    requires Spellable(jar)
    ensures ParseLines([RowText(jar)] + rest, features, true) ==
      if jar.path != "" && jar.path[0] == '[' then Ok([])
      else if jar.path != "" && jar.path[0] == '#' then ParseLines(rest, features, true)
      else if FitsLong(jar.size) then Prepend([jar], ParseLines(rest, features, true))
      else Err(NumberFormat)
  {
    OneLine(RowText(jar), rest, features, true);
    WantedRow(jar, features);
    PrependNone(ParseLines(rest, features, true));
  }

  lemma SkippedRow(jar: Jar, rest: seq<string>, features: set<string>)
    requires Spellable(jar)
    requires PlainFeatures(features)
    ensures ParseLines([RowText(jar)] + rest, features, false) == ParseLines(rest, features, false)
  {
    OneLine(RowText(jar), rest, features, false);
    UnwantedRow(jar, features);
    PrependNone(ParseLines(rest, features, false));
  }

  lemma HeaderLine(release: string, rest: seq<string>, features: set<string>, wanted: bool)
    requires '\n' !in release
    ensures ParseLines([Header(release)] + rest, features, wanted) ==
      if wanted then Ok([]) else ParseLines(rest, features, release in features)
  {
    OneLine(Header(release), rest, features, wanted);
    HeaderStep(release, features, wanted);
    PrependNone(ParseLines(rest, features, release in features));
  }

  lemma RowLinesFirst(jar: Jar, jars: seq<Jar>, rest: seq<string>)
    ensures RowLines([jar] + jars) + rest == [RowText(jar)] + (RowLines(jars) + rest)
  {
  }

  // No more rows than there are, and as many only when all of them can be read.
  predicate RowsLost(jars: seq<Jar>, r: Result<seq<Jar>, ParseError>) {
    r.Ok? ==> |r.value| <= |jars| && (|r.value| == |jars| ==> AllReadable(jars))
  }

  // In the selected block, readable rows are read as they are...
  lemma ReadableRow(jar: Jar, jars: seq<Jar>, rest: seq<string>, features: set<string>)
    requires Spellable(jar) && Readable(jar)
    requires ParseLines(RowLines(jars) + rest, features, true) == Ok(jars)
    ensures ParseLines(RowLines([jar] + jars) + rest, features, true) == Ok([jar] + jars)
  {
    RowLinesFirst(jar, jars, rest);
    RowLine(jar, RowLines(jars) + rest, features);
  }

  lemma {:induction false} ReadableRows(jars: seq<Jar>, rest: seq<string>, features: set<string>)
    requires AllSpellable(jars) && AllReadable(jars)
    requires ParseLines(rest, features, true) == Ok([])
    ensures ParseLines(RowLines(jars) + rest, features, true) == Ok(jars)
    decreases |jars|
  {
    if jars == [] {
      assert RowLines(jars) + rest == rest;
    } else {
      assert jars[0] in jars;
      var tail := jars[1..];
      assert ParseLines(RowLines(tail) + rest, features, true) == Ok(tail) by {
        ReadableRows(tail, rest, features);
      }
      assert ParseLines(RowLines([jars[0]] + tail) + rest, features, true) == Ok([jars[0]] + tail) by {
        ReadableRow(jars[0], tail, rest, features);
      }
      assert [jars[0]] + tail == jars;
    }
  }

  // ... and an unreadable one is lost, ends the block, or fails the script.
  lemma RowRead(jar: Jar, jars: seq<Jar>, rest: seq<string>, features: set<string>)
    requires Spellable(jar)
    requires RowsLost(jars, ParseLines(RowLines(jars) + rest, features, true))
    ensures RowsLost([jar] + jars, ParseLines(RowLines([jar] + jars) + rest, features, true))
  {
    RowLinesFirst(jar, jars, rest);
    RowLine(jar, RowLines(jars) + rest, features);
  }

  lemma {:induction false} RowsRead(jars: seq<Jar>, rest: seq<string>, features: set<string>)
    requires AllSpellable(jars)
    requires ParseLines(rest, features, true) == Ok([])
    ensures RowsLost(jars, ParseLines(RowLines(jars) + rest, features, true))
    decreases |jars|
  {
    if jars == [] {
      assert RowLines(jars) + rest == rest;
    } else {
      assert jars[0] in jars;
      var tail := jars[1..];
      assert RowsLost(tail, ParseLines(RowLines(tail) + rest, features, true)) by {
        RowsRead(tail, rest, features);
      }
      assert RowsLost([jars[0]] + tail, ParseLines(RowLines([jars[0]] + tail) + rest, features, true)) by {
        RowRead(jars[0], tail, rest, features);
      }
      assert [jars[0]] + tail == jars;
    }
  }

  lemma SelectedRows(jars: seq<Jar>, rest: seq<string>, features: set<string>)
    requires AllSpellable(jars)
    requires ParseLines(rest, features, true) == Ok([])
    ensures ParseLines(RowLines(jars) + rest, features, true) == Ok(jars) <==> AllReadable(jars)
  {
    RowsRead(jars, rest, features);
    if AllReadable(jars) {
      ReadableRows(jars, rest, features);
    }
  }

  // Outside it: rows are skipped, whatever their paths.
  lemma SkippedFirst(jar: Jar, jars: seq<Jar>, rest: seq<string>, features: set<string>)
    requires Spellable(jar) && PlainFeatures(features)
    ensures ParseLines(RowLines([jar] + jars) + rest, features, false)
      == ParseLines(RowLines(jars) + rest, features, false)
  {
    RowLinesFirst(jar, jars, rest);
    SkippedRow(jar, RowLines(jars) + rest, features);
  }

  lemma {:induction false} SkippedRows(jars: seq<Jar>, rest: seq<string>, features: set<string>)
    requires AllSpellable(jars) && PlainFeatures(features)
    ensures ParseLines(RowLines(jars) + rest, features, false) == ParseLines(rest, features, false)
    decreases |jars|
  {
    if jars == [] {
      assert RowLines(jars) + rest == rest;
    } else {
      assert jars[0] in jars;
      var tail := jars[1..];
      var skipped := ParseLines(RowLines(tail) + rest, features, false);
      assert skipped == ParseLines(rest, features, false) by {
        SkippedRows(tail, rest, features);
      }
      assert ParseLines(RowLines([jars[0]] + tail) + rest, features, false) == skipped by {
        SkippedFirst(jars[0], tail, rest, features);
      }
      assert [jars[0]] + tail == jars;
    }
  }

  lemma BlockLinesFirst(block: Block, blocks: seq<Block>)
    ensures BlockLines([block] + blocks) == [Header(block.release)] + (RowLines(block.jars) + BlockLines(blocks))
  {
    assert ([block] + blocks)[1..] == blocks;
  }

  // What follows the selected block adds nothing.
  lemma BlocksEnd(blocks: seq<Block>, features: set<string>)
    requires WellFormed([], blocks)
    ensures ParseLines(BlockLines(blocks), features, true) == Ok([])
  {
    if blocks != [] {
      assert blocks[0] in blocks && blocks == [blocks[0]] + blocks[1..];
      BlockLinesFirst(blocks[0], blocks[1..]);
      HeaderLine(blocks[0].release, RowLines(blocks[0].jars) + BlockLines(blocks[1..]), features, true);
    }
  }

  lemma WantedBlock(block: Block, after: seq<string>, features: set<string>)
    requires PlainBlock(block) && block.release in features
    requires ParseLines(after, features, true) == Ok([])
    ensures ParseLines([Header(block.release)] + (RowLines(block.jars) + after), features, false) == Ok(block.jars)
      <==> AllReadable(block.jars)
  {
    HeaderLine(block.release, RowLines(block.jars) + after, features, false);
    SelectedRows(block.jars, after, features);
  }

  lemma UnwantedBlock(block: Block, after: seq<string>, features: set<string>)
    requires PlainBlock(block) && PlainFeatures(features) && block.release !in features
    ensures ParseLines([Header(block.release)] + (RowLines(block.jars) + after), features, false)
         == ParseLines(after, features, false)
  {
    HeaderLine(block.release, RowLines(block.jars) + after, features, false);
    SkippedRows(block.jars, after, features);
  }

  lemma {:induction false} BlocksParse(blocks: seq<Block>, features: set<string>)
    requires WellFormed([], blocks) && PlainFeatures(features)
    ensures ParseLines(BlockLines(blocks), features, false) == Ok(Selected(blocks, features)) <==>
      AllReadable(Selected(blocks, features))
    decreases |blocks|
  {
    if blocks != [] {
      var block, others := blocks[0], blocks[1..];
      assert block in blocks && blocks == [block] + others;
      BlockLinesFirst(block, others);
      if block.release in features {
        BlocksEnd(others, features);
        WantedBlock(block, BlockLines(others), features);
      } else {
        UnwantedBlock(block, BlockLines(others), features);
        BlocksParse(others, features);
      }
    }
  }

  lemma {:induction false} CommentsSkipped(comments: seq<string>, rest: seq<string>, features: set<string>)
    requires WellFormed(comments, [])
    ensures ParseLines(comments + rest, features, false) == ParseLines(rest, features, false)
    decreases |comments|
  {
    if comments == [] {
      assert comments + rest == rest;
    } else {
      assert comments[0] in comments;
      assert forall line <- comments[1..] :: line in comments;
      OneLine(comments[0], comments[1..] + rest, features, false);
      assert comments + rest == [comments[0]] + (comments[1..] + rest);
      PrependNone(ParseLines(comments[1..] + rest, features, false));
      CommentsSkipped(comments[1..], rest, features);
    }
  }

  lemma {:induction false} BlockLinesPlain(blocks: seq<Block>)
    requires WellFormed([], blocks)
    ensures forall line <- BlockLines(blocks) :: PlainLine(line)
    decreases |blocks|
  {
    if blocks != [] {
      assert blocks[0] in blocks;
      HeaderShape(blocks[0].release);
      forall line | line in RowLines(blocks[0].jars) ensures PlainLine(line) {
        var i :| 0 <= i < |blocks[0].jars| && RowText(blocks[0].jars[i]) == line;
        assert blocks[0].jars[i] in blocks[0].jars;
        RowShape(blocks[0].jars[i]);
      }
      BlockLinesPlain(blocks[1..]);
    }
  }

  // Reading a rendered table gives the selected release's rows, in order, exactly when each of those
  // rows has a path that is no header or comment and a size a `long` holds.
  lemma TableRoundTrip(comments: seq<string>, blocks: seq<Block>, features: set<string>)
    requires WellFormed(comments, blocks)
    requires PlainFeatures(features)
    ensures ParseTable(RenderTable(comments, blocks), features) == Ok(Selected(blocks, features)) <==>
      AllReadable(Selected(blocks, features))
  {
    BlockLinesPlain(blocks);
    WrittenLines(comments + BlockLines(blocks));
    CommentsSkipped(comments, BlockLines(blocks), features);
    BlocksParse(blocks, features);
  }

  lemma ReturnEndedPlain(lines: seq<string>)
    requires forall line <- lines :: PlainLine(line)
    ensures forall line <- ReturnEnded(lines) :: '\n' !in line
  {
    forall line <- ReturnEnded(lines) ensures '\n' !in line {
      var i :| 0 <= i < |lines| && line == lines[i] + "\r";
      assert lines[i] in lines;
    }
  }

  lemma LinesIgnoreReturns(lines: seq<string>, features: set<string>)
    requires forall line <- lines :: PlainLine(line)
    ensures ParseTable(Crlf(Written(lines)), features) == ParseTable(Written(lines), features)
  {
    CrlfWritten(lines);
    WrittenLines(lines);
    ReturnEndedPlain(lines);
    WrittenLines(ReturnEnded(lines));
    ReturnsIgnored(lines, features, false);
  }

  // Line endings do not matter.
  lemma TableIgnoresReturns(comments: seq<string>, blocks: seq<Block>, features: set<string>)
    requires WellFormed(comments, blocks)
    ensures ParseTable(Crlf(RenderTable(comments, blocks)), features)
      == ParseTable(RenderTable(comments, blocks), features)
  {
    var lines := comments + BlockLines(blocks);
    BlockLinesPlain(blocks);
    LinesIgnoreReturns(lines, features);
  }
}
